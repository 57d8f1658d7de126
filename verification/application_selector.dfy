/** The application selector of the import form
    (frontend/packages/dev-console/src/components/import/app/ApplicationSelector.tsx):
    a dropdown of existing applications with a "Create Application" action,
    and a name input shown while that action is selected. */
module ApplicationSelector {
  import opened JsValues

  /** Sentinel dropdown key of the "Create Application" action. */
  const CreateApplicationKey: string := "#CREATE_APPLICATION_KEY#"

  /** The part of the form the selector reads and writes: the form values
      `application.selectedKey` and `application.name`, the touched flag of
      `application.selectedKey`, and the component's own `isZeroApplication`. */
  datatype AppForm = AppForm(
    selectedKey: string,
    name: string,
    touched: bool,
    isZeroApplication: bool)

  /** State on mount: the form's initial values, `isZeroApplication` false. */
  function Initial(selectedKey: string, name: string, touched: bool): AppForm {
    AppForm(selectedKey, name, touched, false)
  }

  /** `onDropdownChange(key, application)`. The call to `validateForm` only
      recomputes the form's errors, which live outside this record. */
  function OnDropdownChange(s: AppForm, key: string, application: string): AppForm {
    var s1 := s.(touched := true);
    if key == CreateApplicationKey then s1.(name := "", selectedKey := key)
    else s1.(name := application, selectedKey := key)
  }

  /** `handleOnLoad(items)`: `items` maps dropdown keys to application names;
      `_.isEmpty` holds of it when it has no keys. */
  function HandleOnLoad(s: AppForm, items: map<string, string>): AppForm {
    var isEmptyItems := |items| == 0;
    var s1 := s.(isZeroApplication := isEmptyItems);
    if isEmptyItems then s1.(selectedKey := CreateApplicationKey, name := "")
    else s1
  }

  /** The "Application" dropdown is rendered. */
  predicate DropdownShown(s: AppForm) {
    !s.isZeroApplication
  }

  /** The "Application Name" input is rendered. */
  predicate NameInputShown(s: AppForm) {
    s.selectedKey == CreateApplicationKey
  }

  /** What the dropdown's form group shows for the field's validation state. */
  datatype FieldStatus = FieldStatus(isValid: bool, errorMessage: string)

  /** `isValid` and `errorMessage` from the touched flag and the validation
      error of `application.selectedKey` (absent when there is none). */
  function Status(touched: bool, error: Option<string>): FieldStatus {
    var isValid := !(touched && Truthy(error));
    FieldStatus(isValid, if !isValid then error.value else "")
  }

  /** The field is reported invalid only when touched and in error, and the
      message shown is empty exactly when it is valid. */
  lemma StatusMeaning(touched: bool, error: Option<string>)
    ensures !Status(touched, error).isValid <==> touched && error.Some? && error.value != ""
    ensures Status(touched, error).errorMessage == "" <==> Status(touched, error).isValid
    ensures !Status(touched, error).isValid ==> Status(touched, error).errorMessage == error.value
  {
  }

  /** Choosing "Create Application" selects the sentinel, clears the name,
      marks the field touched and brings up the name input. */
  lemma ChooseCreateApplication(s: AppForm, application: string)
    ensures OnDropdownChange(s, CreateApplicationKey, application).selectedKey == CreateApplicationKey
    ensures OnDropdownChange(s, CreateApplicationKey, application).name == ""
    ensures OnDropdownChange(s, CreateApplicationKey, application).touched
    ensures NameInputShown(OnDropdownChange(s, CreateApplicationKey, application))
    ensures OnDropdownChange(s, CreateApplicationKey, application).isZeroApplication == s.isZeroApplication
  {
  }

  /** Choosing an existing application selects its key, takes its label as
      the name, marks the field touched and hides the name input. */
  lemma ChooseExistingApplication(s: AppForm, key: string, application: string)
    requires key != CreateApplicationKey
    ensures OnDropdownChange(s, key, application).selectedKey == key
    ensures OnDropdownChange(s, key, application).name == application
    ensures OnDropdownChange(s, key, application).touched
    ensures !NameInputShown(OnDropdownChange(s, key, application))
    ensures OnDropdownChange(s, key, application).isZeroApplication == s.isZeroApplication
  {
  }

  /** After any dropdown change the name input is shown exactly when the
      sentinel was chosen, and the field is touched whatever the key. */
  lemma DropdownChangeDecidesNameInput(s: AppForm, key: string, application: string)
    ensures NameInputShown(OnDropdownChange(s, key, application)) <==> key == CreateApplicationKey
    ensures OnDropdownChange(s, key, application).touched
  {
  }

  /** Loading no applications hides the dropdown, forces the sentinel, clears
      the name and so always shows the name input. */
  lemma EmptyLoadForcesCreate(s: AppForm)
    ensures HandleOnLoad(s, map[]).isZeroApplication
    ensures HandleOnLoad(s, map[]).selectedKey == CreateApplicationKey
    ensures HandleOnLoad(s, map[]).name == ""
    ensures HandleOnLoad(s, map[]).touched == s.touched
    ensures !DropdownShown(HandleOnLoad(s, map[])) && NameInputShown(HandleOnLoad(s, map[]))
  {
  }

  /** Loading some applications shows the dropdown and leaves the selection,
      the name and the touched flag as they were. */
  lemma NonEmptyLoadKeepsSelection(s: AppForm, items: map<string, string>)
    requires |items| > 0
    ensures !HandleOnLoad(s, items).isZeroApplication
    ensures DropdownShown(HandleOnLoad(s, items))
    ensures HandleOnLoad(s, items).selectedKey == s.selectedKey
    ensures HandleOnLoad(s, items).name == s.name
    ensures HandleOnLoad(s, items).touched == s.touched
  {
  }

  /** Events reaching the selector: the dropdown's change and load
      callbacks, and typing into the name input. */
  datatype AppEvent =
    | DropdownChanged(key: string, application: string)
    | ItemsLoaded(items: map<string, string>)
    | NameTyped(value: string)

  /** An event can only come from a control that is rendered. */
  predicate Delivered(s: AppForm, ev: AppEvent) {
    match ev
    case DropdownChanged(_, _) => DropdownShown(s)
    case ItemsLoaded(_) => DropdownShown(s)
    case NameTyped(_) => NameInputShown(s)
  }

  /** One event; an event no rendered control can emit changes nothing. */
  function Step(s: AppForm, ev: AppEvent): AppForm {
    if !Delivered(s, ev) then s
    else
      match ev
      case DropdownChanged(key, application) => OnDropdownChange(s, key, application)
      case ItemsLoaded(items) => HandleOnLoad(s, items)
      case NameTyped(v) => s.(name := v)
  }

  function Run(s: AppForm, evs: seq<AppEvent>): AppForm
    decreases |evs|
  {
    if |evs| == 0 then s else Run(Step(s, evs[0]), evs[1..])
  }

  /** At least one of the two controls is on screen: whenever the dropdown is
      hidden, the sentinel is selected. */
  predicate SomeControlShown(s: AppForm) {
    DropdownShown(s) || NameInputShown(s)
  }

  lemma StepKeepsSomeControlShown(s: AppForm, ev: AppEvent)
    requires SomeControlShown(s)
    ensures SomeControlShown(Step(s, ev))
  {
  }

  /** From mount on, whatever happens, the user always sees the dropdown or
      the name input. */
  lemma {:induction false} AlwaysSomeControlShown(s: AppForm, evs: seq<AppEvent>)
    requires SomeControlShown(s)
    ensures SomeControlShown(Run(s, evs))
    decreases |evs|
  {
    if |evs| > 0 {
      StepKeepsSomeControlShown(s, evs[0]);
      AlwaysSomeControlShown(Step(s, evs[0]), evs[1..]);
    }
  }

  /** Starting from mount, with any initial form values. */
  lemma MountedSelectorAlwaysShowsAControl(selectedKey: string, name: string, touched: bool, evs: seq<AppEvent>)
    ensures DropdownShown(Initial(selectedKey, name, touched))
    ensures SomeControlShown(Run(Initial(selectedKey, name, touched), evs))
  {
    AlwaysSomeControlShown(Initial(selectedKey, name, touched), evs);
  }

  /** Once no applications were loaded the dropdown is gone for good, so the
      selection stays on the sentinel; only the typed name can change. */
  lemma {:induction false} ZeroApplicationIsFinal(s: AppForm, evs: seq<AppEvent>)
    requires s.isZeroApplication && s.selectedKey == CreateApplicationKey
    ensures Run(s, evs).isZeroApplication
    ensures Run(s, evs).selectedKey == CreateApplicationKey
    ensures Run(s, evs).touched == s.touched
    decreases |evs|
  {
    if |evs| > 0 {
      ZeroApplicationIsFinal(Step(s, evs[0]), evs[1..]);
    }
  }
}

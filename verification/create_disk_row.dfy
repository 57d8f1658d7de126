/** The inline "create disk" row of a virtual machine's disk table
    (frontend/packages/kubevirt-plugin/src/components/vm-disks/create-disk-row.tsx):
    name, size, bus and storage-class columns, and accept/cancel buttons that
    submit the disk as a patch of the virtual machine. */
module CreateDiskRow {
  import opened JsValues

  const NoStorageClassPlaceholder: string := "--- No Storage Class Available ---"
  const SelectStorageClassPlaceholder: string := "--- Select Storage Class ---"

  /** A storage class resource; only its name (`getName`) is used. */
  datatype StorageClass = StorageClass(name: string)

  /** A watched resource list: not yet loaded, or loaded with its items. */
  datatype Watched<T> = NotLoaded | Loaded(data: seq<T>)

  /** What the storage-class column renders. */
  datatype StorageClassView =
    | LoadingInline
    | ClassDropdown(choices: seq<string>, value: string, disabled: bool)

  /** `StorageClassColumn`. `storageClass` is the row's selection, `null`
      until the user picks one. */
  function StorageClassColumn(storageClass: Option<string>, classes: Watched<StorageClass>, creating: bool): StorageClassView {
    match classes
    case NotLoaded => LoadingInline
    case Loaded(loaded) =>
      var value :=
        if Truthy(storageClass) then storageClass.value
        else if |loaded| == 0 then NoStorageClassPlaceholder
        else SelectStorageClassPlaceholder;
      var names := seq(|loaded|, i requires 0 <= i < |loaded| => loaded[i].name);
      ClassDropdown(names, value, |loaded| == 0 || creating)
  }

  /** The column shows only a loading indicator until the list is loaded;
      then a dropdown whose choices are the loaded names in list order,
      which is disabled exactly when the list is empty or a creation is in
      flight, and which shows the selection, or a placeholder telling
      whether there is anything to select. */
  lemma StorageClassColumnShows(storageClass: Option<string>, classes: Watched<StorageClass>, creating: bool)
    ensures StorageClassColumn(storageClass, classes, creating).LoadingInline? <==> classes.NotLoaded?
    ensures classes.Loaded? ==>
      var v := StorageClassColumn(storageClass, classes, creating);
      && |v.choices| == |classes.data|
      && (forall i :: 0 <= i < |classes.data| ==> v.choices[i] == classes.data[i].name)
      && (v.disabled <==> |classes.data| == 0 || creating)
      && (Truthy(storageClass) ==> v.value == storageClass.value)
      && (!Truthy(storageClass) && |classes.data| == 0 ==> v.value == NoStorageClassPlaceholder)
      && (!Truthy(storageClass) && |classes.data| > 0 ==> v.value == SelectStorageClassPlaceholder)
  {
  }

  /** A validation result for the disk name (`validateDiskName`);
      `isError` tells whether its type is `ValidationErrorType.Error`. */
  datatype ValidationError = ValidationError(isError: bool, message: string)

  /** What the row cannot compute itself: the preferred disk bus of the
      virtual machine, the name validator (which already knows the existing
      disks), and the general error message. */
  datatype RowEnv = RowEnv(
    bus: string,
    validateName: string -> Option<ValidationError>,
    generalErrorMsg: string)

  /** The row's local state. */
  datatype DiskRow = DiskRow(name: string, size: string, storageClass: Option<string>, creating: bool)

  /** The row on mount: empty name and size, no storage class. */
  const InitialRow: DiskRow := DiskRow("", "", None, false)

  /** The disk handed to the patch. */
  datatype Disk = Disk(name: string, size: string, bus: string, storageClass: Option<string>)

  /** `isValid`: no validation result at all for the name (any result,
      whatever its type, is a truthy object) and a non-empty size. */
  predicate AcceptEnabled(env: RowEnv, row: DiskRow) {
    env.validateName(row.name).None? && row.size != ""
  }

  /** The help text under the name: the message of an error-type result. */
  function NameHelpText(nameError: Option<ValidationError>): string {
    if nameError.Some? && nameError.value.isError then nameError.value.message else ""
  }

  /** The name and size inputs are disabled while creating. */
  predicate InputsDisabled(row: DiskRow) {
    row.creating
  }

  /** How a patch request settled when it was rejected: with no error value,
      or with an error object whose `message` may be absent. */
  datatype Rejection = NoErrorValue | ErrorObject(message: Option<string>)

  /** The message reported for a rejected patch: the error's own message
      when there is an error object with a truthy message, and the general
      error message in every other case. */
  function ReportedMessage(env: RowEnv, e: Rejection): string {
    if e.ErrorObject? && Truthy(e.message) then e.message.value else env.generalErrorMsg
  }

  lemma ReportedMessageMeaning(env: RowEnv, e: Rejection)
    ensures (e.ErrorObject? && e.message.Some? && e.message.value != "") ==> ReportedMessage(env, e) == e.message.value
    ensures !(e.ErrorObject? && e.message.Some? && e.message.value != "") ==> ReportedMessage(env, e) == env.generalErrorMsg
    ensures env.generalErrorMsg != "" ==> ReportedMessage(env, e) != ""
  {
  }

  /** Events that reach the row: user input, and the settling of a patch. */
  datatype RowEvent =
    | NameEdited(name: string)
    | SizeEdited(size: string)
    | StorageClassPicked(storageClass: string)
    | AcceptClicked
    | CancelClicked
    | PatchResolved
    | PatchRejected(error: Rejection)

  /** Calls the row makes to the outside. */
  datatype Effect =
    | SubmitDisk(disk: Disk)       // `createDisk`
    | ReportError(message: string) // `onCreateRowError`
    | Dismiss                      // `onCreateRowDismiss`

  /** The row plus what its environment sees of it: how many patch requests
      are still pending and whether the row is still mounted. */
  datatype Session = Session(row: DiskRow, pending: nat, mounted: bool)

  datatype StepResult = StepResult(session: Session, effect: Option<Effect>)

  /** An event can only come from an enabled control of a mounted row, or
      from a pending request. */
  predicate Delivered(env: RowEnv, classes: Watched<StorageClass>, s: Session, ev: RowEvent) {
    match ev
    case NameEdited(_) => s.mounted && !InputsDisabled(s.row)
    case SizeEdited(_) => s.mounted && !InputsDisabled(s.row)
    case StorageClassPicked(v) =>
      var view := StorageClassColumn(s.row.storageClass, classes, s.row.creating);
      s.mounted && view.ClassDropdown? && !view.disabled && v in view.choices
    case AcceptClicked => s.mounted && AcceptEnabled(env, s.row)
    case CancelClicked => s.mounted
    case PatchResolved => s.pending > 0
    case PatchRejected(_) => s.pending > 0
  }

  /** One event. State updates after the row is unmounted are dropped, as
      `useSafetyFirst` does; the parent's callbacks are still called. The
      parent's callbacks are taken to return normally; the error callback
      leaves the row mounted, and the dismiss callback removes it. */
  function Step(env: RowEnv, classes: Watched<StorageClass>, s: Session, ev: RowEvent): StepResult {
    if !Delivered(env, classes, s, ev) then StepResult(s, None)
    else
      var row := s.row;
      match ev
      case NameEdited(v) => StepResult(s.(row := row.(name := v)), None)
      case SizeEdited(v) => StepResult(s.(row := row.(size := v)), None)
      case StorageClassPicked(v) => StepResult(s.(row := row.(storageClass := Some(v))), None)
      case AcceptClicked =>
        StepResult(
          Session(row.(creating := true), s.pending + 1, true),
          Some(SubmitDisk(Disk(row.name, row.size, env.bus, row.storageClass))))
      case CancelClicked => StepResult(s.(mounted := false), Some(Dismiss))
      case PatchResolved => StepResult(Session(row, s.pending - 1, false), Some(Dismiss))
      case PatchRejected(e) =>
        var row' := if s.mounted then row.(creating := false) else row;
        StepResult(Session(row', s.pending - 1, s.mounted), Some(ReportError(ReportedMessage(env, e))))
  }

  /** Accept is the only way to submit, and it is gated: every submitted
      disk has a name with no validation result at all and a non-empty
      size; with the gate closed, clicking accept does nothing. A
      warning-type result closes the gate even though it shows no help
      text. */
  lemma AcceptGate(env: RowEnv, classes: Watched<StorageClass>, s: Session, ev: RowEvent)
    ensures Step(env, classes, s, ev).effect.Some? && Step(env, classes, s, ev).effect.value.SubmitDisk? ==>
              var d := Step(env, classes, s, ev).effect.value.disk;
              && ev == AcceptClicked
              && env.validateName(d.name).None? && d.size != ""
              && d == Disk(s.row.name, s.row.size, env.bus, s.row.storageClass)
    ensures !AcceptEnabled(env, s.row) ==> Step(env, classes, s, AcceptClicked) == StepResult(s, None)
    ensures env.validateName(s.row.name).Some? && !env.validateName(s.row.name).value.isError ==>
              !AcceptEnabled(env, s.row) && NameHelpText(env.validateName(s.row.name)) == ""
  {
  }

  /** Accepting marks the row as creating, disables the name and size inputs
      and submits exactly the current name, size, bus and storage class. */
  lemma AcceptSubmitsCurrentDisk(env: RowEnv, classes: Watched<StorageClass>, s: Session)
    requires s.mounted && AcceptEnabled(env, s.row)
    ensures var r := Step(env, classes, s, AcceptClicked);
      && r.session.row.creating
      && InputsDisabled(r.session.row)
      && r.session.pending == s.pending + 1
      && r.effect == Some(SubmitDisk(Disk(s.row.name, s.row.size, env.bus, s.row.storageClass)))
      && r.session.row.name == s.row.name && r.session.row.size == s.row.size
      && r.session.row.storageClass == s.row.storageClass
  {
  }

  /** While creating, no event edits the name, the size or the storage
      class, since their inputs are disabled. */
  lemma CreatingFreezesInputs(env: RowEnv, classes: Watched<StorageClass>, s: Session, ev: RowEvent)
    requires s.row.creating
    ensures Step(env, classes, s, ev).session.row.name == s.row.name
    ensures Step(env, classes, s, ev).session.row.size == s.row.size
    ensures Step(env, classes, s, ev).session.row.storageClass == s.row.storageClass
  {
  }

  /** A rejected patch reports the error's message, or the general one, and
      clears `creating`; the entered values are kept, so accepting again is
      possible and submits the same disk. */
  lemma FailureAllowsRetry(env: RowEnv, classes: Watched<StorageClass>, s: Session, e: Rejection)
    requires s.mounted && s.pending > 0 && AcceptEnabled(env, s.row)
    ensures var r := Step(env, classes, s, PatchRejected(e));
      && r.effect == Some(ReportError(ReportedMessage(env, e)))
      && !r.session.row.creating
      && r.session.mounted
      && AcceptEnabled(env, r.session.row)
      && Step(env, classes, r.session, AcceptClicked).effect
         == Some(SubmitDisk(Disk(s.row.name, s.row.size, env.bus, s.row.storageClass)))
  {
  }

  /** A resolved patch dismisses the row. */
  lemma SuccessDismisses(env: RowEnv, classes: Watched<StorageClass>, s: Session)
    requires s.pending > 0
    ensures Step(env, classes, s, PatchResolved).effect == Some(Dismiss)
    ensures !Step(env, classes, s, PatchResolved).session.mounted
  {
  }

  /** The accept button is not gated on `creating`: a second click before the
      first request settles submits the same disk again. */
  lemma AcceptNotGatedOnCreating(env: RowEnv, classes: Watched<StorageClass>, s: Session)
    requires s.mounted && AcceptEnabled(env, s.row)
    ensures var r1 := Step(env, classes, s, AcceptClicked);
      var r2 := Step(env, classes, r1.session, AcceptClicked);
      && r1.effect == Some(SubmitDisk(Disk(s.row.name, s.row.size, env.bus, s.row.storageClass)))
      && r2.effect == r1.effect
      && r2.session.pending == s.pending + 2
  {
  }

  /** Choosing a storage class with a non-empty name makes the dropdown show
      it, and a chosen class is always one of the loaded names. */
  lemma PickedClassIsShown(env: RowEnv, classes: Watched<StorageClass>, s: Session, v: string)
    requires Delivered(env, classes, s, StorageClassPicked(v))
    ensures var row := Step(env, classes, s, StorageClassPicked(v)).session.row;
      && row.storageClass == Some(v)
      && classes.Loaded?
      && (exists i :: 0 <= i < |classes.data| && classes.data[i].name == v)
      && (v != "" ==> StorageClassColumn(row.storageClass, classes, row.creating).value == v)
  {
    var names := StorageClassColumn(s.row.storageClass, classes, s.row.creating).choices;
    var i :| 0 <= i < |names| && names[i] == v;
    assert classes.data[i].name == v;
  }

  function Run(env: RowEnv, classes: Watched<StorageClass>, s: Session, evs: seq<RowEvent>): Session
    decreases |evs|
  {
    if |evs| == 0 then s else Run(env, classes, Step(env, classes, s, evs[0]).session, evs[1..])
  }

  /** A mounted row that shows `creating` has a request in flight. */
  predicate CreatingHasPending(s: Session) {
    s.mounted && s.row.creating ==> s.pending > 0
  }

  lemma {:induction false} CreatingAlwaysHasPending(env: RowEnv, classes: Watched<StorageClass>, s: Session, evs: seq<RowEvent>)
    requires CreatingHasPending(s)
    ensures CreatingHasPending(Run(env, classes, s, evs))
    decreases |evs|
  {
    if |evs| > 0 {
      CreatingAlwaysHasPending(env, classes, Step(env, classes, s, evs[0]).session, evs[1..]);
    }
  }

  /** From mount, with nothing pending, a row shows `creating` only while a
      request is in flight. (Whether that request ever settles is up to the
      server; the row has no time-out.) */
  lemma CreatingOnlyWhilePending(env: RowEnv, classes: Watched<StorageClass>, evs: seq<RowEvent>)
    ensures CreatingHasPending(Run(env, classes, Session(InitialRow, 0, true), evs))
  {
    CreatingAlwaysHasPending(env, classes, Session(InitialRow, 0, true), evs);
  }

  /** The converse fails: after two accepts and one rejection the inputs are
      unlocked again while the duplicate request is still in flight. */
  lemma InputsUnlockWhileDuplicatePending(env: RowEnv, classes: Watched<StorageClass>, s: Session, e: Rejection)
    requires s.mounted && s.pending == 0 && AcceptEnabled(env, s.row)
    ensures var s' := Run(env, classes, s, [AcceptClicked, AcceptClicked, PatchRejected(e)]);
      && s'.mounted && !s'.row.creating && !InputsDisabled(s'.row) && s'.pending == 1
  {
    var s1 := Step(env, classes, s, AcceptClicked).session;
    var s2 := Step(env, classes, s1, AcceptClicked).session;
    var s3 := Step(env, classes, s2, PatchRejected(e)).session;
    var evs := [AcceptClicked, AcceptClicked, PatchRejected(e)];
    assert evs[1..] == [AcceptClicked, PatchRejected(e)];
    assert evs[1..][1..] == [PatchRejected(e)];
    assert evs[1..][1..][1..] == [];
    assert Run(env, classes, s, evs) == Run(env, classes, s1, evs[1..]);
    assert Run(env, classes, s1, evs[1..]) == Run(env, classes, s2, evs[1..][1..]);
    assert Run(env, classes, s2, evs[1..][1..]) == Run(env, classes, s3, []);
  }

  /** The calls a run of events makes to the outside, in order. */
  function Effects(env: RowEnv, classes: Watched<StorageClass>, s: Session, evs: seq<RowEvent>): seq<Effect>
    decreases |evs|
  {
    if |evs| == 0 then []
    else
      var r := Step(env, classes, s, evs[0]);
      (if r.effect.Some? then [r.effect.value] else []) + Effects(env, classes, r.session, evs[1..])
  }

  /** Over any run, every disk submitted has a name with no validation result
      and a non-empty size. */
  lemma {:induction false} OnlyValidDisksSubmitted(env: RowEnv, classes: Watched<StorageClass>, s: Session, evs: seq<RowEvent>)
    ensures forall k :: 0 <= k < |Effects(env, classes, s, evs)| && Effects(env, classes, s, evs)[k].SubmitDisk? ==>
              env.validateName(Effects(env, classes, s, evs)[k].disk.name).None? &&
              Effects(env, classes, s, evs)[k].disk.size != ""
    decreases |evs|
  {
    if |evs| > 0 {
      var r := Step(env, classes, s, evs[0]);
      AcceptGate(env, classes, s, evs[0]);
      OnlyValidDisksSubmitted(env, classes, r.session, evs[1..]);
    }
  }
}

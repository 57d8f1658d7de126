# Console UI logic: dashboard flag gating, application selector, create-disk row

This project is a Dafny model of three small pieces of decision logic in the
cluster console's front end:

- **Dashboard extension flags** (`DashboardFlags`, with `_.uniq` in
  `Lodash`). `getFlagsForExtensions` folds over dashboard extensions and
  collects the feature flags they require into a duplicate-free list.
  `isDashboardExtensionInUse` decides whether every flag an extension requires
  is on. `required` is one flag name or an array of them (`Required`). The flag
  store is a `map<string, bool>`, and a missing flag reads as off. Flag names
  are assumed not to collide with inherited object properties (see "## Left out").
- **Application selector** (`ApplicationSelector`). This is the import-form
  field that picks an existing application or the "Create Application" action
  (`CreateApplicationKey`). Its state is the record `AppForm`: `selectedKey`,
  `name`, the touched flag and `isZeroApplication`. The dropdown's
  `onDropdownChange` and `handleOnLoad` callbacks are pure transitions on that
  record. Which controls are rendered is a predicate on it. `Step`/`Run` feed
  it events, and only a rendered control can emit an event.
- **Create-disk row** (`CreateDiskRow`). This is the inline row that adds a
  disk to a virtual machine. It covers:
  - the storage-class column's loading indicator, choices, displayed value and
    disabled state;
  - the accept gate (`isValid`);
  - the `creating` flag around the patch request.

  A `Session` adds two things the rest of the page sees: how many patch
  requests are pending and whether the row is still mounted. Events are user
  edits, accept/cancel clicks and the settling of a patch. Effects are the
  submitted disk, the reported error and the dismissal.

JavaScript truthiness is written out where the source relies on it. An
absent or empty string is falsy (`JsValues.Truthy`). This matters for the
Formik error, the selected storage class and `error.message`. Any
validation object is truthy.

## Model

| member | source | states |
|---|---|---|
| `Lodash.Uniq` | frontend/public/components/dashboards-page/utils.ts:9 | `_.uniq` returns a duplicate-free list holding exactly the elements of its input, and never a longer one |
| `Lodash.UniqOfDistinct` | frontend/public/components/dashboards-page/utils.ts:9 | `_.uniq` leaves a list that has no duplicates unchanged |
| `Lodash.UniqAppend` | frontend/public/components/dashboards-page/utils.ts:8-10 | de-duplicating the accumulator at every fold step gives the same result as de-duplicating the whole concatenation once |
| `Lodash.UniqFirstOccurrenceOrder` | frontend/public/components/dashboards-page/utils.ts:9 | `_.uniq` lists elements in the order of their first occurrence in its input |
| `DashboardFlags.FlagsForExtensions` | frontend/public/components/dashboards-page/utils.ts:7-11 | the collected flags contain no duplicates. A flag is collected iff some input extension requires it, so every required flag appears and no flag is invented |
| `DashboardFlags.CastArray` | frontend/public/components/dashboards-page/utils.ts:9-14 | `_.castArray` of `required`: a single flag becomes the one-element list holding it, and an array is used as given |
| `DashboardFlags.AllRequired` | frontend/public/components/dashboards-page/utils.ts:8-10 | the reference list for the fold: all required flags of all extensions, concatenated in extension order. A flag is in it iff some extension requires it |
| `DashboardFlags.NoFlagsIffNothingRequired` | frontend/public/components/dashboards-page/utils.ts:7-11 | no flags are collected iff no extension requires a flag. An empty extension list yields the empty list |
| `DashboardFlags.FlagsAreUniqOfAllRequired` | frontend/public/components/dashboards-page/utils.ts:8-10 | the fold equals one `_.uniq` over all required flags concatenated in extension order |
| `DashboardFlags.FlagsInFirstRequiredOrder` | frontend/public/components/dashboards-page/utils.ts:8-9 | collected flags appear in the order in which the extensions first require them |
| `DashboardFlags.EveryMeansAllOn` | frontend/public/components/dashboards-page/utils.ts:15 | `_.every` over a flag list is true iff every listed flag is on in the store |
| `DashboardFlags.Every` | frontend/public/components/dashboards-page/utils.ts:15 | `_.every` over a flag list: checks the flags left to right and is true when each maps to true. A flag missing from the store counts as false. Flag names are assumed not to be inherited object properties |
| `DashboardFlags.IsDashboardExtensionInUse` | frontend/public/components/dashboards-page/utils.ts:13-16 | `isDashboardExtensionInUse`: casts `required` to a list and applies `Every` to it with the flag store |
| `DashboardFlags.InUseIffAllRequiredOn` | frontend/public/components/dashboards-page/utils.ts:13-16 | an extension is in use iff every flag it requires maps to true. An empty required array gives true |
| `DashboardFlags.InUseMonotone` | frontend/public/components/dashboards-page/utils.ts:15 | an extension in use under one flag store stays in use under any store that turns on at least the same flags |
| `DashboardFlags.AllInUseIffCollectedFlagsOn` | frontend/public/components/dashboards-page/utils.ts:7-16 | all extensions are in use iff every flag `getFlagsForExtensions` collects is on |
| `DashboardFlags.FlagsDependOnCastArrayOnly` | frontend/public/components/dashboards-page/utils.ts:9 | two extension lists whose `required` values cast to the same arrays yield the same flags |
| `DashboardFlags.SingleFlagActsAsArray` | frontend/public/components/dashboards-page/utils.ts:9-14 | a `required` given as one string behaves exactly like the one-element array in both functions |
| `ApplicationSelector.StatusMeaning` | frontend/packages/dev-console/src/components/import/app/ApplicationSelector.tsx:20-21 | the field is invalid iff it is touched and has a non-empty error. The shown message is empty iff the field is valid, and otherwise it is the error |
| `ApplicationSelector.Status` | frontend/packages/dev-console/src/components/import/app/ApplicationSelector.tsx:20-21 | computes `isValid` (not both touched and a truthy error) and `errorMessage` (the error when invalid, else empty) |
| `ApplicationSelector.Initial` | frontend/packages/dev-console/src/components/import/app/ApplicationSelector.tsx:16-17 | the state on mount: the form's initial selected key, name and touched flag, with `isZeroApplication` false |
| `ApplicationSelector.OnDropdownChange` | frontend/packages/dev-console/src/components/import/app/ApplicationSelector.tsx:23-33 | marks the selected-key field touched. For the create key it sets the name to empty, otherwise to the application label, and then it sets the selected key to the chosen key |
| `ApplicationSelector.HandleOnLoad` | frontend/packages/dev-console/src/components/import/app/ApplicationSelector.tsx:35-42 | sets `isZeroApplication` to whether the loaded item map has no keys. When it has none, it also sets the selected key to the create key and the name to empty |
| `ApplicationSelector.DropdownShown` | frontend/packages/dev-console/src/components/import/app/ApplicationSelector.tsx:46 | the application dropdown is rendered iff `isZeroApplication` is false |
| `ApplicationSelector.NameInputShown` | frontend/packages/dev-console/src/components/import/app/ApplicationSelector.tsx:69 | the application-name input is rendered iff the selected key is the create key |
| `ApplicationSelector.Delivered` | frontend/packages/dev-console/src/components/import/app/ApplicationSelector.tsx:46-77 | dropdown changes and loads arrive only while the dropdown is rendered. Typing arrives only while the name input is rendered |
| `ApplicationSelector.Step` | frontend/packages/dev-console/src/components/import/app/ApplicationSelector.tsx:23-42 | applies one delivered event: a dropdown change, a load, or a typed name. An event that no rendered control could emit leaves the state unchanged |
| `ApplicationSelector.ChooseCreateApplication` | frontend/packages/dev-console/src/components/import/app/ApplicationSelector.tsx:23-27 | choosing the create key selects it, clears the name, marks the field touched and shows the name input |
| `ApplicationSelector.ChooseExistingApplication` | frontend/packages/dev-console/src/components/import/app/ApplicationSelector.tsx:23-31 | choosing another key selects it, sets the name to the application label, marks the field touched and hides the name input |
| `ApplicationSelector.DropdownChangeDecidesNameInput` | frontend/packages/dev-console/src/components/import/app/ApplicationSelector.tsx:24-31 | after any dropdown change, the name input is shown iff the create key was chosen, and the field is touched whichever key was chosen |
| `ApplicationSelector.EmptyLoadForcesCreate` | frontend/packages/dev-console/src/components/import/app/ApplicationSelector.tsx:35-41 | loading an empty item set sets `isZeroApplication`, forces the create key, clears the name, hides the dropdown and shows the name input |
| `ApplicationSelector.NonEmptyLoadKeepsSelection` | frontend/packages/dev-console/src/components/import/app/ApplicationSelector.tsx:35-42 | loading a non-empty item set clears `isZeroApplication` and leaves the selected key, name and touched flag unchanged |
| `ApplicationSelector.StepKeepsSomeControlShown` | frontend/packages/dev-console/src/components/import/app/ApplicationSelector.tsx:46-69 | no event takes the selector from showing a control to showing neither the dropdown nor the name input |
| `ApplicationSelector.AlwaysSomeControlShown` | frontend/packages/dev-console/src/components/import/app/ApplicationSelector.tsx:35-69 | over any event sequence the dropdown or the name input stays on screen |
| `ApplicationSelector.MountedSelectorAlwaysShowsAControl` | frontend/packages/dev-console/src/components/import/app/ApplicationSelector.tsx:16-69 | on mount the dropdown is shown, and from mount on the dropdown or the name input is always shown |
| `ApplicationSelector.ZeroApplicationIsFinal` | frontend/packages/dev-console/src/components/import/app/ApplicationSelector.tsx:37-46 | once the dropdown has been removed by an empty load, no event brings it back or moves the selection off the create key |
| `CreateDiskRow.StorageClassColumnShows` | frontend/packages/kubevirt-plugin/src/components/vm-disks/create-disk-row.tsx:48-65 | the column shows only a loading indicator until the list is loaded. The choices are the loaded names in order. It is disabled iff the list is empty or a creation is in flight. It shows the selection, or the no-class or select placeholder |
| `CreateDiskRow.StorageClassColumn` | frontend/packages/kubevirt-plugin/src/components/vm-disks/create-disk-row.tsx:42-66 | the storage-class column: a loading indicator until the list is loaded. Then a dropdown of the loaded names, showing the truthy selection or a placeholder, disabled when the list is empty or a creation is in flight |
| `CreateDiskRow.PickedClassIsShown` | frontend/packages/kubevirt-plugin/src/components/vm-disks/create-disk-row.tsx:50-61 | a picked storage class is one of the loaded names, becomes the selection and, when non-empty, is the value shown |
| `CreateDiskRow.AcceptGate` | frontend/packages/kubevirt-plugin/src/components/vm-disks/create-disk-row.tsx:83-142 | a step submits a disk only on an accept click, and the disk has a name with no validation result, a non-empty size and the row's current values. With the gate closed, accept changes nothing and submits nothing. A warning-type result closes the gate yet shows no help text |
| `CreateDiskRow.OnlyValidDisksSubmitted` | frontend/packages/kubevirt-plugin/src/components/vm-disks/create-disk-row.tsx:83-142 | over any event sequence, every disk the row submits has a name with no validation result and a non-empty size |
| `CreateDiskRow.AcceptEnabled` | frontend/packages/kubevirt-plugin/src/components/vm-disks/create-disk-row.tsx:83-84 | `isValid`, which drives the accept button: the name validator returns nothing (any result object is truthy) and the size is non-empty |
| `CreateDiskRow.InputsDisabled` | frontend/packages/kubevirt-plugin/src/components/vm-disks/create-disk-row.tsx:96-118 | the name and size inputs are disabled iff `creating` is set |
| `CreateDiskRow.NameHelpText` | frontend/packages/kubevirt-plugin/src/components/vm-disks/create-disk-row.tsx:90-107 | the help text under the name: the validation message when the result is of error type, else empty |
| `CreateDiskRow.ReportedMessageMeaning` | frontend/packages/kubevirt-plugin/src/components/vm-disks/create-disk-row.tsx:138 | the reported message is the error's message when that is present and non-empty, and the general message otherwise |
| `CreateDiskRow.ReportedMessage` | frontend/packages/kubevirt-plugin/src/components/vm-disks/create-disk-row.tsx:138 | the message for a rejected patch: the error's message when there is an error object with a truthy message, else the general error message |
| `CreateDiskRow.Delivered` | frontend/packages/kubevirt-plugin/src/components/vm-disks/create-disk-row.tsx:96-142 | an event is delivered only from an enabled control of a mounted row: edits when not creating, a pick from the enabled dropdown's choices, accept when valid, cancel at any time. Patch outcomes are delivered only while a request is pending |
| `CreateDiskRow.Step` | frontend/packages/kubevirt-plugin/src/components/vm-disks/create-disk-row.tsx:130-141 | applies one delivered event. Accept sets `creating` and submits the disk. Cancel and success dismiss the row. Failure reports the message and clears `creating`, but only while mounted |
| `CreateDiskRow.AcceptSubmitsCurrentDisk` | frontend/packages/kubevirt-plugin/src/components/vm-disks/create-disk-row.tsx:133-136 | accepting sets `creating`, disables the inputs and submits a disk carrying exactly the current name, size, bus and storage class |
| `CreateDiskRow.CreatingFreezesInputs` | frontend/packages/kubevirt-plugin/src/components/vm-disks/create-disk-row.tsx:96-128 | while `creating`, the name, size and storage-class inputs are disabled, so no event changes the name, the size or the storage class |
| `CreateDiskRow.FailureAllowsRetry` | frontend/packages/kubevirt-plugin/src/components/vm-disks/create-disk-row.tsx:137-140 | a rejected patch reports the message and clears `creating`. Accept stays enabled and submits the same disk again |
| `CreateDiskRow.SuccessDismisses` | frontend/packages/kubevirt-plugin/src/components/vm-disks/create-disk-row.tsx:135-136 | a resolved patch calls the dismiss callback and the row goes away |
| `CreateDiskRow.AcceptNotGatedOnCreating` | frontend/packages/kubevirt-plugin/src/components/vm-disks/create-disk-row.tsx:131-142 | the accept button does not look at `creating`, so a second click while creating submits the same disk a second time |
| `CreateDiskRow.CreatingAlwaysHasPending` | frontend/packages/kubevirt-plugin/src/components/vm-disks/create-disk-row.tsx:133-140 | over any event sequence, a mounted row that shows `creating` has a request in flight |
| `CreateDiskRow.CreatingOnlyWhilePending` | frontend/packages/kubevirt-plugin/src/components/vm-disks/create-disk-row.tsx:76-140 | from mount with nothing pending, a mounted row shows `creating` only while a request is in flight. This is a safety fact: with no time-out, a request that never settles keeps `creating` set |
| `CreateDiskRow.InputsUnlockWhileDuplicatePending` | frontend/packages/kubevirt-plugin/src/components/vm-disks/create-disk-row.tsx:133-142 | two accepts followed by one rejection leave the row mounted, not creating and with unlocked inputs, while the duplicate request is still pending |

The `creating` flag reads as if it prevented duplicate submissions. The
model follows the code rather than that reading. In create-disk-row.tsx:142
the accept button is disabled only by `!isValid`, and `creating` disables
only the name, size and storage-class inputs.
`CreateDiskRow.AcceptNotGatedOnCreating` states the behaviour as written.
Whether `CancelAcceptButtons` guards against repeat clicks is outside this
model.

## Left out

- The dashboard details cards (overview and storage plugin): they subscribe to watches owned elsewhere, and their per-item loading/error flags are one-line rendering.
- `MultiColumnFieldFooter` and `DeployImagePage`: they only render and route.
- The browser end-to-end test for admission-webhook warnings: it drives a browser and intercepts network traffic.
- `k8sPatch`, `getAddDiskPatches` and `getVMLikeModel`: the patch is modelled as one `SubmitDisk` effect that later settles as `PatchResolved` or `PatchRejected`.
- `getVmPreferableDiskBus`: the bus is the opaque input `RowEnv.bus`.
- `validateDiskName` and the disk lookup it uses: they are the uninterpreted function `RowEnv.validateName`.
- `ValidationErrorType`: the source file that defines it is not part of this model. Only "is of type Error" is kept, as `ValidationError.isError`.
- `GENERAL_ERROR_MSG`: its text is defined in a file that is not part of this model, so it is the parameter `RowEnv.generalErrorMsg`.
- Formik internals: the field's validation error is an input to `ApplicationSelector.Status`. `validateForm` and any validation Formik triggers on its own are not modelled. Touching the field on blur is not modelled either.
- `ApplicationDropdown`'s own behaviour (fetching applications, `autoSelect`): its callbacks arrive as `DropdownChanged` and `ItemsLoaded` events. Typing in the name input arrives as `NameTyped`.
- Updates to the storage-class watch during a session: `CreateDiskRow.Run` uses one fixed `Watched` list.
- React rendering, styling, `forceRerender`, and the `CreateDiskRowFirehose` resource wiring: these are presentation only.
- `CreateDiskRow.CreatingOnlyWhilePending`: assumes that building the patch never throws synchronously. At create-disk-row.tsx:134-135 `creating` is set before `createDisk` builds the patch (line 33). If `getVMLikeModel` or `getAddDiskPatches` threw there, `creating` would stay set with no request in flight. Those functions are not part of this model.
- `CreateDiskRow.Step`: an exception thrown by the parent's dismiss callback after a successful patch is not modelled. The source's `.catch` (lines 136-139) would report it as a creation error and clear `creating`. The model treats success as a plain dismissal, because the callback's code is not part of this model.
- `CreateDiskRow.FailureAllowsRetry`: the name validator and the bus (lines 83 and 86) are recomputed from props on every render. The model keeps `RowEnv` fixed over a run. If the parent's disk list or virtual machine changed meanwhile, a retry could submit a different bus or be blocked.
- `CreateDiskRow.Step`: cancel and success set `mounted` to false. This assumes the parent's dismiss callback removes the row. The parent is not part of this model.
- `CreateDiskRow.CreatingOnlyWhilePending`: assumes the parent's error callback returns normally. At create-disk-row.tsx:138 `onCreateRowError` runs before `setCreating(false)` at line 139. If the callback threw, `creating` would stay set on a mounted row with no request pending. The callback's code is not part of this model.
- `CreateDiskRow.FailureAllowsRetry`: assumes the parent keeps the row mounted after it reports an error. The `PatchRejected` branch of `CreateDiskRow.Step` never changes `mounted`. If the parent's `onCreateRowError` removed the row, there would be no retry in this row.
- `DashboardFlags.Every`: assumes no flag name collides with a property that a plain JavaScript object inherits, such as `constructor`, `toString`, `hasOwnProperty` or `__proto__`. At utils.ts:15, `flags[f]` for such a name is truthy even when the store holds no such flag. The `map<string, bool>` model reads it as off. So `isDashboardExtensionInUse` with `required: 'constructor'` and an empty store is true in the source and false in the model.
- Async scheduling: each callback or promise settlement is one atomic event. `useSafetyFirst` is modelled as dropping state updates after the row is unmounted.

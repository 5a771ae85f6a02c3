# cam-control: control synchronisation model

This project models the control logic of cam-control, a small camera panel
written in Rust. The panel lets an operator pick a v4l capture device. It
lists the device's controls: a heading for each class header, a slider,
checkbox or set of radio buttons for integer, boolean and menu controls, and a
bare label for any other type. In each frame that reaches the controls, it
writes the values that changed (or, when forced, every control except class
headers) to a separate handle, `Device::new(1)`, which is not in general the
device the operator picked. The model covers the parts of
`src/main.rs` that do not draw anything:

- **Building the cache.** `CachedDevice::mk` queries a device's control
  descriptors. It pairs them with a vector of cached values, each set to the
  descriptor's default by a push loop (`CachedDevices.CachedDevice.Mk`).
- **The diff-and-apply pass.** This is the loop that zips the descriptors with
  the cached values (`CachedDevices.CachedDevice.Apply`, one control per
  `ApplyAt`). For each control it:
  - skips class headers;
  - remembers the value before the widget (`old`);
  - lets the widget edit the value in place (slider, an inverted checkbox, or
    menu radio buttons);
  - writes the value as an integer to the write handle when it changed or the
    operator pressed "force apply".

  A write the device rejects is only logged, and the pass goes on.
- **Selection.** The `selected`, `selected_name` and `cached_device` fields
  of the application and the per-frame rule that rebuilds the cache
  (`Selection.EguiApp.Update`). The cache is rebuilt when the picked path
  differs from the one selected before the frame, or when "force refresh cam"
  is clicked. If the device does not open, the frame ends. If it opens, the
  cache is replaced by what `mk` yields, which is nothing when the control
  query fails.

Modules:

| module | file | contents |
|---|---|---|
| `Controls` | `controls.dfy` | descriptors, the operator's edit of one widget, what each widget does to the value (`BoolEdit`, `EditedValue`), the write rule `WriteDue` |
| `Sync` | `sync.dfy` | the pass as values: new values `NewVals`, attempted writes `Attempts`, accepted writes `Accepted`, and the properties of the pass |
| `Devices` | `devices.dfy` | the v4l handle as a class holding its query answer and a log of the writes sent to it |
| `CachedDevices` | `cached_device.dfy` | the class `CachedDevice` with `Mk`, `ApplyAt` and `Apply`, each proved against `Sync` |
| `Selection` | `selection.dfy` | one frame as a function (`Select`, `Frame`), its properties, and the class `EguiApp` whose `Update` is proved against `Frame` |
| `Scenarios` | `scenarios.dfy` | concrete passes over one- and five-control catalogues |

The imperative members are each tied to a value-level function by their
`ensures`:

- `Mk` to `Built`.
- `Apply` to `NewVals`, `Attempts` and `Accepted`.
- `Update` to `Frame`.

The lemmas in `Sync` and `Selection` then state what the source promises about
those functions.

## Model

| member | source | states |
|---|---|---|
| Controls.BoolEdit | src/main.rs:120-124 | The checkbox shows checked exactly when the value is 0. The stored value is 0 when checked and 1 otherwise, so the result is always 0 or 1. Untouched, 0 stays 0 and any non-zero value becomes 1. Clicked, 0 and 1 swap, and any non-zero value becomes 0. |
| Controls.EditedValue | src/main.rs:116-133 | Slider: the new value is the dragged value, else it is unchanged. Boolean: the result is 0 or 1, and is 0 exactly when "was 0" differs from "was clicked". Menu: clicking the radio button at position p stores the index listed at p, and any other interaction leaves the value unchanged, so a changed value is one of the listed indices. Class headers and unsupported types keep their value. With no interaction, only a Boolean can change. |
| Controls.WriteDue | src/main.rs:106-135 | The write rule: a control is written exactly when it is not a class header and its post-edit value differs from `old` or force is set. |
| Sync.Attempts | src/main.rs:101-148 | Definition: the `set_control` calls the pass makes over the first n controls, in control order. Each call carries the control's id and post-edit value and is made exactly when `WriteDue` holds. |
| Sync.Accepted | src/main.rs:138-145 | Definition: those calls, in order, that the device does not refuse. |
| Sync.NewVals | src/main.rs:102-133 | The pass leaves exactly one value per descriptor, so the two vectors stay paired. |
| Sync.Shown | src/main.rs:102-133 | Showing the widgets of a prefix of the controls keeps one value per descriptor. |
| Sync.ShownSplit | src/main.rs:102-133 | After the first n widgets, those n values are the widgets' results and every later value is still the one the pass started with. |
| Sync.DueIndices | src/main.rs:134-137 | Every position written while visiting the first n controls is below n. |
| Sync.AttemptsPrefix | src/main.rs:102-148 | The writes made over a shorter prefix of the controls come first, in order, among the writes over a longer prefix. |
| Sync.DueWriteAttempted | src/main.rs:134-137 | A control that meets the write rule is written, with its id and its post-edit value. |
| Sync.DueIndicesExact | src/main.rs:106-137 | Control i is written iff it is not a class header and its value changed or force is set. Written controls are visited in increasing order. |
| Sync.AttemptsFollowDueIndices | src/main.rs:134-137 | The k-th write carries the id and the post-edit value of the k-th written control. There are as many writes as written controls. |
| Sync.ClassHeadersNeverWritten | src/main.rs:106-110 | A class header is never written, whatever its value and whatever force is. |
| Sync.ForcedPassWritesEveryNonClass | src/main.rs:106-137 | A forced pass writes exactly the controls that are not class headers, unsupported types included. |
| Sync.UnforcedPassWritesChanges | src/main.rs:114-137 | An unforced pass writes exactly the non-header controls whose post-edit value differs from `old`. |
| Sync.PassNormalizes | src/main.rs:116-133 | After the pass every Boolean holds 0 or 1. Class headers and unsupported controls keep their values. |
| Sync.UnchangedUnforcedWritesNothing | src/main.rs:134-137 | With every value unchanged and force off, nothing is written. |
| Sync.QuietPassIsNoOp | src/main.rs:102-148 | An unforced pass with no edits over normalised values changes no value and writes nothing. |
| Sync.SecondQuietPassIsNoOp | src/main.rs:102-148 | Right after any pass, an unforced pass with no edits writes nothing and changes no value. |
| Sync.AcceptedAppend | src/main.rs:138-145 | The writes a device takes from two batches in a row are those it takes from each batch. |
| Sync.AcceptedExact | src/main.rs:138-145 | The device takes exactly the attempted writes it does not refuse, so a refused write removes only itself from the accepted writes. That later writes are still sent is `CachedDevice.Apply`'s log of attempts, which holds every due write whatever the device refused. |
| Devices.Device.SetControl | src/main.rs:136-145 | Sends a write to a control whose record can be read. The write is always logged as attempted. It is logged as applied exactly when the device does not refuse it, and the result reports which. |
| CachedDevices.Built | src/main.rs:49-56 | A failed control query yields no cache. A successful one yields the descriptors in the reported order, paired with one value each, which is the descriptor's default. |
| CachedDevices.CachedDevice.constructor | src/main.rs:55 | A cached device holds the given descriptors and values, paired. |
| CachedDevices.CachedDevice.Mk | src/main.rs:49-56 | The push loop yields exactly the cache `Built` describes: none iff the query fails, otherwise a fresh, paired cache of the defaults. |
| CachedDevices.CachedDevice.ApplyAt | src/main.rs:103-147 | One loop iteration. Only control i's value changes, and it becomes the widget's result (unchanged for a class header). The handle receives the write the write rule calls for, or none, and takes it unless it refuses it. |
| CachedDevices.CachedDevice.Apply | src/main.rs:101-148 | After the loop the values are `NewVals` of the old values. The handle's log gains exactly `Attempts` (old values to new, in control order). Its applied log gains exactly the unrefused ones among them. |
| Selection.Chosen | src/main.rs:64-76 | Definition: the path selected after the device list is shown is the one clicked this frame, or the one selected before when nothing was clicked. |
| Selection.Select | src/main.rs:80-97 | The selection step keeps the cache paired. |
| Selection.Frame | src/main.rs:80-148 | A frame keeps the cache paired and leaves the path picked this frame, or the earlier one, selected. It holds a cache only if it had one or the device opened this frame. |
| Selection.NothingSelectedNothingDone | src/main.rs:80-82 | With no path selected before or during the frame, the frame changes nothing and writes nothing. |
| Selection.NoRebuildWithoutChangeOrRefresh | src/main.rs:84-101 | Without a path change or a refresh click, the label and the cache are kept, and the pass runs on the existing cache. |
| Selection.OpenFailureKeepsState | src/main.rs:84-88 | When a rebuild is due and the device does not open, cache and label are unchanged and nothing is written. Only the selection moves to the picked path. |
| Selection.RebuildReplacesCache | src/main.rs:84-101 | When the device opens, the label becomes the device's display string and the cache becomes what the control query yields (none if it fails). The pass runs on the fresh defaults. |
| Selection.RebuildDiscardsEarlierCache | src/main.rs:84-97 | After a rebuild nothing of the earlier cache or its unapplied edits survives. Two states differing only in cache and label end the frame alike. |
| Selection.FrameKeepsSettled | src/main.rs:80-148 | If every cached Boolean holds 0 or 1 before a frame, this still holds after it. |
| Selection.IdleFrameIsNoOp | src/main.rs:80-148 | On a settled state, a frame with no pick, no click and no edit changes nothing and writes nothing. |
| Selection.StaleCacheAfterFailedOpen | src/main.rs:76-101 | If a newly picked device fails to open, the selection still moves to it. The next frame without a refresh then runs the pass on the cache of the previously selected device. |
| Selection.EguiApp.constructor | src/main.rs:30-40 | The application starts with no selection, an empty label and no cache. |
| Selection.EguiApp.Update | src/main.rs:60-150 | One call leaves the application in the state `Frame` gives and keeps the cache paired. The write handle's logs gain exactly the writes `Frame` attempts and the unrefused ones among them. |
| Scenarios.IntegerScenario | src/main.rs:49-137 | Integer id 1, range 0..10, default 5. The cache starts at 5. Sliding to 7 writes (1, 7). A second unforced pass with no edit writes nothing, and a forced one writes (1, 7) again. |
| Scenarios.UnlistedMenuValueScenario | src/main.rs:125-137 | A menu listing 0, 1 and 2 keeps a cached 5. An unforced pass does not write it; a forced pass writes it as it is. |
| Scenarios.MenuPickScenario | src/main.rs:125-137 | A menu holding 0 whose second radio button is clicked stores the index 1, and an unforced pass writes (2, 1). |
| Scenarios.UnsupportedForcedScenario | src/main.rs:130-137 | A control of an unsupported type keeps its value 4 whatever the edit. An unforced pass does not write it; a forced pass writes (4, 4). |
| Scenarios.BooleanScenario | src/main.rs:120-137 | A checked Boolean (value 0) is written as 0 when forced. Clicking it stores and writes 1. |
| Scenarios.RefusedWriteScenario | src/main.rs:138-145 | If the device refuses the third of five writes, only that one is dropped from the accepted writes. |
| Scenarios.RefusedWriteTrace | src/main.rs:138-144 | Five integer controls at 0 with no interaction keep their values, and a forced pass over them sends one write per control, in order. |
| Scenarios.RefusedWriteRun | src/main.rs:101-148 | Runs `CachedDevice.Apply`, forced, over five integer controls on a handle that refuses the write to the third. All five writes are sent, in order, and the device takes every one but the third. |

In several places a reader might expect behaviour that the code does not
have. The model follows the code:

- One might expect controls of unsupported type never to be written. The
  code sends them through the same write block as the others: they are never
  changed, but they are written whenever force is set
  (`ForcedPassWritesEveryNonClass`, `PassNormalizes`,
  `UnsupportedForcedScenario`).
- One might expect a menu value outside the listed indices to be rejected
  before it is written. The code performs no such check, and the value is
  written as it is (`UnlistedMenuValueScenario`).
- One might expect a per-control outcome (applied, skipped, failed). The code
  only prints a line, so the model keeps only the device's logs of attempted
  and accepted writes.
- One might expect a failed control query to leave the previous cache in
  place. The code stores `mk(&d).ok()`, so a failed query leaves no cache at
  all (`RebuildReplacesCache`).
- One might expect a device that does not open to leave the selection where
  it was. The code has already stored the picked path in `selected`, so only
  the cache and the label stay (`OpenFailureKeepsState`,
  `StaleCacheAfterFailedOpen`).
- One might expect the values to go to the selected device. The code writes
  every value to a separate handle, `Device::new(1)`, opened anew each frame.
  The model takes that handle as its own parameter, distinct from the handle
  the selected path opens.

## Left out

- Rendering. The egui panel, combo box, labels, headings, separators and
  buttons are not modelled. The operator's actions in one frame are inputs:
  - the path clicked in the device list;
  - the two button clicks;
  - at most one edit per control, given as a map from position to edit.
- Widget edits that do not fit the widget. An edit whose kind does not match
  the widget for the control's type (a slide on a checkbox, say) is read as
  no interaction.
- Menu clicks are given by the position of the clicked radio button in the
  item list. A position past the list is no click.
- Slider clamping. egui's clamping of a dragged value to the control's
  minimum..maximum is library behaviour, so a slide carries any 64-bit value.
- `main`, the eframe start-up, and the creation context of `new`.
- Device enumeration, the `Node` name lookup and the display string. The
  string `"<name> @ <path>"` is an input (`display`) to `Update`.
- The ioctls. The answer of `query_controls` is fixed when a `Device` is made
  (`controls`). Whether `control(id)` finds a record is the set `readable`.
  Whether `set_control` succeeds is the set of writes the device `refused`.
  None of them change the device's answers.
- `Devices.Device.SetControl`: a write is `(id, value)`. The rest of the
  control record read back by `control(id)` is not modelled.
- The panics, which are preconditions rather than behaviour:
  - `expect` on `Device::new(1)`: `Update` is handed an opened write handle.
  - `unwrap` on a menu's items: `Sync.PassSafe` requires every menu to list
    its items.
  - `unwrap` on `control(x.id)`: `Sync.PassSafe` requires every control the
    pass writes to be readable.

  The precondition is stated over the writes the pass actually makes.
- Logging through `println!`.
- Integer widths. Values are 64-bit and ids and menu indices 32-bit (the
  types `I64` and `U32`). Nothing in the core does arithmetic on them, so no
  wrap-around arises.
- Control types other than integer, boolean, menu and class header. The
  model only distinguishes them as `Other(code)`, because the code treats
  them all alike.

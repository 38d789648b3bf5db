# Gamepad poller and dynamic payload envelope, in Dafny

A verified model of two native JavaScript shims of an Elm application.

**The controller poller** (`src/Native/Gamepad.js`). The W3C Gamepad
specification defines no change events for controllers (its "Other events"
section). So the shim polls. Each poll reads the platform's raw controller
list and normalises it (`ensureArray`). It then walks the list slot by slot
against a retained registry of snapshots. For each slot it does one of four
things:

- appends a fresh snapshot;
- removes the entry;
- replaces the entry wholesale when the controller `id` differs;
- for the same `id`, rebuilds only the `axes` or `buttons` field that no
  longer compares equal.

All values are rounded to hundredths (`round`) so that sub-hundredth jitter
does not count as a change. The poll task then delivers the registry, in
order, as an Elm list.

**The payload envelope** (`src/Native/Dynamic.js`). `pack` retags a value as
`"Payload"` in place. It wraps the value in `{ctor: "Dynamic", origCtor,
payload}`. `unpack` writes the remembered tag back and returns the same
object.

Files:

- `elm_list.dfy` (module `ElmList`): Elm's cons list, `fromArray`, and the
  list-versus-array comparator `listArrayCmp`.
- `quantise.dfy` (module `Quantise`): `round` and `floatEq`. Numbers are
  exact reals. `Round(x) = Floor(x*100 + 1/2)/100`, which is `Math.round`
  with halves going towards +infinity.
- `gamepad_decode.dfy` (module `GamepadDecode`): the raw and Elm records,
  plus `button`, `axes`, `buttons`, `gamepad` and `buttonEq`.
- `gamepad_poll.dfy` (module `GamepadPoll`): `ensureArray`, the diff loop
  `updateGamepads`, the poll task `gamepads`, and properties of whole polls.
  The diff is stated twice: as a functional reference (`Step`, `Run`, `Poll`)
  and as methods whose loop (`DiffLoop`) and loop body (`DiffSlot`) mirror
  the JavaScript loop and are proved equal to the reference;
  `UpdateGamepads` adds the facts every poll satisfies.
- `gamepad_scenarios.dfy` (module `GamepadScenarios`): concrete polls.
- `dynamic.dfy` (module `Dynamic`): `pack` and `unpack`. There are pure
  functions on values, and class-based methods that do the in-place rewrite
  and are proved to agree with the pure functions.

The comments in the source describe a poll that diffs against the last
state and reports whether anything changed (`Gamepad.js:4-7`, `:117-121`),
and a button test that takes the raw button first (`Gamepad.js:173`). Where
the code does something else, the model follows the code:

- A poll can fail. Suppose both the registry entry and the raw slot are
  absent at some index. The code then takes the snapshot of `undefined` and
  throws a TypeError (`Gamepad.js:130-132`). This happens when the registry
  is two or more entries longer than a hole-free raw list
  (`PollDenseOutcome`). It also happens when a true `Array` has a hole past
  the registry's end (`HoleOnEmptyRegistryThrows`). The model returns
  `TypeError(at, registry)`. The registry it carries has the mutations made
  before the throw, because the JavaScript registry is a global that is
  mutated in place.
- The loop bound is fixed on entry, but `splice` shifts later entries down
  behind the index. So registry positions stop mirroring raw positions after
  a removal (`HoleShiftsLaterSlots`, `TwoDisconnectsThrow`).
- Button equality is called as `buttonEq(stored, raw)`. It re-decodes the
  stored button and reads `raw.pressed`. A bare-number raw button has no
  `pressed` property, so it never compares equal. Every poll of such a
  controller rebuilds its buttons and reports a change
  (`LegacyButtonsAlwaysChange`).

## Model

| member | source | states |
|---|---|---|
| `ElmList.FromArray` | src/Native/Gamepad.js:204-207 | the Elm list built from an array holds the array's elements in order |
| `ElmList.FromArrayToSeq` | src/Native/Gamepad.js:204-207 | converting a list to its elements and back gives the same list, so the conversion loses nothing |
| `ElmList.ListArrayCmp` | src/Native/Gamepad.js:180-196 | true iff the list and the array have the same length and the element test holds at every position; any length mismatch gives false |
| `ElmList.CmpFrom` | src/Native/Gamepad.js:181-195 | the comparator loop entered at array position `pos` answers exactly whether the rest of the list matches the array from `pos` on |
| `Quantise.Round` | src/Native/Gamepad.js:164-166 | the result is a whole number of hundredths within (x - 0.005, x + 0.005] |
| `Quantise.RoundUnique` | src/Native/Gamepad.js:164-166 | exactly one hundredth lies in that half-open cell, so the bounds determine `round` |
| `Quantise.RoundIdempotent` | src/Native/Gamepad.js:162-166 | rounding twice is rounding once |
| `Quantise.FloatEq` | src/Native/Gamepad.js:168-171 | a stored value equals a raw reading iff the stored value is a whole hundredth and the reading lies in its rounding cell [stored - 0.005, stored + 0.005) |
| `Quantise.FloatEqRound` | src/Native/Gamepad.js:169-171 | a rounded reading always compares equal to the reading itself |
| `Quantise.JitterSuppressed` | src/Native/Gamepad.js:162-171 | 0.501 and 0.4999 compare equal to a stored 0.5; 0.505 does not |
| `GamepadDecode.DecodeButton` | src/Native/Gamepad.js:80-93 | an object button keeps `pressed` and rounds `value`; a bare number gives `pressed` iff it equals 1.0 and rounds it; the value is always a whole hundredth |
| `GamepadDecode.ButtonEq` | src/Native/Gamepad.js:173-177 | true iff the raw button is object-shaped, the `pressed` flags agree and both values round to the same hundredth; false for every bare-number raw button |
| `GamepadDecode.Axes` | src/Native/Gamepad.js:95-99 | freshly rounded axes compare equal, under `floatEq`, to the raw axes they were built from |
| `GamepadDecode.Buttons` | src/Native/Gamepad.js:101-105 | one decoded button per raw button, in order |
| `GamepadDecode.MakeGamepad` | src/Native/Gamepad.js:107-116 | a fresh snapshot keeps `id` and `mapping` and holds only whole hundredths; its axes are the raw axes rounded and its buttons the raw buttons decoded, in either raw shape; its axes compare equal to the raw axes; its buttons compare equal to the raw buttons iff all of those are object-shaped |
| `GamepadDecode.ButtonsCompareEqual` | src/Native/Gamepad.js:174-177 | decoded buttons compare equal to their source iff every raw button is object-shaped |
| `GamepadDecode.DecodedButtonEq` | src/Native/Gamepad.js:174-177 | one decoded button compares equal to its source iff the source is object-shaped |
| `GamepadDecode.ButtonEqIsDecoding` | src/Native/Gamepad.js:174-177 | a stored button with a rounded value compares equal to an object-shaped raw button iff it is exactly that button's decoding |
| `GamepadDecode.AxesCmpIsRounding` | src/Native/Gamepad.js:142-145 | rounded stored axes compare equal to raw axes iff they are exactly the raw axes rounded |
| `GamepadDecode.ButtonsCmpIsDecoding` | src/Native/Gamepad.js:146-149 | stored buttons with rounded values compare equal to object-shaped raw buttons iff they are exactly their decoding |
| `GamepadPoll.EnsureArray` | src/Native/Gamepad.js:46-58 | a true Array comes back unchanged; otherwise the result is hole-free, no longer than the input, holds exactly the truthy entries, and equals the in-order filter |
| `GamepadPoll.Truthy` | src/Native/Gamepad.js:50-56 | reference definition of the in-order filter of truthy slots; no contract of its own, its behaviour is stated by the three `Truthy…` lemmas below and `GamepadPoll.EnsureArray` proves the loop computes it |
| `GamepadPoll.Normalise` | src/Native/Gamepad.js:46-58 | reference definition of `ensureArray`'s result for either platform shape; no contract of its own, `GamepadPoll.EnsureArray` states and proves its behaviour |
| `GamepadPoll.TruthyProperties` | src/Native/Gamepad.js:50-56 | the filtered list is hole-free and no longer than its input, and its members are exactly the truthy slots |
| `GamepadPoll.TruthyAppend` | src/Native/Gamepad.js:51-55 | the filter distributes over concatenation, so the truthy slots keep their relative order |
| `GamepadPoll.TruthyOfDense` | src/Native/Gamepad.js:50-56 | a list without holes passes through the filter unchanged |
| `GamepadPoll.Merge` | src/Native/Gamepad.js:139-150 | same-id merge: `id` and `mapping` are kept; afterwards the axes compare equal to the raw axes, and so do the buttons when they are object-shaped; a field that already compared equal is kept as it was, and a field that did not is rebuilt from the raw record (axes rounded, buttons decoded, bare numbers included); with rounded stored values and object-shaped raw buttons both fields end up exactly the raw axes rounded and the raw buttons decoded; a change is reported iff a field did not compare equal |
| `GamepadPoll.Step` | src/Native/Gamepad.js:128-150 | reference definition of one loop iteration; it carries no contract of its own, and its cases are stated by `GamepadPoll.StepCases` and proved to be what the loop body does by `GamepadPoll.DiffSlot` |
| `GamepadPoll.Run` | src/Native/Gamepad.js:127-151 | reference definition of the loop from an index on, with the bound fixed; no contract of its own, its behaviour is stated by the `Run…` lemmas below and `GamepadPoll.DiffLoop` proves the loop computes it |
| `GamepadPoll.Poll` | src/Native/Gamepad.js:122-151 | reference definition of one whole diff; no contract of its own, its behaviour is stated by `GamepadPoll.UpdateGamepads` and the `Poll…` lemmas below |
| `GamepadPoll.StepCases` | src/Native/Gamepad.js:128-150 | one slot of the diff: it throws iff both sides are absent, leaving the registry as it was; an absent entry gets the raw snapshot appended; an absent raw slot removes the entry and shifts the rest down; a different id replaces the entry wholesale; the same id merges; no other entry changes |
| `GamepadPoll.UpdateGamepads` | src/Native/Gamepad.js:122-151 | the loop computes the reference poll; it keeps the registry rounded; with a hole-free list it throws iff the registry is two or more longer, and otherwise ends with one entry per controller; a poll that reports no change has left the registry as it was |
| `GamepadPoll.DiffSlot` | src/Native/Gamepad.js:128-150 | the loop body, with its in-place append, splice, replacement and field rebuilds, does exactly what the reference step does at that index |
| `GamepadPoll.DiffLoop` | src/Native/Gamepad.js:122-151 | the loop, with its bound fixed on entry while the registry changes length under it, computes exactly the reference poll, throwing where it throws |
| `GamepadPoll.Gamepads` | src/Native/Gamepad.js:198-211 | the delivered Elm list is the registry in order; it is delivered iff the diff completes; the registry is updated even when the diff throws; for an array-like platform list it is delivered iff the registry is at most one longer than the filtered list |
| `GamepadPoll.StepKeepsPrefix` | src/Native/Gamepad.js:128-150 | a step never touches the entries below both the index and the registry length |
| `GamepadPoll.RunKeepsPrefix` | src/Native/Gamepad.js:127-151 | entries below both the index and the registry length are never touched again for the rest of the loop, whatever its outcome |
| `GamepadPoll.DenseTail` | src/Native/Gamepad.js:127-135 | past the end of a hole-free raw list every step removes an entry until one throws; exact condition for throwing and resulting length |
| `GamepadPoll.DenseHead` | src/Native/Gamepad.js:127-138 | within a hole-free raw list no step throws and the registry only grows to the index; exact condition for throwing later and resulting length |
| `GamepadPoll.PollDenseOutcome` | src/Native/Gamepad.js:127-138 | with a hole-free raw list a poll throws iff the registry is two or more entries longer, and otherwise ends with exactly one entry per controller |
| `GamepadPoll.RunFromEmpty` | src/Native/Gamepad.js:127-132 | from a registry holding the snapshots of the first `i` slots, the rest of the loop appends the remaining snapshots in order |
| `GamepadPoll.PollFromEmpty` | src/Native/Gamepad.js:127-132 | from an empty registry a hole-free raw list is copied in as fresh snapshots, in order, with a change reported iff the list is non-empty |
| `GamepadPoll.RunSettledUnchanged` | src/Native/Gamepad.js:136-150 | when every remaining step keeps the registry and reports no change, so does the rest of the loop |
| `GamepadPoll.StepSettledUnchanged` | src/Native/Gamepad.js:136-150 | over a registry that matches the raw list slot for slot, a step at any slot keeps the registry and reports no change |
| `GamepadPoll.SettledIdle` | src/Native/Gamepad.js:136-150 | over a registry that matches the raw list slot for slot, every step from any slot on is idle |
| `GamepadPoll.PollSettledUnchanged` | src/Native/Gamepad.js:125-150 | polling a registry that already matches the raw list leaves it unchanged and reports no change |
| `GamepadPoll.RunSettles` | src/Native/Gamepad.js:127-150 | every slot the loop passes within a hole-free list with object buttons ends up matching its raw record |
| `GamepadPoll.PollSettles` | src/Native/Gamepad.js:122-151 | after a completed poll of a hole-free list with object buttons, the registry matches that list slot for slot |
| `GamepadPoll.RepeatPollStable` | src/Native/Gamepad.js:122-151 | polling again with the same hole-free list with object buttons reports no change and leaves every entry as it was |
| `GamepadPoll.RunNormalised` | src/Native/Gamepad.js:122-151 | each step keeps every registry value a whole hundredth |
| `GamepadPoll.PollNormalised` | src/Native/Gamepad.js:122-151 | whatever the outcome, a registry of rounded values stays a registry of rounded values |
| `GamepadPoll.RunNoChange` | src/Native/Gamepad.js:125-150 | a run that ends without a change flag started without one and kept the registry |
| `GamepadPoll.PollNoChange` | src/Native/Gamepad.js:125-150 | a poll that reports no change has left the registry exactly as it was |
| `GamepadScenarios.LegacyButtonDecoding` | src/Native/Gamepad.js:85-86 | bare-number button 1.0 decodes as pressed with value 1.0; 0.3 as not pressed with value 0.3 |
| `GamepadScenarios.AppendScenario` | src/Native/Gamepad.js:130-132 | a first poll of `pad1` with axis 0.123 and bare button 0.0 yields one snapshot with axis 0.12 and an unpressed 0.0 button |
| `GamepadScenarios.RemovalScenario` | src/Native/Gamepad.js:133-135 | a registered controller missing from an empty raw list is removed |
| `GamepadScenarios.ReplacementScenario` | src/Native/Gamepad.js:136-138 | `pad2` in the slot of `pad1` replaces it wholesale, with none of `pad1`'s data kept |
| `GamepadScenarios.JitterScenario` | src/Native/Gamepad.js:142-145 | a stored axis 0.5 read again as 0.501 is left as it is and no change is reported |
| `GamepadScenarios.LegacyButtonsAlwaysChange` | src/Native/Gamepad.js:146-149 | a controller with bare-number buttons reports a change on every poll, even with identical readings |
| `GamepadScenarios.HoleOnEmptyRegistryThrows` | src/Native/Gamepad.js:130-132 | a true Array with one empty slot and an empty registry makes the poll throw at slot 0 |
| `GamepadScenarios.TwoDisconnectsThrow` | src/Native/Gamepad.js:127-135 | two registered controllers and an empty raw list: the first is removed, then the poll throws at slot 1 and leaves the second in the registry |
| `GamepadScenarios.HoleShiftsLaterSlots` | src/Native/Gamepad.js:127-135 | a hole at raw slot 0 removes the first entry; the second slides behind the index and survives, and the raw record of slot 1 is appended after it |
| `Dynamic.Pack` | src/Native/Dynamic.js:4-8 | the envelope is tagged `"Dynamic"` and remembers the old tag; the payload is retagged `"Payload"` with all other fields kept |
| `Dynamic.Unpack` | src/Native/Dynamic.js:10-14 | the payload comes back with the remembered tag and every other field as carried |
| `Dynamic.UnpackPack` | src/Native/Dynamic.js:4-14 | unpacking a packed value gives back the value, tag included |
| `Dynamic.PackUnpack` | src/Native/Dynamic.js:4-14 | for any envelope of the form `pack` produces, packing the unpacked value gives back the envelope |
| `Dynamic.PackedIsImageOfPack` | src/Native/Dynamic.js:4-8 | an envelope has that form iff `pack` can produce it |
| `Dynamic.PackInPlace` | src/Native/Dynamic.js:4-8 | in place: the object is retagged `"Payload"` with its other fields unchanged; the new envelope carries that very object and observes as the pure `pack` of the old value |
| `Dynamic.UnpackInPlace` | src/Native/Dynamic.js:10-14 | in place: the payload object itself is returned with the remembered tag and its other fields unchanged, observing as the pure `unpack` |
| `Dynamic.PackThenUnpack` | src/Native/Dynamic.js:4-14 | packing then unpacking in place returns the same object with its tag and fields as before |

## Left out

- Host feature detection and logging (`window`, `navigator.getGamepads` or
  `webkitGetGamepads`, `console.log`, `Gamepad.js:9-10`, `:43`). These are
  host I/O. The raw list is a parameter. On a host without the platform
  API the code would fail when it calls an undefined `getGamepads`; that
  is not modelled.
- The Elm scheduler binding and callback delivery (`Gamepad.js:198-211`).
  Only the fact that the registry is delivered, in order, on a completed
  diff is kept. A throwing diff delivers nothing (`Raised`).
- The commented-out event handlers, scan code and change notification
  (`Gamepad.js:14-41`, `:60-78`, `:153-159`). This is dead code. The
  `hasChanges` flag is still computed and returned, because it decides
  nothing else but states which polls rewrote the registry.
- IEEE-754 behaviour of `num * 100` and `Math.round`, including negative
  zero. Numbers are exact reals.
- The Elm records' `_: {}` fields, object identity and garbage-collection
  concerns. "A field that compared equal is not reassigned" is stated as
  "the field's value is unchanged".
- The `typeof null == "object"` corner, booleans used as bare-number
  buttons, and raw records with missing or malformed fields. A raw button is
  either an object with `pressed` and `value` or a number. A raw controller
  always has `id`, `axes`, `buttons` and `mapping`.
- Values without a `ctor` field given to `pack`. The tag is always present
  in the model, as `pack` and `unpack` assume.
- GamepadPoll.RepeatPollStable: stated for hole-free raw lists whose buttons
  are all object-shaped. With bare-number buttons the second poll always
  reports a change (`LegacyButtonsAlwaysChange`). With holes, positions shift.

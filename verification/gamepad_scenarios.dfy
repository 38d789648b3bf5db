/**
 Concrete polls: a single controller appearing, leaving, being replaced
 and jittering, and the behaviours the loop's fixed bound and in-place
 splicing produce.
 */
module GamepadScenarios {
  import opened Quantise
  import opened ElmList
  import opened GamepadDecode
  import opened GamepadPoll

  /** Bare-number buttons decode with `pressed` meaning "exactly 1.0". */
  lemma LegacyButtonDecoding()
    ensures DecodeButton(LegacyValue(1.0)) == Button(true, 1.0)
    ensures DecodeButton(LegacyValue(0.3)) == Button(false, 0.3)
  {
    RoundUnique(1.0, 1.0);
    RoundUnique(0.3, 0.3);
  }

  /** A first poll appends the rounded snapshot of a newly seen controller. */
  lemma AppendScenario()
    ensures Poll([Some(RawGamepad("pad1", [0.123], [LegacyValue(0.0)], "standard"))], [])
         == Ok([Gamepad("pad1", Cons(0.12, Nil), Cons(Button(false, 0.0), Nil), "standard")], true)
  {
    var raw := RawGamepad("pad1", [0.123], [LegacyValue(0.0)], "standard");
    PollFromEmpty([Some(raw)]);
    RoundUnique(0.123, 0.12);
    RoundUnique(0.0, 0.0);
    assert MakeGamepad(raw) == Gamepad("pad1", Cons(0.12, Nil), Cons(Button(false, 0.0), Nil), "standard");
  }

  /** A controller that has gone away is removed. */
  lemma RemovalScenario(g: Gamepad)
    ensures Poll([], [g]) == Ok([], true)
  {
    assert [g][..0] + [g][1..] == [];
    assert Step([], [g], 0) == Ok([], true);
    assert Run([], 1, 1, [], true) == Ok([], true);
  }

  /** A different controller in the slot replaces the old snapshot wholesale. */
  lemma ReplacementScenario(buttons: List<Button>)
    ensures var old1 := Gamepad("pad1", Cons(0.5, Nil), buttons, "standard");
      var raw := RawGamepad("pad2", [0.9], [], "standard");
      Poll([Some(raw)], [old1]) == Ok([Gamepad("pad2", Cons(0.9, Nil), Nil, "standard")], true)
  {
    RoundUnique(0.9, 0.9);
    assert Axes([0.9]) == Cons(0.9, Nil);
  }

  /** Reading 0.501 where 0.5 is stored changes nothing and reports no change. */
  lemma JitterScenario()
    ensures var stored := Gamepad("pad1", Cons(0.5, Nil), Nil, "standard");
      Poll([Some(RawGamepad("pad1", [0.501], [], "standard"))], [stored]) == Ok([stored], false)
  {
    var stored := Gamepad("pad1", Cons(0.5, Nil), Nil, "standard");
    var list := [Some(RawGamepad("pad1", [0.501], [], "standard"))];
    assert FloatEq(0.5, 0.501);
    assert ToSeq(stored.axes) == [0.5];
    assert Settled([stored], list);
    PollSettledUnchanged(list, [stored]);
  }

  /**
   A controller reporting bare-number buttons is never settled: every poll
   rebuilds its buttons and reports a change, even with identical readings.
   */
  lemma LegacyButtonsAlwaysChange()
    ensures var list := [Some(RawGamepad("pad1", [], [LegacyValue(0.0)], "standard"))];
      var reg := Poll(list, []).registry;
      Poll(list, reg) == Ok(reg, true)
  {
    var raw := RawGamepad("pad1", [], [LegacyValue(0.0)], "standard");
    var list := [Some(raw)];
    PollFromEmpty(list);
    assert !ListArrayCmp(MakeGamepad(raw).buttons, raw.buttons, ButtonEq);
  }

  /**
   A true `Array` with an empty slot where nothing is registered yet: the
   snapshot of `undefined` is taken and the poll throws at that slot.
   */
  lemma HoleOnEmptyRegistryThrows()
    ensures Poll([None], []) == TypeError(0, [])
  {
  }

  /**
   Two registered controllers and an empty raw list: the first is spliced
   out, the second slides into slot 0 behind the index, and slot 1 is then
   absent on both sides, so the poll throws and leaves the second behind.
   */
  lemma TwoDisconnectsThrow(a: Gamepad, b: Gamepad)
    ensures Poll([], [a, b]) == TypeError(1, [b])
  {
    assert [a, b][..0] + [a, b][1..] == [b];
    assert Step([], [a, b], 0) == Ok([b], true);
    assert Step([], [b], 1) == TypeError(1, [b]);
    assert Run([], 2, 1, [b], true) == TypeError(1, [b]);
  }

  /**
   A hole at raw slot 0 splices out the first entry; the entry that was in
   slot 1 slides down behind the index and is never compared again in this
   poll, and the record at raw slot 1 is appended after it. The registry
   ends with two entries for a raw list holding one controller.
   */
  lemma HoleShiftsLaterSlots(a: Gamepad, b: Gamepad, y: RawGamepad)
    ensures Poll([None, Some(y)], [a, b]) == Ok([b, MakeGamepad(y)], true)
  {
    var list := [None, Some(y)];
    assert [a, b][..0] + [a, b][1..] == [b];
    assert Step(list, [a, b], 0) == Ok([b], true);
    assert Step(list, [b], 1) == Ok([b, MakeGamepad(y)], true);
    assert Run(list, 2, 2, [b, MakeGamepad(y)], true) == Ok([b, MakeGamepad(y)], true);
    assert Run(list, 2, 1, [b], true) == Ok([b, MakeGamepad(y)], true);
  }
}

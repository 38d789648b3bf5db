/**
 The controller poller. The platform defines no change events for
 controllers, so each poll reads the raw controller list and diffs it,
 slot by slot, against a retained registry of snapshots, rewriting only the
 registry cells (or snapshot fields) that no longer match.

 The registry is the module-global `controllers` array of the JavaScript
 side; here it is passed in and handed back. It never has holes: it only
 grows by `push`, shrinks by `splice` and is overwritten in range.
 */
module GamepadPoll {
  import opened Quantise
  import opened ElmList
  import opened GamepadDecode

  /** A slot of the raw controller list: a controller record, or a falsy placeholder or hole. */
  datatype Option<T> = None | Some(value: T)

  /**
   What the platform returns: a true `Array` (possibly with holes), or an
   array-like object whose empty slots hold falsy placeholders.
   */
  datatype RawList = TrueArray(slots: seq<Option<RawGamepad>>) | ArrayLike(slots: seq<Option<RawGamepad>>)

  /**
   The outcome of a poll: it completes with the new registry and whether
   any cell was rewritten, or it throws a TypeError (reading a property of
   `undefined`) at slot `at`, leaving the registry as mutated so far.
   */
  datatype Outcome = Ok(registry: seq<Gamepad>, hasChanges: bool) | TypeError(at: nat, registry: seq<Gamepad>)

  /** What the poll task delivers to the Elm side. */
  datatype Delivery = Delivered(value: List<Gamepad>) | Raised

  /** No slot is a hole or placeholder. */
  predicate Dense(list: seq<Option<RawGamepad>>)
  {
    forall k :: 0 <= k < |list| ==> list[k].Some?
  }

  /** Every controller in the list reports its buttons in object shape. */
  predicate AllObjectButtons(list: seq<Option<RawGamepad>>)
  {
    forall k :: 0 <= k < |list| && list[k].Some? ==> ObjectButtons(list[k].value.buttons)
  }

  /** Every snapshot of the registry holds only whole hundredths. */
  predicate AllNormalised(reg: seq<Gamepad>)
  {
    forall g :: g in reg ==> Normalised(g)
  }

  // ---------------------------------------------------------------------
  // Normalising the platform's list

  /** The truthy slots of `slots`, in their original order. */
  function Truthy(slots: seq<Option<RawGamepad>>): seq<Option<RawGamepad>>
  {
    if |slots| == 0 then []
    else
      var last := slots[|slots| - 1];
      Truthy(slots[..|slots| - 1]) + (if last.Some? then [last] else [])
  }

  /** The list the diff walks, for either platform shape. */
  function Normalise(raw: RawList): seq<Option<RawGamepad>>
  {
    match raw
    case TrueArray(slots) => slots
    case ArrayLike(slots) => Truthy(slots)
  }

  lemma {:induction false} TruthyProperties(slots: seq<Option<RawGamepad>>)
    ensures Dense(Truthy(slots))
    ensures |Truthy(slots)| <= |slots|
    ensures forall x :: x in Truthy(slots) <==> x in slots && x.Some?
  {
    if |slots| > 0 {
      var init := slots[..|slots| - 1];
      TruthyProperties(init);
      assert slots == init + [slots[|slots| - 1]];
    }
  }

  /** Keeping the truthy slots distributes over concatenation, so it keeps their relative order. */
  lemma {:induction false} TruthyAppend(a: seq<Option<RawGamepad>>, b: seq<Option<RawGamepad>>)
    ensures Truthy(a + b) == Truthy(a) + Truthy(b)
    decreases |b|
  {
    if |b| > 0 {
      var b' := b[..|b| - 1];
      assert (a + b)[..|a + b| - 1] == a + b';
      TruthyAppend(a, b');
    } else {
      assert a + b == a;
    }
  }

  /** A list without holes comes through unchanged. */
  lemma {:induction false} TruthyOfDense(slots: seq<Option<RawGamepad>>)
    requires Dense(slots)
    ensures Truthy(slots) == slots
  {
    if |slots| > 0 {
      TruthyOfDense(slots[..|slots| - 1]);
      assert slots == slots[..|slots| - 1] + [slots[|slots| - 1]];
    }
  }

  /**
   A true `Array` is used as it is, holes included; any other array-like
   object is copied slot by slot, keeping only the truthy slots.
   */
  method EnsureArray(raw: RawList) returns (list: seq<Option<RawGamepad>>)
    ensures raw.TrueArray? ==> list == raw.slots
    ensures raw.ArrayLike? ==> Dense(list) && |list| <= |raw.slots|
    ensures raw.ArrayLike? ==> forall x :: x in list <==> x in raw.slots && x.Some?
    ensures list == Normalise(raw)
  {
    if raw.TrueArray? {
      return raw.slots;
    }
    var slots := raw.slots;
    var x := [];
    var i := 0;
    while i < |slots|
      invariant 0 <= i <= |slots|
      invariant x == Truthy(slots[..i])
    {
      assert slots[..i + 1][..i] == slots[..i];
      if slots[i].Some? {
        x := x + [slots[i]];
      }
      i := i + 1;
    }
    assert slots[..i] == slots;
    TruthyProperties(slots);
    list := x;
  }

  // ---------------------------------------------------------------------
  // One slot of the diff

  /** The raw list read at `i`; reading past the end gives `undefined`. */
  function Slot(list: seq<Option<RawGamepad>>, i: nat): Option<RawGamepad>
  {
    if i < |list| then list[i] else None
  }

  /** `a` and `b` have the same length and differ at most at index `i`. */
  predicate SameExceptAt(a: seq<Gamepad>, b: seq<Gamepad>, i: nat)
  {
    |a| == |b| && forall k :: 0 <= k < |a| && k != i ==> a[k] == b[k]
  }

  /**
   The same-`id` branch of the diff: each of `axes` and `buttons` is
   compared with the raw record and rebuilt from it only if it no longer
   compares equal. `id` and `mapping` are never touched. The flag says
   whether a field was rebuilt.
   */
  function Merge(left: Gamepad, right: RawGamepad): (m: (Gamepad, bool))
    ensures m.0.id == left.id && m.0.mapping == left.mapping
    ensures ListArrayCmp(m.0.axes, right.axes, FloatEq)
    ensures ObjectButtons(right.buttons) ==> ListArrayCmp(m.0.buttons, right.buttons, ButtonEq)
    ensures ListArrayCmp(left.axes, right.axes, FloatEq) ==> m.0.axes == left.axes
    ensures ListArrayCmp(left.buttons, right.buttons, ButtonEq) ==> m.0.buttons == left.buttons
    ensures !ListArrayCmp(left.axes, right.axes, FloatEq) ==> m.0.axes == Axes(right.axes)
    ensures !ListArrayCmp(left.buttons, right.buttons, ButtonEq) ==> m.0.buttons == Buttons(right.buttons)
    ensures Normalised(left) && ObjectButtons(right.buttons) ==> m.0.axes == Axes(right.axes) && m.0.buttons == Buttons(right.buttons)
    ensures Normalised(left) ==> Normalised(m.0)
    ensures m.1 <==> !(ListArrayCmp(left.axes, right.axes, FloatEq) && ListArrayCmp(left.buttons, right.buttons, ButtonEq))
    ensures !m.1 ==> m.0 == left
  {
    var axesEq := ListArrayCmp(left.axes, right.axes, FloatEq);
    var buttonsEq := ListArrayCmp(left.buttons, right.buttons, ButtonEq);
    var g := left.(axes := if axesEq then left.axes else Axes(right.axes),
                   buttons := if buttonsEq then left.buttons else Buttons(right.buttons));
    assert Normalised(MakeGamepad(right));
    assert Normalised(left) ==> (axesEq <==> left.axes == Axes(right.axes)) by {
      if Normalised(left) {
        AxesCmpIsRounding(left.axes, right.axes);
      }
    }
    assert Normalised(left) && ObjectButtons(right.buttons) ==> (buttonsEq <==> left.buttons == Buttons(right.buttons)) by {
      if Normalised(left) && ObjectButtons(right.buttons) {
        ButtonsCmpIsDecoding(left.buttons, right.buttons);
      }
    }
    ButtonsCompareEqual(right.buttons);
    (g, !axesEq || !buttonsEq)
  }

  /**
   One iteration of the diff loop at index `i`: the registry entry (absent
   past its end) is compared with the raw slot.
   */
  function Step(list: seq<Option<RawGamepad>>, reg: seq<Gamepad>, i: nat): Outcome
  {
    if i >= |reg| then
      match Slot(list, i)
      case None => TypeError(i, reg)
      case Some(right) => Ok(reg + [MakeGamepad(right)], true)
    else
      match Slot(list, i)
      case None => Ok(reg[..i] + reg[i + 1..], true)
      case Some(right) =>
        if reg[i].id != right.id then Ok(reg[i := MakeGamepad(right)], true)
        else
          var (g, changed) := Merge(reg[i], right);
          Ok(reg[i := g], changed)
  }

  /** What one iteration of the diff does, case by case; no other entry changes. */
  lemma StepCases(list: seq<Option<RawGamepad>>, reg: seq<Gamepad>, i: nat)
    ensures var o := Step(list, reg, i);
      o.TypeError? <==> i >= |reg| && Slot(list, i).None?
    ensures var o := Step(list, reg, i);
      o.TypeError? ==> o == TypeError(i, reg)
    // absent entry: the snapshot of the raw record is appended
    ensures var o := Step(list, reg, i);
      i >= |reg| && Slot(list, i).Some? ==>
      && o.hasChanges
      && |o.registry| == |reg| + 1
      && o.registry[..|reg|] == reg
      && o.registry[|reg|] == MakeGamepad(Slot(list, i).value)
    // absent raw slot: the entry is removed and the rest shift down
    ensures var o := Step(list, reg, i);
      i < |reg| && Slot(list, i).None? ==>
      && o.hasChanges
      && |o.registry| == |reg| - 1
      && (forall k :: 0 <= k < i ==> o.registry[k] == reg[k])
      && (forall k :: i <= k < |o.registry| ==> o.registry[k] == reg[k + 1])
    // another controller in the slot: the entry is replaced wholesale
    ensures var o := Step(list, reg, i);
      i < |reg| && Slot(list, i).Some? && reg[i].id != Slot(list, i).value.id ==>
      && o.hasChanges
      && SameExceptAt(o.registry, reg, i)
      && o.registry[i] == MakeGamepad(Slot(list, i).value)
    // same controller: only its axes and buttons may be rebuilt
    ensures var o := Step(list, reg, i);
      i < |reg| && Slot(list, i).Some? && reg[i].id == Slot(list, i).value.id ==>
      && SameExceptAt(o.registry, reg, i)
      && o.registry[i] == Merge(reg[i], Slot(list, i).value).0
      && o.hasChanges == Merge(reg[i], Slot(list, i).value).1
  {
  }

  // ---------------------------------------------------------------------
  // The whole diff

  /**
   The diff loop from index `i` on. The bound is fixed before the loop
   starts, while the registry keeps changing length under it.
   */
  function Run(list: seq<Option<RawGamepad>>, bound: nat, i: nat, reg: seq<Gamepad>, changed: bool): Outcome
    decreases bound - i
  {
    if i >= bound then Ok(reg, changed)
    else
      match Step(list, reg, i)
      case TypeError(at, r) => TypeError(at, r)
      case Ok(r, c) => Run(list, bound, i + 1, r, changed || c)
  }

  /** One turn of the loop, for the proofs that walk `Run` a step at a time. */
  lemma RunUnfold(list: seq<Option<RawGamepad>>, bound: nat, i: nat, reg: seq<Gamepad>, changed: bool)
    requires i < bound
    ensures var s := Step(list, reg, i);
      Run(list, bound, i, reg, changed) == if s.TypeError? then s
        else Run(list, bound, i + 1, s.registry, changed || s.hasChanges)
  {
  }

  /** A whole poll: the loop runs to the larger of the two lengths as they were on entry. */
  function Poll(list: seq<Option<RawGamepad>>, current: seq<Gamepad>): Outcome
  {
    Run(list, if |list| > |current| then |list| else |current|, 0, current, false)
  }

  /**
   `updateGamepads`: runs the diff loop over the registry and reports the
   outcome together with what every poll guarantees about it.
   */
  method UpdateGamepads(list: seq<Option<RawGamepad>>, current: seq<Gamepad>) returns (o: Outcome)
    ensures o == Poll(list, current)
    ensures AllNormalised(current) ==> AllNormalised(o.registry)
    ensures Dense(list) ==> (o.TypeError? <==> |current| >= |list| + 2)
    ensures Dense(list) && o.Ok? ==> |o.registry| == |list|
    ensures o.Ok? && !o.hasChanges ==> o.registry == current
  {
    o := DiffLoop(list, current);
    PollFacts(list, current, o);
  }

  /**
   The diff loop over the registry. The bound is captured once on entry;
   the registry grows and shrinks under it.
   */
  method DiffLoop(list: seq<Option<RawGamepad>>, current: seq<Gamepad>) returns (o: Outcome)
    ensures o == Poll(list, current)
  {
    var bound := if |list| > |current| then |list| else |current|;
    var reg := current;
    var hasChanges := false;
    var i := 0;
    while i < bound
      invariant Run(list, bound, i, reg, hasChanges) == Poll(list, current)
      decreases bound - i
    {
      var slot := DiffSlot(list, reg, i);
      RunUnfold(list, bound, i, reg, hasChanges);
      if slot.TypeError? {
        return slot;
      }
      hasChanges := hasChanges || slot.hasChanges;
      reg := slot.registry;
      i := i + 1;
    }
    o := Ok(reg, hasChanges);
  }

  /**
   The body of the diff loop at index `i`. `left` is absent past the end
   of the registry and `right` past the end of the raw list. The flag says
   whether this iteration set `hasChanges`.
   */
  method DiffSlot(list: seq<Option<RawGamepad>>, reg: seq<Gamepad>, i: nat) returns (o: Outcome)
    ensures o == Step(list, reg, i)
  {
    if i >= |reg| {
      if i >= |list| || list[i].None? {
        return TypeError(i, reg);
      }
      return Ok(reg + [MakeGamepad(list[i].value)], true);
    } else if i >= |list| || list[i].None? {
      return Ok(reg[..i] + reg[i + 1..], true);
    } else if reg[i].id != list[i].value.id {
      return Ok(reg[i := MakeGamepad(list[i].value)], true);
    }
    var left := reg[i];
    var right := list[i].value;
    var changed := false;
    if !ListArrayCmp(left.axes, right.axes, FloatEq) {
      changed := true;
      left := left.(axes := Axes(right.axes));
    }
    if !ListArrayCmp(left.buttons, right.buttons, ButtonEq) {
      changed := true;
      left := left.(buttons := Buttons(right.buttons));
    }
    assert (left, changed) == Merge(reg[i], right);
    o := Ok(reg[i := left], changed);
  }

  /** The facts about whole polls that `UpdateGamepads` promises. */
  lemma PollFacts(list: seq<Option<RawGamepad>>, current: seq<Gamepad>, o: Outcome)
    requires o == Poll(list, current)
    ensures AllNormalised(current) ==> AllNormalised(o.registry)
    ensures Dense(list) ==> (o.TypeError? <==> |current| >= |list| + 2)
    ensures Dense(list) && o.Ok? ==> |o.registry| == |list|
    ensures o.Ok? && !o.hasChanges ==> o.registry == current
  {
    PollNormalised(list, current);
    PollDenseOutcome(list, current);
    PollNoChange(list, current);
  }

  /**
   The poll task: normalise the platform's list, run the diff, and deliver
   the registry, in order, as an Elm list. A diff that throws delivers
   nothing, but the registry keeps what it did before throwing.
   */
  method Gamepads(raw: RawList, controllers: seq<Gamepad>) returns (d: Delivery, controllers': seq<Gamepad>)
    ensures d.Delivered? ==> ToSeq(d.value) == controllers'
    ensures d.Delivered? <==> Poll(Normalise(raw), controllers).Ok?
    ensures controllers' == Poll(Normalise(raw), controllers).registry
    ensures raw.ArrayLike? ==> (d.Delivered? <==> |controllers| <= |Normalise(raw)| + 1)
  {
    var list := EnsureArray(raw);
    var o := UpdateGamepads(list, controllers);
    controllers' := o.registry;
    if o.Ok? {
      d := Delivered(FromArray(o.registry));
    } else {
      d := Raised;
    }
  }

  // ---------------------------------------------------------------------
  // Properties of whole polls

  /** The smaller of two naturals. */
  function Min(a: nat, b: nat): nat
  {
    if a < b then a else b
  }

  /** `a` and `b` both have at least `p` entries, and the first `p` are the same. */
  predicate SharePrefix(a: seq<Gamepad>, b: seq<Gamepad>, p: nat)
  {
    p <= |a| && p <= |b| && forall k :: 0 <= k < p ==> a[k] == b[k]
  }

  /** One step leaves the entries below both the index and the registry length alone. */
  lemma StepKeepsPrefix(list: seq<Option<RawGamepad>>, reg: seq<Gamepad>, i: nat)
    ensures var s := Step(list, reg, i);
      && SharePrefix(s.registry, reg, Min(i, |reg|))
      && (s.Ok? ==> Min(i, |reg|) <= Min(i + 1, |s.registry|))
  {
    StepCases(list, reg, i);
  }

  /**
   Entries below both the loop index and the registry length are never
   touched again, whichever way the rest of the loop goes.
   */
  lemma {:induction false} RunKeepsPrefix(list: seq<Option<RawGamepad>>, bound: nat, i: nat, reg: seq<Gamepad>, changed: bool)
    ensures SharePrefix(Run(list, bound, i, reg, changed).registry, reg, Min(i, |reg|))
    decreases bound - i
  {
    if i < bound {
      var s := Step(list, reg, i);
      StepKeepsPrefix(list, reg, i);
      if s.Ok? {
        var c := changed || s.hasChanges;
        RunUnfold(list, bound, i, reg, changed);
        RunKeepsPrefix(list, bound, i + 1, s.registry, c);
        SharePrefixTrans(Run(list, bound, i + 1, s.registry, c).registry, s.registry, reg,
                         Min(i + 1, |s.registry|), Min(i, |reg|));
      }
    }
  }

  lemma SharePrefixTrans(a: seq<Gamepad>, b: seq<Gamepad>, c: seq<Gamepad>, q: nat, p: nat)
    requires SharePrefix(a, b, q) && SharePrefix(b, c, p) && p <= q
    ensures SharePrefix(a, c, p)
  {
  }

  /** Past the end of a dense raw list, every step removes an entry, until the registry runs short and a step throws. */
  lemma {:induction false} DenseTail(list: seq<Option<RawGamepad>>, bound: nat, i: nat, reg: seq<Gamepad>, changed: bool)
    requires |list| <= i <= bound
    ensures var o := Run(list, bound, i, reg, changed);
      && (o.TypeError? <==> i < bound && |reg| + i + 2 <= 2 * bound)
      && (o.Ok? ==> |o.registry| + bound == |reg| + i)
    decreases bound - i
  {
    if i < bound && i < |reg| {
      DenseTail(list, bound, i + 1, reg[..i] + reg[i + 1..], true);
    }
  }

  /** Within a dense raw list nothing throws and the registry length only catches up with the index. */
  lemma {:induction false} DenseHead(list: seq<Option<RawGamepad>>, bound: nat, i: nat, reg: seq<Gamepad>, changed: bool)
    requires Dense(list)
    requires i <= |list| <= bound
    requires i <= |reg|
    ensures var o := Run(list, bound, i, reg, changed);
      var r := if |reg| > |list| then |reg| else |list|;
      && (o.TypeError? <==> |list| < bound && r + |list| + 2 <= 2 * bound)
      && (o.Ok? ==> |o.registry| + bound == r + |list|)
    decreases |list| - i
  {
    if i == |list| {
      DenseTail(list, bound, i, reg, changed);
    } else {
      var s := Step(list, reg, i);
      StepInDense(list, reg, i);
      DenseHead(list, bound, i + 1, s.registry, changed || s.hasChanges);
    }
  }

  /** A step inside a dense raw list completes and leaves the registry at least as long as the index. */
  lemma StepInDense(list: seq<Option<RawGamepad>>, reg: seq<Gamepad>, i: nat)
    requires Dense(list)
    requires i < |list|
    requires i <= |reg|
    ensures var s := Step(list, reg, i);
      && s.Ok?
      && i + 1 <= |s.registry|
      && (if |s.registry| > |list| then |s.registry| else |list|) == (if |reg| > |list| then |reg| else |list|)
  {
    StepCases(list, reg, i);
  }

  /**
   With a dense raw list a poll throws exactly when the registry is two or
   more entries longer than the list; otherwise it ends with exactly one
   entry per controller.
   */
  lemma PollDenseOutcome(list: seq<Option<RawGamepad>>, current: seq<Gamepad>)
    ensures Dense(list) ==> (Poll(list, current).TypeError? <==> |current| >= |list| + 2)
    ensures Dense(list) && Poll(list, current).Ok? ==> |Poll(list, current).registry| == |list|
  {
    if Dense(list) {
      DenseHead(list, if |list| > |current| then |list| else |current|, 0, current, false);
    }
  }

  /** The snapshot of each slot of a dense raw list, in order. */
  function Fresh(list: seq<Option<RawGamepad>>): (reg: seq<Gamepad>)
    requires Dense(list)
    ensures |reg| == |list|
    ensures forall k :: 0 <= k < |list| ==> reg[k].id == list[k].value.id && reg[k].mapping == list[k].value.mapping
  {
    seq(|list|, k requires 0 <= k < |list| => MakeGamepad(list[k].value))
  }

  lemma {:induction false} RunFromEmpty(list: seq<Option<RawGamepad>>, i: nat, reg: seq<Gamepad>)
    requires Dense(list)
    requires i <= |list|
    requires |reg| == i
    requires forall k :: 0 <= k < i ==> reg[k] == MakeGamepad(list[k].value)
    ensures Run(list, |list|, i, reg, i > 0) == Ok(Fresh(list), |list| > 0)
    decreases |list| - i
  {
    if i < |list| {
      var reg' := reg + [MakeGamepad(list[i].value)];
      assert Step(list, reg, i) == Ok(reg', true);
      RunUnfold(list, |list|, i, reg, i > 0);
      RunFromEmpty(list, i + 1, reg');
    } else {
      assert reg == Fresh(list);
    }
  }

  /** From an empty registry, a dense raw list is copied in as fresh snapshots, in order. */
  lemma PollFromEmpty(list: seq<Option<RawGamepad>>)
    requires Dense(list)
    ensures Poll(list, []) == Ok(Fresh(list), |list| > 0)
  {
    RunFromEmpty(list, 0, []);
  }

  /** The registry entry `g` matches the raw record `raw` under the poller's comparisons. */
  predicate Agrees(g: Gamepad, raw: RawGamepad)
  {
    && g.id == raw.id
    && ListArrayCmp(g.axes, raw.axes, FloatEq)
    && ListArrayCmp(g.buttons, raw.buttons, ButtonEq)
  }

  /** The first `n` registry entries reflect the first `n` raw slots. */
  predicate SettledUpTo(reg: seq<Gamepad>, list: seq<Option<RawGamepad>>, n: nat)
  {
    n <= |reg| && n <= |list| && forall k :: 0 <= k < n ==> list[k].Some? && Agrees(reg[k], list[k].value)
  }

  /** The registry already reflects the raw list, slot for slot. */
  predicate Settled(reg: seq<Gamepad>, list: seq<Option<RawGamepad>>)
  {
    |reg| == |list| && SettledUpTo(reg, list, |list|)
  }

  /** Every step from slot `i` to the end of the raw list keeps the registry and reports no change. */
  predicate IdleFrom(list: seq<Option<RawGamepad>>, reg: seq<Gamepad>, i: nat)
    decreases |list| - i
  {
    i >= |list| || (Step(list, reg, i) == Ok(reg, false) && IdleFrom(list, reg, i + 1))
  }

  lemma {:induction false} RunSettledUnchanged(list: seq<Option<RawGamepad>>, i: nat, reg: seq<Gamepad>)
    requires i <= |list|
    requires IdleFrom(list, reg, i)
    ensures Run(list, |list|, i, reg, false) == Ok(reg, false)
    decreases |list| - i
  {
    if i < |list| {
      RunUnfold(list, |list|, i, reg, false);
      RunSettledUnchanged(list, i + 1, reg);
    }
  }

  /** A registry that already reflects the raw list is idle from every slot on. */
  lemma {:induction false} SettledIdle(list: seq<Option<RawGamepad>>, reg: seq<Gamepad>, i: nat)
    requires Settled(reg, list)
    ensures IdleFrom(list, reg, i)
    decreases |list| - i
  {
    if i < |list| {
      StepSettledUnchanged(list, reg, i);
      SettledIdle(list, reg, i + 1);
    }
  }

  /** A poll against a registry that already reflects the raw list changes nothing and reports no change. */
  lemma PollSettledUnchanged(list: seq<Option<RawGamepad>>, reg: seq<Gamepad>)
    requires Settled(reg, list)
    ensures Poll(list, reg) == Ok(reg, false)
  {
    SettledIdle(list, reg, 0);
    RunSettledUnchanged(list, 0, reg);
  }

  /** On a settled registry, one step keeps the entry and reports no change. */
  lemma StepSettledUnchanged(list: seq<Option<RawGamepad>>, reg: seq<Gamepad>, i: nat)
    requires Settled(reg, list)
    requires i < |list|
    ensures Step(list, reg, i) == Ok(reg, false)
  {
    StepCases(list, reg, i);
    var m := Merge(reg[i], list[i].value);
    assert m.0 == reg[i];
    assert reg[i := m.0] == reg;
  }

  /** A step inside a dense raw list with object buttons leaves one more slot settled. */
  lemma StepSettles(list: seq<Option<RawGamepad>>, reg: seq<Gamepad>, i: nat)
    requires Dense(list) && AllObjectButtons(list)
    requires i < |list|
    requires SettledUpTo(reg, list, i)
    ensures Step(list, reg, i).Ok?
    ensures SettledUpTo(Step(list, reg, i).registry, list, i + 1)
  {
    StepCases(list, reg, i);
    var s := Step(list, reg, i);
    assert ObjectButtons(list[i].value.buttons);
    assert Agrees(s.registry[i], list[i].value);
  }

  lemma {:induction false} RunSettles(list: seq<Option<RawGamepad>>, bound: nat, i: nat, reg: seq<Gamepad>, changed: bool)
    requires Dense(list) && AllObjectButtons(list)
    requires i <= |list| <= bound
    requires SettledUpTo(reg, list, i)
    ensures SettledUpTo(Run(list, bound, i, reg, changed).registry, list, |list|)
    decreases |list| - i
  {
    if i == |list| {
      RunKeepsPrefix(list, bound, i, reg, changed);
    } else {
      var s := Step(list, reg, i);
      StepSettles(list, reg, i);
      RunSettles(list, bound, i + 1, s.registry, changed || s.hasChanges);
    }
  }

  /**
   After any poll of a dense raw list whose buttons are object-shaped that
   completes, the registry reflects that list.
   */
  lemma PollSettles(list: seq<Option<RawGamepad>>, current: seq<Gamepad>)
    requires Dense(list) && AllObjectButtons(list)
    requires Poll(list, current).Ok?
    ensures Settled(Poll(list, current).registry, list)
  {
    RunSettles(list, if |list| > |current| then |list| else |current|, 0, current, false);
    PollDenseOutcome(list, current);
  }

  /**
   Polling twice with the same raw list (dense, object-shaped buttons): the
   second poll reports no change and leaves every entry as it was.
   */
  lemma RepeatPollStable(list: seq<Option<RawGamepad>>, current: seq<Gamepad>)
    requires Dense(list) && AllObjectButtons(list)
    requires Poll(list, current).Ok?
    ensures var reg := Poll(list, current).registry;
      Poll(list, reg) == Ok(reg, false)
  {
    PollSettles(list, current);
    PollSettledUnchanged(list, Poll(list, current).registry);
  }

  /** One step keeps every registry value a whole hundredth. */
  lemma StepNormalised(list: seq<Option<RawGamepad>>, reg: seq<Gamepad>, i: nat)
    requires AllNormalised(reg)
    ensures AllNormalised(Step(list, reg, i).registry)
  {
    StepCases(list, reg, i);
    var s := Step(list, reg, i);
    forall g | g in s.registry
      ensures Normalised(g)
    {
      var k :| 0 <= k < |s.registry| && s.registry[k] == g;
      if i < |reg| && Slot(list, i).None? {
        if k < i { assert g == reg[k]; } else { assert g == reg[k + 1]; }
      } else if k != i && k < |reg| {
        assert g == reg[k];
      } else if i < |reg| && reg[i].id == Slot(list, i).value.id {
        assert reg[i] in reg;
      }
    }
  }

  lemma {:induction false} RunNormalised(list: seq<Option<RawGamepad>>, bound: nat, i: nat, reg: seq<Gamepad>, changed: bool)
    requires AllNormalised(reg)
    ensures AllNormalised(Run(list, bound, i, reg, changed).registry)
    decreases bound - i
  {
    if i < bound {
      var s := Step(list, reg, i);
      StepNormalised(list, reg, i);
      if s.Ok? {
        var c := changed || s.hasChanges;
        RunUnfold(list, bound, i, reg, changed);
        RunNormalised(list, bound, i + 1, s.registry, c);
      }
    }
  }

  /** Whatever the outcome, a registry of rounded values stays a registry of rounded values. */
  lemma PollNormalised(list: seq<Option<RawGamepad>>, current: seq<Gamepad>)
    ensures AllNormalised(current) ==> AllNormalised(Poll(list, current).registry)
  {
    if AllNormalised(current) {
      RunNormalised(list, if |list| > |current| then |list| else |current|, 0, current, false);
    }
  }

  /** A step that reports no change has left the registry as it was. */
  lemma StepNoChange(list: seq<Option<RawGamepad>>, reg: seq<Gamepad>, i: nat)
    ensures var s := Step(list, reg, i);
      s.Ok? && !s.hasChanges ==> s.registry == reg
  {
    StepCases(list, reg, i);
    var s := Step(list, reg, i);
    if s.Ok? && !s.hasChanges {
      assert i < |reg| && Slot(list, i).Some? && reg[i].id == Slot(list, i).value.id;
      assert s.registry[i] == reg[i];
      assert s.registry == reg;
    }
  }

  lemma {:induction false} RunNoChange(list: seq<Option<RawGamepad>>, bound: nat, i: nat, reg: seq<Gamepad>, changed: bool)
    ensures var o := Run(list, bound, i, reg, changed);
      o.Ok? && !o.hasChanges ==> !changed && o.registry == reg
    decreases bound - i
  {
    if i < bound {
      var s := Step(list, reg, i);
      if s.Ok? {
        var c := changed || s.hasChanges;
        RunUnfold(list, bound, i, reg, changed);
        RunNoChange(list, bound, i + 1, s.registry, c);
        StepNoChange(list, reg, i);
      }
    }
  }

  /** A poll that reports no change has left the registry exactly as it was. */
  lemma PollNoChange(list: seq<Option<RawGamepad>>, current: seq<Gamepad>)
    ensures Poll(list, current).Ok? && !Poll(list, current).hasChanges ==> Poll(list, current).registry == current
  {
    RunNoChange(list, if |list| > |current| then |list| else |current|, 0, current, false);
  }
}

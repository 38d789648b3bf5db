/**
 Conversion of the platform's raw controller records into the Elm-side
 snapshot records, and the element tests the poller uses to decide whether
 a stored field still matches a fresh reading.
 */
module GamepadDecode {
  import opened Quantise
  import opened ElmList

  /**
   A raw button as the platform reports it: an object with `pressed` and
   `value`, or, on older platforms, a bare number where 1.0 means fully
   pressed.
   */
  datatype RawButton = ButtonObject(pressed: bool, value: real) | LegacyValue(level: real)

  /** A raw controller record. */
  datatype RawGamepad = RawGamepad(id: string, axes: seq<real>, buttons: seq<RawButton>, mapping: string)

  /** The Elm `Gamepad.Button` record. */
  datatype Button = Button(pressed: bool, value: real)

  /** The Elm `Gamepad.Gamepad` record kept in the registry. */
  datatype Gamepad = Gamepad(id: string, axes: List<real>, buttons: List<Button>, mapping: string)

  /** Every raw button has the object shape. */
  predicate ObjectButtons(bs: seq<RawButton>)
  {
    forall k :: 0 <= k < |bs| ==> bs[k].ButtonObject?
  }

  /** Every axis and every button value of a snapshot is a whole number of hundredths. */
  predicate Normalised(g: Gamepad)
  {
    && (forall v :: v in ToSeq(g.axes) ==> Quantised(v))
    && (forall b :: b in ToSeq(g.buttons) ==> Quantised(b.value))
  }

  /** Decodes either raw button shape; the value comes out rounded. */
  function DecodeButton(b: RawButton): (r: Button)
    ensures Quantised(r.value)
    ensures b.ButtonObject? ==> r.pressed == b.pressed && FloatEq(r.value, b.value)
    ensures b.LegacyValue? ==> (r.pressed <==> b.level == 1.0) && FloatEq(r.value, b.level)
  {
    match b
    case ButtonObject(p, v) => Button(p, Round(v))
    case LegacyValue(x) => Button(x == 1.0, Round(x))
  }

  /**
   Compares a stored button with a raw one, as the poller calls it: the
   STORED button is run through the decoder again and its `pressed` flag is
   compared with the raw record's `pressed` property. A bare-number raw
   button has no `pressed` property, so it never compares equal.
   */
  function ButtonEq(stored: Button, raw: RawButton): (r: bool)
    ensures r <==> raw.ButtonObject? && stored.pressed == raw.pressed && Round(stored.value) == Round(raw.value)
  {
    var a := DecodeButton(ButtonObject(stored.pressed, stored.value));
    match raw
    case ButtonObject(p, v) => a.pressed == p && FloatEq(a.value, v)
    case LegacyValue(_) => false
  }

  /** The rounded axes of a raw record, as an Elm list. */
  function Axes(xs: seq<real>): (r: List<real>)
    ensures ListArrayCmp(r, xs, FloatEq)
  {
    FromArray(seq(|xs|, k requires 0 <= k < |xs| => Round(xs[k])))
  }

  /** The decoded buttons of a raw record, as an Elm list. */
  function Buttons(xs: seq<RawButton>): (r: List<Button>)
    ensures |ToSeq(r)| == |xs|
    ensures forall k :: 0 <= k < |xs| ==> ToSeq(r)[k] == DecodeButton(xs[k])
  {
    FromArray(seq(|xs|, k requires 0 <= k < |xs| => DecodeButton(xs[k])))
  }

  /** A fresh snapshot of a raw controller record. */
  function MakeGamepad(t: RawGamepad): (g: Gamepad)
    ensures g.id == t.id && g.mapping == t.mapping
    ensures Normalised(g)
    ensures ListArrayCmp(g.axes, t.axes, FloatEq)
    ensures ListArrayCmp(g.buttons, t.buttons, ButtonEq) <==> ObjectButtons(t.buttons)
    ensures g.axes == Axes(t.axes) && g.buttons == Buttons(t.buttons)
  {
    ButtonsCompareEqual(t.buttons);
    Gamepad(t.id, Axes(t.axes), Buttons(t.buttons), t.mapping)
  }

  /**
   Freshly decoded buttons compare equal to the raw buttons they came from
   exactly when every raw button has the object shape.
   */
  lemma ButtonsCompareEqual(xs: seq<RawButton>)
    ensures ListArrayCmp(Buttons(xs), xs, ButtonEq) <==> ObjectButtons(xs)
  {
    var bs := ToSeq(Buttons(xs));
    forall k | 0 <= k < |xs|
      ensures ButtonEq(bs[k], xs[k]) <==> xs[k].ButtonObject?
    {
      DecodedButtonEq(xs[k]);
    }
    assert Pairwise(bs, xs, ButtonEq) <==> ObjectButtons(xs);
  }

  /** A decoded object-shaped button compares equal to its source; a bare number never does. */
  lemma DecodedButtonEq(b: RawButton)
    ensures ButtonEq(DecodeButton(b), b) <==> b.ButtonObject?
  {
    match b
    case ButtonObject(_, v) => RoundIdempotent(v);
    case LegacyValue(_) =>
  }

  /**
   For a stored button whose value is already rounded, comparing equal to
   an object-shaped raw button means being exactly its decoding.
   */
  lemma ButtonEqIsDecoding(stored: Button, raw: RawButton)
    requires Quantised(stored.value)
    requires raw.ButtonObject?
    ensures ButtonEq(stored, raw) <==> stored == DecodeButton(raw)
  {
    RoundQuantised(stored.value);
  }

  /**
   For stored axes that are already rounded, comparing equal to the raw
   axes means being exactly their rounding.
   */
  lemma AxesCmpIsRounding(stored: List<real>, xs: seq<real>)
    requires forall v :: v in ToSeq(stored) ==> Quantised(v)
    ensures ListArrayCmp(stored, xs, FloatEq) <==> stored == Axes(xs)
  {
    if ListArrayCmp(stored, xs, FloatEq) {
      var s := ToSeq(stored);
      var a := ToSeq(Axes(xs));
      assert |s| == |a|;
      forall k | 0 <= k < |s|
        ensures s[k] == a[k]
      {
        assert s[k] in ToSeq(stored);
        RoundUnique(xs[k], s[k]);
        RoundUnique(xs[k], a[k]);
      }
      assert s == a;
      ToSeqInjective(stored, Axes(xs));
    }
  }

  /**
   For stored buttons whose values are already rounded, comparing equal to
   object-shaped raw buttons means being exactly their decoding.
   */
  lemma ButtonsCmpIsDecoding(stored: List<Button>, xs: seq<RawButton>)
    requires forall b :: b in ToSeq(stored) ==> Quantised(b.value)
    requires ObjectButtons(xs)
    ensures ListArrayCmp(stored, xs, ButtonEq) <==> stored == Buttons(xs)
  {
    var s := ToSeq(stored);
    var d := ToSeq(Buttons(xs));
    if ListArrayCmp(stored, xs, ButtonEq) {
      forall k | 0 <= k < |s|
        ensures s[k] == d[k]
      {
        assert s[k] in ToSeq(stored);
        ButtonEqIsDecoding(s[k], xs[k]);
      }
      assert s == d;
      ToSeqInjective(stored, Buttons(xs));
    } else if stored == Buttons(xs) {
      ButtonsCompareEqual(xs);
    }
  }
}

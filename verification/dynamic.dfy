/**
 The tagged payload envelope. The Elm runtime dispatches on an object's
 `ctor` tag, so an arbitrary tagged value is smuggled through it by
 retagging the value itself as `"Payload"` and wrapping it in an envelope
 tagged `"Dynamic"` that remembers the original tag. Unpacking writes the
 remembered tag back.

 The JavaScript functions mutate the value in place. The pure functions
 below state what an observer sees; the class-based methods further down
 do the in-place rewrite and are proved to match them.
 */
module Dynamic {

  /**
   A tagged object: its `ctor` tag and all its other fields. The tag is
   kept only in `ctor`; `fields` never holds a `"ctor"` key, so each
   JavaScript object has exactly one representation.
   */
  datatype Value<V> = Value(ctor: string, fields: map<string, V>)

  /** The envelope `{ctor: "Dynamic", origCtor, payload}`. */
  datatype Envelope<V> = Envelope(ctor: string, origCtor: string, payload: Value<V>)

  /** An envelope as `Pack` leaves it: outer tag `"Dynamic"`, inner tag `"Payload"`. */
  predicate Packed<V>(e: Envelope<V>)
  {
    e.ctor == "Dynamic" && e.payload.ctor == "Payload"
  }

  /** Wraps `x`: the envelope remembers `x`'s tag, and `x` itself is carried retagged. */
  function Pack<V>(x: Value<V>): (e: Envelope<V>)
    ensures Packed(e)
    ensures e.origCtor == x.ctor
    ensures e.payload.fields == x.fields
  {
    Envelope("Dynamic", x.ctor, x.(ctor := "Payload"))
  }

  /** Unwraps: the payload comes back with the remembered tag and every other field as carried. */
  function Unpack<V>(e: Envelope<V>): (x: Value<V>)
    ensures x.ctor == e.origCtor
    ensures x.fields == e.payload.fields
  {
    e.payload.(ctor := e.origCtor)
  }

  /** Unpacking a packed value gives back the value, tag included. */
  lemma UnpackPack<V>(x: Value<V>)
    ensures Unpack(Pack(x)) == x
  {
  }

  /** Packing an unpacked envelope gives back the envelope, for every envelope `Pack` can produce. */
  lemma PackUnpack<V>(e: Envelope<V>)
    requires Packed(e)
    ensures Pack(Unpack(e)) == e
  {
  }

  /** Exactly the envelopes of the form `Packed` come out of `Pack`. */
  lemma PackedIsImageOfPack<V>(e: Envelope<V>)
    ensures Packed(e) <==> exists x :: Pack(x) == e
  {
    if Packed(e) {
      PackUnpack(e);
    }
  }

  /** A JavaScript object whose `ctor` tag can be overwritten in place. */
  class TaggedObject<V> {
    var ctor: string
    var fields: map<string, V>

    constructor(ctor: string, fields: map<string, V>)
      ensures this.ctor == ctor && this.fields == fields
    {
      this.ctor := ctor;
      this.fields := fields;
    }

    function View(): Value<V>
      reads this
    {
      Value(ctor, fields)
    }
  }

  /** The envelope object; its payload is the very object that was packed. */
  class EnvelopeObject<V> {
    var ctor: string
    var origCtor: string
    var payload: TaggedObject<V>

    constructor(origCtor: string, payload: TaggedObject<V>)
      ensures this.ctor == "Dynamic" && this.origCtor == origCtor && this.payload == payload
    {
      this.ctor := "Dynamic";
      this.origCtor := origCtor;
      this.payload := payload;
    }

    function View(): Envelope<V>
      reads this, payload
    {
      Envelope(ctor, origCtor, payload.View())
    }
  }

  /** `pack`: retags `x` in place and wraps that same object in a new envelope. */
  method PackInPlace<V>(x: TaggedObject<V>) returns (e: EnvelopeObject<V>)
    modifies x
    ensures fresh(e)
    ensures e.payload == x
    ensures x.ctor == "Payload" && x.fields == old(x.fields)
    ensures e.View() == Pack(old(x.View()))
  {
    var origCtor := x.ctor;
    x.ctor := "Payload";
    e := new EnvelopeObject(origCtor, x);
  }

  /** `unpack`: writes the remembered tag back into the payload object and returns that object. */
  method UnpackInPlace<V>(e: EnvelopeObject<V>) returns (x: TaggedObject<V>)
    modifies e.payload
    ensures x == e.payload
    ensures x.ctor == e.origCtor && x.fields == old(x.fields)
    ensures x.View() == Unpack(old(e.View()))
  {
    var payload := e.payload;
    payload.ctor := e.origCtor;
    x := payload;
  }

  /** Packing and then unpacking hands back the same object, with its tag and fields restored. */
  method PackThenUnpack<V>(x: TaggedObject<V>) returns (y: TaggedObject<V>)
    modifies x
    ensures y == x
    ensures x.View() == old(x.View())
  {
    var e := PackInPlace(x);
    y := UnpackInPlace(e);
  }
}

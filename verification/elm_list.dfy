/**
 Elm's immutable cons list, as seen from the JavaScript side of the
 runtime: a chain of `{ctor: "::", _0: head, _1: tail}` cells ending in
 `{ctor: "[]"}`. `FromArray` is the runtime's `List.fromArray`, and
 `ListArrayCmp` compares such a list against a JavaScript array with a
 caller-supplied element test.
 */
module ElmList {

  datatype List<T> = Nil | Cons(head: T, tail: List<T>)

  /** The elements of a list, front to back. */
  function ToSeq<T>(l: List<T>): seq<T>
  {
    match l
    case Nil => []
    case Cons(h, t) => [h] + ToSeq(t)
  }

  /** Builds the cons list holding the array's elements in order. */
  function FromArray<T>(s: seq<T>): (l: List<T>)
    ensures ToSeq(l) == s
  {
    if |s| == 0 then Nil else Cons(s[0], FromArray(s[1..]))
  }

  /** `FromArray` is also a right inverse: no two lists have the same elements. */
  lemma {:induction false} FromArrayToSeq<T>(l: List<T>)
    ensures FromArray(ToSeq(l)) == l
  {
    match l
    case Nil =>
    case Cons(h, t) =>
      calc {
        FromArray(ToSeq(l));
        { assert ToSeq(l)[1..] == ToSeq(t); }
        Cons(h, FromArray(ToSeq(t)));
        { FromArrayToSeq(t); }
        l;
      }
  }

  /** Two lists are equal exactly when their element sequences are. */
  lemma ToSeqInjective<T>(a: List<T>, b: List<T>)
    requires ToSeq(a) == ToSeq(b)
    ensures a == b
  {
    FromArrayToSeq(a);
    FromArrayToSeq(b);
  }

  /** Same length, and `isEq` holds at every position. */
  predicate Pairwise<A, B>(xs: seq<A>, ys: seq<B>, isEq: (A, B) -> bool)
  {
    |xs| == |ys| && forall k :: 0 <= k < |xs| ==> isEq(xs[k], ys[k])
  }

  /**
   The comparator walks the list with a running array position `pos`,
   answering false as soon as the array runs out or an element pair fails,
   and at the end of the list demands that the array is used up too.
   */
  function ListArrayCmp<A, B>(list: List<A>, arr: seq<B>, isEq: (A, B) -> bool): (r: bool)
    ensures r <==> Pairwise(ToSeq(list), arr, isEq)
  {
    CmpFrom(list, arr, isEq, 0)
  }

  /** The loop of the comparator, entered at array position `pos`. */
  function CmpFrom<A, B>(list: List<A>, arr: seq<B>, isEq: (A, B) -> bool, pos: nat): (r: bool)
    requires pos <= |arr|
    ensures r <==> Pairwise(ToSeq(list), arr[pos..], isEq)
    decreases list
  {
    match list
    case Nil => pos == |arr|
    case Cons(h, t) =>
      if pos > |arr| - 1 then false
      else if !isEq(h, arr[pos]) then false
      else
        var rest := CmpFrom(t, arr, isEq, pos + 1);
        PairwiseCons(h, ToSeq(t), arr[pos], arr[pos + 1..], isEq);
        assert arr[pos..] == [arr[pos]] + arr[pos + 1..];
        rest
  }

  /** Pairing up two non-empty sequences is pairing their heads and then their tails. */
  lemma PairwiseCons<A, B>(x: A, xs: seq<A>, y: B, ys: seq<B>, isEq: (A, B) -> bool)
    ensures Pairwise([x] + xs, [y] + ys, isEq) <==> isEq(x, y) && Pairwise(xs, ys, isEq)
  {
    if isEq(x, y) && Pairwise(xs, ys, isEq) {
      forall k | 0 <= k < |[x] + xs|
        ensures isEq(([x] + xs)[k], ([y] + ys)[k])
      {
        if k > 0 {
          assert ([x] + xs)[k] == xs[k - 1];
          assert ([y] + ys)[k] == ys[k - 1];
        }
      }
    }
    if Pairwise([x] + xs, [y] + ys, isEq) {
      assert ([x] + xs)[0] == x && ([y] + ys)[0] == y;
      forall k | 0 <= k < |xs|
        ensures isEq(xs[k], ys[k])
      {
        assert ([x] + xs)[k + 1] == xs[k];
        assert ([y] + ys)[k + 1] == ys[k];
      }
    }
  }
}

/** Cutting a sequence into consecutive fixed-size records, for any element
    type and any positive record size. */
module Records {
  import opened Arith

  /** The whole records of size S in `es`, in order; the fewer than S items
      after the last whole record belong to no record. */
  function Split<T>(es: seq<T>, S: nat): (ps: seq<seq<T>>)
    requires S > 0
    ensures forall i :: 0 <= i < |ps| ==> |ps[i]| == S
    decreases |es|
  {
    if |es| < S then [] else [es[..S]] + Split(es[S..], S)
  }

  /** The records of `ps`, back to back. */
  function Flatten<T>(ps: seq<seq<T>>): seq<T>
  {
    if ps == [] then [] else ps[0] + Flatten(ps[1..])
  }

  /** A sequence holds |es| / S whole records. */
  lemma {:induction false} SplitLength<T>(es: seq<T>, S: nat)
    requires S > 0
    ensures |Split(es, S)| == |es| / S
    decreases |es|
  {
    if |es| < S {
      DivUnique(|es|, S, 0);
    } else {
      SplitLength(es[S..], S);
      DivStep(|es|, S);
    }
  }

  /** Record i occupies items i * S up to (i + 1) * S. */
  lemma {:induction false} SplitAt<T>(es: seq<T>, S: nat, i: nat)
    requires S > 0 && i * S + S <= |es|
    ensures i < |Split(es, S)| && Split(es, S)[i] == es[i * S..i * S + S]
    decreases i
  {
    if i > 0 {
      var rest := es[S..];
      var a := (i - 1) * S;
      MulSucc(i - 1, S);
      SplitAt(rest, S, i - 1);
      assert rest[a..a + S] == es[i * S..i * S + S];
    }
  }

  /** A slice of a slice is a slice of the whole. */
  lemma SliceOfSlice<T>(s: seq<T>, a: nat, b: nat, c: nat, d: nat)
    requires a <= b <= |s| && c <= d <= b - a
    ensures s[a..b][c..d] == s[a + c..a + d]
  {
    assert |s[a..b][c..d]| == |s[a + c..a + d]|;
    forall k | 0 <= k < d - c
      ensures s[a..b][c..d][k] == s[a + c..a + d][k]
    {
    }
  }

  /** A record of size S followed by more items is the first record. */
  lemma SplitCons<T>(head: seq<T>, tail: seq<T>, S: nat)
    requires S > 0 && |head| == S
    ensures Split(head + tail, S) == [head] + Split(tail, S)
  {
    assert (head + tail)[..S] == head && (head + tail)[S..] == tail;
  }

  /** Cutting at a record boundary cuts the records there. */
  lemma {:induction false} SplitAppend<T>(x: seq<T>, y: seq<T>, S: nat, q: nat)
    requires S > 0 && |x| == q * S
    ensures Split(x + y, S) == Split(x, S) + Split(y, S)
    decreases q
  {
    if q == 0 {
      assert x + y == y;
    } else {
      MultipleStep(q, S);
      assert (x + y)[..S] == x[..S];
      assert (x + y)[S..] == x[S..] + y;
      SplitAppend(x[S..], y, S, q - 1);
    }
  }

  /** Cutting records of size S placed back to back, followed by fewer than S
      items, gives back those records. */
  lemma {:induction false} SplitFlatten<T>(ps: seq<seq<T>>, tail: seq<T>, S: nat)
    requires S > 0 && |tail| < S
    requires forall i :: 0 <= i < |ps| ==> |ps[i]| == S
    ensures Split(Flatten(ps) + tail, S) == ps
  {
    if ps != [] {
      var more := Flatten(ps[1..]) + tail;
      var es := Flatten(ps) + tail;
      assert es == ps[0] + more;
      assert es[..S] == ps[0] && es[S..] == more;
      SplitFlatten(ps[1..], tail, S);
    }
  }

  /** The records of a sequence, back to back, are all of it but a tail shorter
      than one record. */
  lemma {:induction false} FlattenSplit<T>(es: seq<T>, S: nat)
    requires S > 0
    ensures var f := Flatten(Split(es, S));
      |f| <= |es| && es == f + es[|f|..] && |es| - |f| < S
    decreases |es|
  {
    if |es| >= S {
      var rest := es[S..];
      FlattenSplit(rest, S);
      var ps := Split(es, S);
      assert ps[0] == es[..S] && ps[1..] == Split(rest, S);
      var f' := Flatten(Split(rest, S));
      assert Flatten(ps) == es[..S] + f';
      assert es == es[..S] + (f' + rest[|f'|..]);
    }
  }
}

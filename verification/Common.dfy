/** What every component of the model shares: an optional value, bytes, counting the
    elements of a sequence that satisfy a predicate, and slices of concatenations. */
module Common {

  datatype Option<+T> = None | Some(value: T)

  type Byte = b: nat | b < 256

  function ToNat(b: bool): nat {
    if b then 1 else 0
  }

  /** How many elements of `xs` satisfy `p`. */
  function CountIf<T>(xs: seq<T>, p: T -> bool): nat {
    if xs == [] then 0 else CountIf(xs[..|xs| - 1], p) + ToNat(p(xs[|xs| - 1]))
  }

  /** Replacing one element moves the count by what that element contributed. */
  lemma {:induction false} CountUpdate<T>(xs: seq<T>, p: T -> bool, i: nat, x: T)
    requires i < |xs|
    ensures CountIf(xs[i := x], p) == CountIf(xs, p) - ToNat(p(xs[i])) + ToNat(p(x))
  {
    var last := |xs| - 1;
    if i == last {
      assert xs[i := x][..last] == xs[..last];
    } else {
      assert xs[i := x][..last] == xs[..last][i := x];
      CountUpdate(xs[..last], p, i, x);
    }
  }

  /** A set of indices whose elements all satisfy `p` is no larger than the count. */
  lemma {:induction false} CountCovers<T>(xs: seq<T>, p: T -> bool, s: set<nat>)
    requires forall i | i in s :: i < |xs| && p(xs[i])
    ensures |s| <= CountIf(xs, p)
  {
    if xs == [] {
      assert s == {};
    } else {
      var last := |xs| - 1;
      forall i | i in s - {last} ensures i < last && p(xs[..last][i]) {
        assert i in s;
      }
      CountCovers(xs[..last], p, s - {last});
    }
  }

  /** Nothing is counted exactly when no element satisfies the predicate. */
  lemma {:induction false} CountZero<T>(xs: seq<T>, p: T -> bool)
    ensures CountIf(xs, p) == 0 <==> forall i | 0 <= i < |xs| :: !p(xs[i])
  {
    if xs != [] {
      var last := |xs| - 1;
      CountZero(xs[..last], p);
      assert forall i | 0 <= i < last :: xs[..last][i] == xs[i];
    }
  }

  function SumOf<T>(xs: seq<T>, w: T -> nat): nat {
    if xs == [] then 0 else SumOf(xs[..|xs| - 1], w) + w(xs[|xs| - 1])
  }

  lemma {:induction false} SumUpdate<T>(xs: seq<T>, w: T -> nat, i: nat, x: T)
    requires i < |xs|
    ensures SumOf(xs[i := x], w) == SumOf(xs, w) - w(xs[i]) + w(x)
  {
    var last := |xs| - 1;
    if i == last {
      assert xs[i := x][..last] == xs[..last];
    } else {
      assert xs[i := x][..last] == xs[..last][i := x];
      SumUpdate(xs[..last], w, i, x);
    }
  }

  /** A sum of weights no larger than `top` is no larger than `top` times the length. */
  lemma {:induction false} SumBound<T>(xs: seq<T>, w: T -> nat, top: nat)
    requires forall i | 0 <= i < |xs| :: w(xs[i]) <= top
    ensures SumOf(xs, w) <= top * |xs|
  {
    if xs != [] {
      var last := |xs| - 1;
      SumBound(xs[..last], w, top);
      assert top * |xs| == top * last + top;
    }
  }

  // ----- picking -------------------------------------------------------------------

  /** `out` is what `f` makes of the elements of `xs` that satisfy `p`, and of no others, in
      the order they stand in: each at the place that those before it leave it. */
  ghost predicate Picks<T, U>(out: seq<U>, xs: seq<T>, p: T -> bool, f: T -> U) {
    && |out| == CountIf(xs, p)
    && forall i | 0 <= i < |xs| && p(xs[i]) :: PickedAt(out, CountIf(xs[..i], p), f(xs[i]))
  }

  ghost predicate PickedAt<U>(out: seq<U>, k: nat, u: U) {
    k < |out| && out[k] == u
  }

  lemma PicksLast<T, U>(out: seq<U>, xs: seq<T>, p: T -> bool, f: T -> U)
    requires xs != [] && Picks(out, xs[..|xs| - 1], p, f)
    ensures
      var x := xs[|xs| - 1];
      Picks(if p(x) then out + [f(x)] else out, xs, p, f)
  {
    var last := |xs| - 1;
    var more := if p(xs[last]) then out + [f(xs[last])] else out;
    forall i | 0 <= i < |xs| && p(xs[i]) ensures PickedAt(more, CountIf(xs[..i], p), f(xs[i])) {
      if i < last {
        assert xs[..last][..i] == xs[..i] && xs[..last][i] == xs[i];
      }
    }
  }

  lemma {:induction false} CountFirst<T>(xs: seq<T>, p: T -> bool)
    requires xs != []
    ensures CountIf(xs, p) == ToNat(p(xs[0])) + CountIf(xs[1..], p)
  {
    var last := |xs| - 1;
    if last > 0 {
      CountFirst(xs[..last], p);
      assert xs[..last][1..] == xs[1..][..last - 1];
    }
  }

  /** There is one such sequence. */
  lemma {:induction false} PicksOne<T, U>(a: seq<U>, b: seq<U>, xs: seq<T>, p: T -> bool, f: T -> U)
    requires Picks(a, xs, p, f) && Picks(b, xs, p, f)
    ensures a == b
    decreases |xs|
  {
    if xs != [] {
      var last := |xs| - 1;
      assert p(xs[last]) ==> PickedAt(a, CountIf(xs[..last], p), f(xs[last])) && PickedAt(b, CountIf(xs[..last], p), f(xs[last]));
      PicksFront(a, xs, p, f);
      PicksFront(b, xs, p, f);
      var n := CountIf(xs[..last], p);
      PicksOne(a[..n], b[..n], xs[..last], p, f);
      assert a[..n] == b[..n];
      assert a == if p(xs[last]) then a[..n] + [a[n]] else a[..n];
      assert b == if p(xs[last]) then b[..n] + [b[n]] else b[..n];
    }
  }

  lemma PicksFront<T, U>(out: seq<U>, xs: seq<T>, p: T -> bool, f: T -> U)
    requires xs != [] && Picks(out, xs, p, f)
    ensures
      var n := CountIf(xs[..|xs| - 1], p);
      n <= |out| && Picks(out[..n], xs[..|xs| - 1], p, f)
  {
    var last := |xs| - 1;
    var n := CountIf(xs[..last], p);
    forall i | 0 <= i < last && p(xs[..last][i]) ensures PickedAt(out[..n], CountIf(xs[..last][..i], p), f(xs[i])) {
      assert xs[..last][..i] == xs[..i];
      assert PickedAt(out, CountIf(xs[..i], p), f(xs[i]));
      CountMore(xs[..last], p, i);
    }
  }

  lemma {:induction false} CountMore<T>(xs: seq<T>, p: T -> bool, i: nat)
    requires i < |xs|
    ensures CountIf(xs[..i], p) + ToNat(p(xs[i])) <= CountIf(xs, p)
  {
    var last := |xs| - 1;
    if i < last {
      CountMore(xs[..last], p, i);
      assert xs[..last][..i] == xs[..i];
    }
  }

  lemma PicksFirst<T, U>(out: seq<U>, xs: seq<T>, p: T -> bool, f: T -> U)
    requires xs != [] && Picks(out, xs[1..], p, f)
    ensures Picks(if p(xs[0]) then [f(xs[0])] + out else out, xs, p, f)
  {
    var whole := if p(xs[0]) then [f(xs[0])] + out else out;
    CountFirst(xs, p);
    forall i | 0 <= i < |xs| && p(xs[i]) ensures PickedAt(whole, CountIf(xs[..i], p), f(xs[i])) {
      if i > 0 {
        CountFirst(xs[..i], p);
        assert xs[..i][1..] == xs[1..][..i - 1] && xs[1..][i - 1] == xs[i];
        assert PickedAt(out, CountIf(xs[1..][..i - 1], p), f(xs[i]));
      }
    }
  }

  // ----- slices of concatenations ---------------------------------------------------

  lemma Associative<T>(a: seq<T>, b: seq<T>, c: seq<T>)
    ensures (a + b) + c == a + (b + c)
  {
  }

  lemma TakeDrop<T>(s: seq<T>, k: nat)
    requires k <= |s|
    ensures s[..k] + s[k..] == s
  {
  }

  lemma SliceOfSlice<T>(s: seq<T>, i: nat, k: nat)
    requires i + k <= |s|
    ensures s[i..][k..] == s[i + k..]
    ensures s[i..][..k] == s[i..i + k]
  {
  }

  lemma Cut<T>(s: seq<T>, k: nat, n: nat)
    requires k <= n <= |s|
    ensures s[..n] == s[..k] + s[k..][..n - k]
  {
  }

  predicate All<T>(s: seq<T>, p: T -> bool) {
    forall i | 0 <= i < |s| :: p(s[i])
  }

  lemma AllJoin<T>(a: seq<T>, b: seq<T>, p: T -> bool)
    ensures All(a + b, p) <==> All(a, p) && All(b, p)
  {
    if All(a + b, p) {
      assert forall i | 0 <= i < |a| :: (a + b)[i] == a[i];
      assert forall i | 0 <= i < |b| :: (a + b)[|a| + i] == b[i];
    }
  }

  lemma DropAppend<T>(a: seq<T>, b: seq<T>)
    ensures (a + b)[|a|..] == b
    ensures (a + b)[..|a|] == a
  {
  }

  /** The parts of `open`, a body, a closing element and what follows. */
  lemma Framed<T>(open: seq<T>, body: seq<T>, close: T, rest: seq<T>)
    ensures
      var whole := (open + body + [close]) + rest;
      && whole[|open|..] == body + [close] + rest
      && (forall i | 0 <= i < |open| :: whole[i] == open[i])
      && (body + [close] + rest)[..|body|] == body
      && (body + [close] + rest)[|body| + 1..] == rest
  {
  }

  /** A front of `s` with another rest behind it. */
  lemma OtherRest<T>(s: seq<T>, k: nat, rest: seq<T>)
    requires 0 < k <= |s|
    ensures
      var out := s[..k] + rest;
      && out[0] == s[0]
      && out[1..] == s[1..][..k - 1] + rest
      && out[1..][..k - 1] == s[1..][..k - 1]
      && out[1..][k - 1..] == rest
  {
  }
}

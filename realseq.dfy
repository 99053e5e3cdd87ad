/** Python's `min`, `max`, `sum` and the arithmetic mean over lists of
    temperatures, with temperatures taken as exact reals. */
module RealSeq {

  /** `min(a, b)`: the first argument unless the second is strictly smaller. */
  function Min(a: real, b: real): (r: real)
    ensures r <= a && r <= b && (r == a || r == b)
  {
    if b < a then b else a
  }

  /** `max(a, b)`: the first argument unless the second is strictly larger. */
  function Max(a: real, b: real): (r: real)
    ensures r >= a && r >= b && (r == a || r == b)
  {
    if b > a then b else a
  }

  /** `sum(s)`, added left to right. */
  function Sum(s: seq<real>): real
    decreases |s|
  {
    if s == [] then 0.0 else Sum(s[..|s| - 1]) + s[|s| - 1]
  }

  /** `min(s)` of a non-empty list: an element no larger than any other. */
  function SeqMin(s: seq<real>): (m: real)
    requires |s| > 0
    ensures m in s
    ensures forall i :: 0 <= i < |s| ==> m <= s[i]
    decreases |s|
  {
    if |s| == 1 then s[0] else Min(SeqMin(s[..|s| - 1]), s[|s| - 1])
  }

  /** `max(s)` of a non-empty list: an element no smaller than any other. */
  function SeqMax(s: seq<real>): (m: real)
    requires |s| > 0
    ensures m in s
    ensures forall i :: 0 <= i < |s| ==> s[i] <= m
    decreases |s|
  {
    if |s| == 1 then s[0] else Max(SeqMax(s[..|s| - 1]), s[|s| - 1])
  }

  /** `sum(s) / len(s)`. */
  function Mean(s: seq<real>): real
    requires |s| > 0
  {
    Sum(s) / (|s| as real)
  }

  /** The least element of a list is the only element that is a lower bound. */
  lemma MinCharacterised(s: seq<real>, m: real)
    requires |s| > 0 && m in s
    requires forall i :: 0 <= i < |s| ==> m <= s[i]
    ensures m == SeqMin(s)
  {
  }

  lemma MaxCharacterised(s: seq<real>, m: real)
    requires |s| > 0 && m in s
    requires forall i :: 0 <= i < |s| ==> s[i] <= m
    ensures m == SeqMax(s)
  {
  }

  /** The minimum of two non-empty lists joined is the smaller minimum. */
  lemma SeqMinAppend(a: seq<real>, b: seq<real>)
    requires |a| > 0 && |b| > 0
    ensures SeqMin(a + b) == Min(SeqMin(a), SeqMin(b))
  {
    var m := Min(SeqMin(a), SeqMin(b));
    forall i | 0 <= i < |a + b|
      ensures m <= (a + b)[i]
    {
      if i < |a| { assert (a + b)[i] == a[i]; } else { assert (a + b)[i] == b[i - |a|]; }
    }
    MinCharacterised(a + b, m);
  }

  lemma SeqMaxAppend(a: seq<real>, b: seq<real>)
    requires |a| > 0 && |b| > 0
    ensures SeqMax(a + b) == Max(SeqMax(a), SeqMax(b))
  {
    var m := Max(SeqMax(a), SeqMax(b));
    forall i | 0 <= i < |a + b|
      ensures (a + b)[i] <= m
    {
      if i < |a| { assert (a + b)[i] == a[i]; } else { assert (a + b)[i] == b[i - |a|]; }
    }
    MaxCharacterised(a + b, m);
  }

  lemma {:induction false} SumAppend(a: seq<real>, b: seq<real>)
    ensures Sum(a + b) == Sum(a) + Sum(b)
    decreases |b|
  {
    if b == [] {
      assert a + b == a;
    } else {
      var b' := b[..|b| - 1];
      assert (a + b)[..|a + b| - 1] == a + b';
      SumAppend(a, b');
    }
  }

  /** `n * x` as repeated addition, which keeps the bounds below linear. */
  function Scale(x: real, n: nat): real
    decreases n
  {
    if n == 0 then 0.0 else Scale(x, n - 1) + x
  }

  lemma {:induction false} ScaleMonotone(x: real, y: real, n: nat)
    requires x <= y
    ensures Scale(x, n) <= Scale(y, n)
    decreases n
  {
    if n > 0 {
      ScaleMonotone(x, y, n - 1);
    }
  }

  lemma {:induction false} ScaleIsProduct(x: real, n: nat)
    ensures Scale(x, n) == x * (n as real)
    decreases n
  {
    if n > 0 {
      ScaleIsProduct(x, n - 1);
      assert (n as real) == ((n - 1) as real) + 1.0;
      assert x * (n as real) == x * ((n - 1) as real) + x;
    }
  }

  /** A total between `n * lo` and `n * hi` has its `n`-th part between `lo` and `hi`. */
  lemma PartBounds(lo: real, hi: real, total: real, n: nat)
    requires n > 0 && Scale(lo, n) <= total <= Scale(hi, n)
    ensures lo <= total / (n as real) <= hi
  {
    ScaleIsProduct(lo, n);
    ScaleIsProduct(hi, n);
    var r, q := n as real, total / (n as real);
    assert q * r == total;
    assert lo * r <= q * r && q * r <= hi * r;
    ScaledLe(lo, q, r);
    ScaledLe(q, hi, r);
  }

  /** Dividing both sides of `x * r <= y * r` by a positive `r`. */
  lemma ScaledLe(x: real, y: real, r: real)
    requires r > 0.0 && x * r <= y * r
    ensures x <= y
  {
    assert (y - x) * r == y * r - x * r;
  }

  /** `len(s) * min(s) <= sum(s) <= len(s) * max(s)`. */
  lemma {:induction false} SumBounds(s: seq<real>)
    requires |s| > 0
    ensures Scale(SeqMin(s), |s|) <= Sum(s) <= Scale(SeqMax(s), |s|)
    decreases |s|
  {
    if |s| == 1 {
      assert s[..0] == [];
    } else {
      var init := s[..|s| - 1];
      SumBounds(init);
      ScaleMonotone(SeqMin(s), SeqMin(init), |init|);
      ScaleMonotone(SeqMax(init), SeqMax(s), |init|);
    }
  }

  /** The mean of a non-empty list lies between its minimum and maximum. */
  lemma MeanBounds(s: seq<real>)
    requires |s| > 0
    ensures SeqMin(s) <= Mean(s) <= SeqMax(s)
  {
    SumBounds(s);
    PartBounds(SeqMin(s), SeqMax(s), Sum(s), |s|);
  }
}

/** The three running sums of the cosine-similarity loop. The final quotient
    (a division by a product of square roots) is floating point and is not modelled. */
module Cosine {
  import opened FaqTypes

  /** The sum of `a[i] * b[i]` over the positions of `a`, accumulated from the front. */
  function Dot(a: seq<real>, b: seq<real>): real
    requires |a| <= |b|
  {
    if a == [] then 0.0 else Dot(a[..|a| - 1], b) + a[|a| - 1] * b[|a| - 1]
  }

  /** The loop of `cosine(a, b)`: `dot`, `na` and `nb` summed over the positions of
      `a`. Where `b` is shorter than `a`, `b[i]` is undefined and the sums that read
      it become NaN, shown here as `None`; `na` only reads `a`. */
  method CosineSums(a: seq<real>, b: seq<real>) returns (dot: Option<real>, na: real, nb: Option<real>)
    ensures na == Dot(a, a)
    ensures |a| <= |b| ==> dot == Some(Dot(a, b)) && nb == Some(Dot(b[..|a|], b))
    ensures |b| < |a| ==> dot == None && nb == None
  {
    var d, n1, n2 := 0.0, 0.0, 0.0;
    var nan := false;
    var i := 0;
    while i < |a|
      invariant 0 <= i <= |a|
      invariant nan <==> i > |b|
      invariant n1 == Dot(a[..i], a)
      invariant !nan ==> d == Dot(a[..i], b) && n2 == Dot(b[..i], b)
    {
      if i < |b| {
        assert a[..i + 1][..i] == a[..i];
        assert b[..i + 1][..i] == b[..i];
        d := d + a[i] * b[i];
        n2 := n2 + b[i] * b[i];
      } else {
        nan := true;
      }
      assert a[..i + 1][..i] == a[..i];
      n1 := n1 + a[i] * a[i];
      i := i + 1;
    }
    assert a[..|a|] == a;
    na := n1;
    if nan {
      dot, nb := None, None;
    } else {
      dot, nb := Some(d), Some(n2);
    }
  }

  /** A squared norm is never negative. */
  lemma {:induction false} SquaredNormNonNegative(a: seq<real>, b: seq<real>)
    requires |a| <= |b| && a == b[..|a|]
    ensures Dot(a, b) >= 0.0
  {
    if a != [] {
      var p := a[..|a| - 1];
      assert p == b[..|p|];
      SquaredNormNonNegative(p, b);
      var x := a[|a| - 1];
      assert x * x >= 0.0;
    }
  }

  function Negate(a: seq<real>): (r: seq<real>)
    ensures |r| == |a| && forall i :: 0 <= i < |a| ==> r[i] == -a[i]
  {
    seq(|a|, i requires 0 <= i < |a| => -a[i])
  }

  /** Against its negation, a vector's dot product is minus its squared norm: the
      cosine of `a` and `-a` is -1 whenever `a` is not zero. */
  lemma {:induction false} DotNegation(a: seq<real>)
    ensures Dot(a, Negate(a)) == -Dot(a, a)
  {
    if a != [] {
      var p := a[..|a| - 1];
      DotPrefixOnly(p, Negate(a), Negate(p));
      DotPrefixOnly(p, a, p);
      DotNegation(p);
    }
  }

  /** `Dot(a, b)` reads only the first `|a|` positions of `b`. */
  lemma {:induction false} DotPrefixOnly(a: seq<real>, b: seq<real>, c: seq<real>)
    requires |a| <= |b| && |a| <= |c|
    requires forall i :: 0 <= i < |a| ==> b[i] == c[i]
    ensures Dot(a, b) == Dot(a, c)
  {
    if a != [] {
      DotPrefixOnly(a[..|a| - 1], b, c);
    }
  }

  /** The dot product is symmetric, which is why `cosine(a, b)` and `cosine(b, a)`
      agree on equal-length vectors. */
  lemma {:induction false} DotSymmetric(a: seq<real>, b: seq<real>)
    requires |a| == |b|
    ensures Dot(a, b) == Dot(b, a)
  {
    if a != [] {
      var n := |a| - 1;
      DotPrefixOnly(a[..n], b, b[..n]);
      DotPrefixOnly(b[..n], a, a[..n]);
      DotSymmetric(a[..n], b[..n]);
    }
  }
}

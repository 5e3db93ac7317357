/** Polynomials over the field: evaluation, roots and interpolation. */
module Interpolation {
  import opened Basics
  import opened GF256

  /** Coefficients, constant term first. */
  type Poly = seq<Element>

  function Eval(p: Poly, x: Element): Element {
    if p == [] then 0 else Add(p[0], Mul(x, Eval(p[1..], x)))
  }

  function Plus(p: Poly, q: Poly): (r: Poly)
    requires |p| == |q|
    ensures |r| == |p|
  {
    if p == [] then [] else [Add(p[0], q[0])] + Plus(p[1..], q[1..])
  }

  function Scale(c: Element, p: Poly): (r: Poly)
    ensures |r| == |p|
  {
    if p == [] then [] else [Mul(c, p[0])] + Scale(c, p[1..])
  }

  lemma {:induction false} EvalPlus(p: Poly, q: Poly, x: Element)
    requires |p| == |q|
    ensures Eval(Plus(p, q), x) == Add(Eval(p, x), Eval(q, x))
  {
    AddLaws(0, 0, 0);
    if p != [] {
      var u, v := Eval(p[1..], x), Eval(q[1..], x);
      EvalPlus(p[1..], q[1..], x);
      MulDistributes(x, u, v);
      Regroup(p[0], q[0], Mul(x, u), Mul(x, v));
    }
  }

  lemma {:induction false} EvalScale(c: Element, p: Poly, x: Element)
    ensures Eval(Scale(c, p), x) == Mul(c, Eval(p, x))
  {
    MulUnits(c);
    if p != [] {
      var u := Eval(p[1..], x);
      EvalScale(c, p[1..], x);
      MulAssociates(x, c, u);
      MulCommutes(x, c);
      MulAssociates(c, x, u);
      MulDistributes(c, p[0], Mul(x, u));
    }
  }

  lemma {:induction false} EvalPad(p: Poly, x: Element)
    ensures Eval(p + [0], x) == Eval(p, x)
  {
    MulUnits(x);
    if p == [] {
      AddLaws(0, 0, 0);
      assert [0][1..] == [] && p + [0] == [0];
    } else {
      EvalPad(p[1..], x);
      assert (p + [0])[1..] == p[1..] + [0];
    }
  }

  // ---- a polynomial of degree below n with n roots is zero everywhere ------------

  /** Synthetic division by (x - a). */
  function Quotient(p: Poly, a: Element): (q: Poly)
    requires |p| > 0
    ensures |q| == |p| - 1
  {
    if |p| == 1 then [] else [Eval(p[1..], a)] + Quotient(p[1..], a)
  }

  lemma {:induction false} Division(p: Poly, a: Element, x: Element)
    requires |p| > 0
    ensures Add(Eval(p, x), Eval(p, a)) == Mul(Add(x, a), Eval(Quotient(p, a), x))
  {
    var r := p[1..];
    var rx, ra := Eval(r, x), Eval(r, a);
    DifferenceOfTails(p[0], Mul(x, rx), Mul(a, ra));
    if |p| == 1 {
      MulUnits(x);
      MulUnits(a);
      MulUnits(Add(x, a));
      AddLaws(0, 0, 0);
    } else {
      var q := Eval(Quotient(r, a), x);
      Division(r, a, x);
      assert Quotient(p, a)[1..] == Quotient(r, a);
      DivisionStep(x, a, rx, ra, q);
    }
  }

  lemma DifferenceOfTails(c: Element, u: Element, v: Element)
    ensures Add(Add(c, u), Add(c, v)) == Add(u, v)
  {
    AddLaws(c, u, 0);
    Cancel(u, c, v);
  }

  /** x r(x) - a r(a) = (x - a) (r(a) + x q), where r(x) - r(a) = (x - a) q. */
  lemma DivisionStep(x: Element, a: Element, rx: Element, ra: Element, q: Element)
    requires Add(rx, ra) == Mul(Add(x, a), q)
    ensures Add(Mul(x, rx), Mul(a, ra)) == Mul(Add(x, a), Add(ra, Mul(x, q)))
  {
    var d := Add(x, a);
    MulDistributes(d, ra, Mul(x, q));
    MulDistributes(ra, x, a);
    MulAssociates(d, x, q);
    MulCommutes(d, x);
    MulAssociates(x, d, q);
    MulDistributes(x, rx, ra);
    // d ra = x ra + a ra and d x q = x rx + x ra
    AddLaws(Mul(x, ra), Mul(a, ra), 0);
    AddLaws(Mul(x, rx), Mul(x, ra), 0);
    Cancel(Mul(a, ra), Mul(x, ra), Mul(x, rx));
    AddLaws(Mul(a, ra), Mul(x, rx), 0);
  }

  lemma {:induction false} TooManyRoots(p: Poly, roots: seq<Element>, x: Element)
    requires |p| <= |roots| && NoDuplicates(roots)
    requires forall i :: 0 <= i < |roots| ==> Eval(p, roots[i]) == 0
    ensures Eval(p, x) == 0
    decreases |p|
  {
    if p != [] {
      var a := roots[0];
      var q := Quotient(p, a);
      var others := roots[1..];
      forall i | 0 <= i < |others| ensures Eval(q, others[i]) == 0 {
        var b := others[i];
        assert b == roots[i + 1] && b != a;
        Division(p, a, b);
        AddLaws(0, 0, 0);
        NoZeroDivisors(Add(b, a), Eval(q, b));
        Cancel(b, a, 0);
        AddIsZero(b, a);
      }
      assert NoDuplicates(others);
      TooManyRoots(q, others, x);
      Division(p, a, x);
      MulUnits(Add(x, a));
      AddLaws(Eval(p, x), 0, 0);
    }
  }

  lemma AddIsZero(a: Element, b: Element)
    ensures Add(a, b) == 0 <==> a == b
  {
    Cancel(a, b, 0);
    AddLaws(a, 0, 0);
    AddLaws(b, 0, 0);
  }

  /** Agreement at as many points as there are coefficients is agreement everywhere. */
  lemma Uniqueness(p: Poly, q: Poly, points: seq<Element>, x: Element)
    requires |p| == |q| <= |points| && NoDuplicates(points)
    requires forall i :: 0 <= i < |points| ==> Eval(p, points[i]) == Eval(q, points[i])
    ensures Eval(p, x) == Eval(q, x)
  {
    forall i | 0 <= i < |points| ensures Eval(Plus(p, q), points[i]) == 0 {
      AgreeIff(p, q, points[i]);
    }
    TooManyRoots(Plus(p, q), points, x);
    AgreeIff(p, q, x);
  }

  lemma AgreeIff(p: Poly, q: Poly, x: Element)
    requires |p| == |q|
    ensures Eval(Plus(p, q), x) == 0 <==> Eval(p, x) == Eval(q, x)
  {
    EvalPlus(p, q, x);
    AddIsZero(Eval(p, x), Eval(q, x));
  }

  // ---- interpolation -----------------------------------------------------------------

  /** (x - a) p. */
  function TimesRoot(p: Poly, a: Element): (r: Poly)
    ensures |r| == |p| + 1
  {
    Plus([0] + p, Scale(a, p) + [0])
  }

  lemma EvalTimesRoot(p: Poly, a: Element, x: Element)
    ensures Eval(TimesRoot(p, a), x) == Mul(Add(x, a), Eval(p, x))
  {
    EvalPlus([0] + p, Scale(a, p) + [0], x);
    EvalPad(Scale(a, p), x);
    EvalScale(a, p, x);
    assert ([0] + p)[1..] == p;
    AddLaws(Mul(x, Eval(p, x)), 0, 0);
    MulDistributes(Eval(p, x), x, a);
  }

  /** The monic polynomial whose roots are `xs`. */
  function Vanishing(xs: seq<Element>): (p: Poly)
    ensures |p| == |xs| + 1
  {
    if xs == [] then [1] else TimesRoot(Vanishing(xs[..|xs| - 1]), xs[|xs| - 1])
  }

  lemma {:induction false} VanishingRoots(xs: seq<Element>, x: Element)
    ensures Eval(Vanishing(xs), x) == 0 <==> x in xs
  {
    if xs == [] {
      MulUnits(x);
      AddLaws(1, 0, 0);
      assert [1][1..] == [];
    } else {
      var init, last := xs[..|xs| - 1], xs[|xs| - 1];
      VanishingRoots(init, x);
      EvalTimesRoot(Vanishing(init), last, x);
      AddIsZero(x, last);
      assert xs == init + [last];
      if x == last {
        MulUnits(Eval(Vanishing(init), x));
      } else {
        MulUnits(Add(x, last));
        if Mul(Add(x, last), Eval(Vanishing(init), x)) == 0 {
          NoZeroDivisors(Add(x, last), Eval(Vanishing(init), x));
        }
      }
    }
  }

  /** Newton's step: a multiple of `v` added, so that the value at `x` is `y`. */
  function Corrected(before: Poly, v: Poly, x: Element, y: Element): (p: Poly)
    requires |v| == |before| + 1
    ensures |p| == |v|
  {
    Plus(before + [0], Scale(Mul(Add(y, Eval(before, x)), Inverse(Eval(v, x))), v))
  }

  /** The polynomial with |xs| coefficients through the points (xs[i], ys[i]), in Newton's form. */
  function Interpolate(xs: seq<Element>, ys: seq<Element>): (p: Poly)
    requires |xs| == |ys|
    ensures |p| == |xs|
  {
    if xs == [] then []
    else
      var n := |xs| - 1;
      Corrected(Interpolate(xs[..n], ys[..n]), Vanishing(xs[..n]), xs[n], ys[n])
  }

  lemma EvalNewton(before: Poly, c: Element, v: Poly, x: Element)
    requires |v| == |before| + 1
    ensures Eval(Plus(before + [0], Scale(c, v)), x) == Add(Eval(before, x), Mul(c, Eval(v, x)))
  {
    EvalPlus(before + [0], Scale(c, v), x);
    EvalPad(before, x);
    EvalScale(c, v, x);
  }

  lemma {:induction false} InterpolateThrough(xs: seq<Element>, ys: seq<Element>, i: nat)
    requires |xs| == |ys| && NoDuplicates(xs) && i < |xs|
    ensures Eval(Interpolate(xs, ys), xs[i]) == ys[i]
    decreases |xs|
  {
    var n := |xs| - 1;
    var before, v := Interpolate(xs[..n], ys[..n]), Vanishing(xs[..n]);
    VanishingRoots(xs[..n], xs[i]);
    if i < n {
      assert xs[i] == xs[..n][i] && ys[i] == ys[..n][i];
      InterpolateThrough(xs[..n], ys[..n], i);
      OldPoint(before, v, xs[n], ys[n], xs[i]);
    } else {
      NewPoint(before, v, xs[n], ys[n]);
    }
  }

  /** Where `v` vanishes the step changes nothing. */
  lemma OldPoint(before: Poly, v: Poly, x: Element, y: Element, z: Element)
    requires |v| == |before| + 1 && Eval(v, z) == 0
    ensures Eval(Corrected(before, v, x, y), z) == Eval(before, z)
  {
    var c := Mul(Add(y, Eval(before, x)), Inverse(Eval(v, x)));
    EvalNewton(before, c, v, z);
    NothingAdded(Eval(before, z), c);
  }

  lemma NewPoint(before: Poly, v: Poly, x: Element, y: Element)
    requires |v| == |before| + 1 && Eval(v, x) != 0
    ensures Eval(Corrected(before, v, x, y), x) == y
  {
    EvalNewton(before, Mul(Add(y, Eval(before, x)), Inverse(Eval(v, x))), v, x);
    NewtonStep(y, Eval(before, x), Eval(v, x));
  }

  lemma NothingAdded(y: Element, c: Element)
    ensures Add(y, Mul(c, 0)) == y
  {
    MulUnits(c);
    AddLaws(y, 0, 0);
  }

  lemma NewtonStep(y: Element, b: Element, v: Element)
    requires v != 0
    ensures Add(b, Mul(Mul(Add(y, b), Inverse(v)), v)) == y
  {
    var d := Add(y, b);
    MulAssociates(d, Inverse(v), v);
    MulCommutes(Inverse(v), v);
    InverseLaw(v);
    MulUnits(d);
    AddLaws(y, b, 0);
    Cancel(b, y, 0);
  }
}

/**
 * The field with 256 elements of the Reed-Solomon library (`galois_8`):
 * polynomials over two elements modulo x^8 + x^4 + x^3 + x^2 + 1, written as
 * the numbers 0 to 255 whose binary digits are the coefficients.
 */
module GF256 {
  type Element = x: nat | x < 256

  // ---- exclusive or ------------------------------------------------------------

  function Xor(a: nat, b: nat): nat {
    if a == 0 && b == 0 then 0
    else (if a % 2 != b % 2 then 1 else 0) + 2 * Xor(a / 2, b / 2)
  }

  lemma {:induction false} XorCommutes(a: nat, b: nat)
    ensures Xor(a, b) == Xor(b, a)
  {
    if a != 0 || b != 0 {
      XorCommutes(a / 2, b / 2);
    }
  }

  lemma XorDigits(a: nat, b: nat)
    ensures Xor(a, b) % 2 == (if a % 2 != b % 2 then 1 else 0) && Xor(a, b) / 2 == Xor(a / 2, b / 2)
  {
  }

  lemma {:induction false} XorAssociates(a: nat, b: nat, c: nat)
    ensures Xor(Xor(a, b), c) == Xor(a, Xor(b, c))
    decreases a + b + c
  {
    if a != 0 || b != 0 || c != 0 {
      XorAssociates(a / 2, b / 2, c / 2);
      XorDigits(a, b);
      XorDigits(b, c);
      XorDigits(Xor(a, b), c);
      XorDigits(a, Xor(b, c));
    }
  }

  lemma {:induction false} XorZero(a: nat)
    ensures Xor(a, 0) == a && Xor(0, a) == a && Xor(a, a) == 0
  {
    if a != 0 {
      XorZero(a / 2);
    }
  }

  function Pow2(n: nat): nat {
    if n == 0 then 1 else 2 * Pow2(n - 1)
  }

  function Digit(h: bool, n: nat): nat {
    if h then Pow2(n) else 0
  }

  lemma {:induction false} XorBound(a: nat, b: nat, n: nat)
    requires a < Pow2(n) && b < Pow2(n)
    ensures Xor(a, b) < Pow2(n)
  {
    if n > 0 {
      XorBound(a / 2, b / 2, n - 1);
      XorDigits(a, b);
    }
  }

  /** A digit above the low `n` stays where it is. */
  lemma {:induction false} XorTop(a: nat, n: nat)
    requires a < Pow2(n)
    ensures Xor(Pow2(n), a) == Pow2(n) + a
  {
    if n == 0 {
      XorZero(1);
    } else {
      XorTop(a / 2, n - 1);
      TopStep(Pow2(n - 1), a);
    }
  }

  lemma TopStep(p: nat, a: nat)
    requires Xor(p, a / 2) == p + a / 2
    ensures Xor(2 * p, a) == 2 * p + a
  {
    XorDigits(2 * p, a);
    DoubledTop(p, a, Xor(2 * p, a));
  }

  lemma DoubledTop(p: nat, a: nat, x: nat)
    requires x % 2 == a % 2 && x / 2 == p + a / 2
    ensures x == 2 * p + a
  {
  }

  function Add(a: Element, b: Element): Element {
    XorBound(a, b, 8);
    assert Pow2(8) == 256;
    Xor(a, b)
  }

  lemma AddLaws(a: Element, b: Element, c: Element)
    ensures Add(a, b) == Add(b, a)
    ensures Add(Add(a, b), c) == Add(a, Add(b, c))
    ensures Add(a, 0) == a && Add(0, a) == a && Add(a, a) == 0
  {
    XorCommutes(a, b);
    XorAssociates(a, b, c);
    XorZero(a);
  }

  lemma Regroup(p: Element, q: Element, r: Element, s: Element)
    ensures Add(Add(p, q), Add(r, s)) == Add(Add(p, r), Add(q, s))
  {
    AddLaws(p, q, Add(r, s));
    AddLaws(q, r, s);
    AddLaws(r, q, s);
    AddLaws(p, r, Add(q, s));
  }

  /** In characteristic two everything is its own negative. */
  lemma Cancel(p: Element, q: Element, r: Element)
    ensures Add(Add(p, q), Add(q, r)) == Add(p, r)
    ensures Add(p, Add(p, q)) == q
  {
    AddLaws(p, q, Add(q, r));
    AddLaws(q, q, r);
    AddLaws(p, p, q);
    AddLaws(q, p, p);
    AddLaws(r, q, q);
  }

  // ---- multiplication by x --------------------------------------------------------

  function XTime(a: Element): Element {
    if a < 128 then 2 * a else Add(2 * a - 256, 29)
  }

  lemma XorDouble(a: nat, b: nat)
    ensures Xor(2 * a, 2 * b) == 2 * Xor(a, b)
  {
  }

  lemma XTimeAdd(a: Element, b: Element)
    ensures XTime(Add(a, b)) == Add(XTime(a), XTime(b))
  {
    var h, k := a >= 128, b >= 128;
    var u, v := if h then a - 128 else a, if k then b - 128 else b;
    TopAdd(h, u, k, v);
    XorDouble(u, v);
    XTimeTop(h, u);
    XTimeTop(k, v);
    XTimeTop(h != k, Xor(u, v));
    Reduce(h, 2 * u, k, 2 * v);
  }

  function Top(h: bool): Element {
    if h then 128 else 0
  }

  lemma TopAdd(h: bool, u: Element, k: bool, v: Element)
    requires u < 128 && v < 128
    ensures Add(Top(h) + u, Top(k) + v) == Top(h != k) + Add(u, v)
    ensures Add(u, v) < 128
  {
    assert Pow2(7) == 128;
    XorBound(u, v, 7);
    TopIsAdded(h, u);
    TopIsAdded(k, v);
    TopIsAdded(h != k, Add(u, v));
    Regroup(Top(h), u, Top(k), v);
    TopsAdd(h, k);
  }

  lemma TopsAdd(h: bool, k: bool)
    ensures Add(Top(h), Top(k)) == Top(h != k)
  {
    AddLaws(Top(h), Top(k), 0);
    AddLaws(Top(k), Top(h), 0);
  }

  lemma TopIsAdded(h: bool, u: Element)
    requires u < 128
    ensures Add(Top(h), u) == Top(h) + u
  {
    assert Pow2(7) == 128;
    XorTop(u, 7);
    XorZero(u);
  }

  lemma XTimeTop(h: bool, u: nat)
    requires u < 128
    ensures XTime(Top(h) + u) == if h then Add(2 * u, 29) else 2 * u
  {
  }

  /** Adding 29 on either side adds it to the sum, and twice is never. */
  lemma Reduce(h: bool, p: Element, k: bool, q: Element)
    ensures Add(if h then Add(p, 29) else p, if k then Add(q, 29) else q) ==
            if h != k then Add(Add(p, q), 29) else Add(p, q)
  {
    if h && k {
      Regroup(p, 29, q, 29);
      AddLaws(29, 29, 29);
      AddLaws(Add(p, q), 0, 0);
    } else if h {
      AddLaws(p, 29, q);
      AddLaws(29, q, p);
      AddLaws(p, q, 29);
    } else if k {
      AddLaws(p, q, 29);
    }
  }

  // ---- shift-and-add multiplication ---------------------------------------------------

  function When(b: nat, a: Element): Element {
    if b % 2 == 1 then a else 0
  }

  /** The product with the low `n` digits of `b`. */
  function MulDigits(a: Element, b: nat, n: nat): Element {
    if n == 0 then 0 else Add(When(b, a), XTime(MulDigits(a, b / 2, n - 1)))
  }

  function Mul(a: Element, b: Element): Element {
    MulDigits(a, b, 8)
  }

  lemma {:induction false} AddRight(a: Element, b: nat, c: nat, n: nat)
    ensures MulDigits(a, Xor(b, c), n) == Add(MulDigits(a, b, n), MulDigits(a, c, n))
  {
    AddLaws(0, 0, 0);
    if n > 0 {
      var p, q := MulDigits(a, b / 2, n - 1), MulDigits(a, c / 2, n - 1);
      AddRight(a, b / 2, c / 2, n - 1);
      XorDigits(b, c);
      XTimeAdd(p, q);
      AddLaws(a, 0, 0);
      Regroup(When(b, a), XTime(p), When(c, a), XTime(q));
      assert When(Xor(b, c), a) == Add(When(b, a), When(c, a));
    }
  }

  lemma {:induction false} AddLeft(a: Element, b: Element, c: nat, n: nat)
    ensures MulDigits(Add(a, b), c, n) == Add(MulDigits(a, c, n), MulDigits(b, c, n))
  {
    AddLaws(0, 0, 0);
    if n > 0 {
      var p, q := MulDigits(a, c / 2, n - 1), MulDigits(b, c / 2, n - 1);
      AddLeft(a, b, c / 2, n - 1);
      XTimeAdd(p, q);
      Regroup(When(c, a), XTime(p), When(c, b), XTime(q));
    }
  }

  lemma {:induction false} XTimeLeft(a: Element, c: nat, n: nat)
    ensures MulDigits(XTime(a), c, n) == XTime(MulDigits(a, c, n))
  {
    if n > 0 {
      var p := MulDigits(a, c / 2, n - 1);
      XTimeLeft(a, c / 2, n - 1);
      XTimeAdd(When(c, a), XTime(p));
    }
  }

  lemma {:induction false} ZeroLeft(b: nat, n: nat)
    ensures MulDigits(0, b, n) == 0
  {
    if n > 0 {
      ZeroLeft(b / 2, n - 1);
      AddLaws(0, 0, 0);
    }
  }

  lemma LowDigit(a: Element)
    ensures a == Add(a % 2, XTime(a / 2))
    ensures XTime(a / 2) == 2 * (a / 2)
  {
    XorZero(a / 2);
    XorDigits(a % 2, 2 * (a / 2));
  }

  lemma {:induction false} OneLeft(b: Element, n: nat)
    requires n <= 8 && b < Pow2(n)
    ensures MulDigits(1, b, n) == b
  {
    if n > 0 {
      OneLeft(b / 2, n - 1);
      LowDigit(b);
    }
  }

  lemma {:induction false} CommuteDigits(a: Element, b: Element, n: nat)
    requires n <= 8 && a < Pow2(n)
    ensures MulDigits(b, a, n) == Mul(a, b)
  {
    ZeroLeft(b, 8);
    if n > 0 {
      CommuteDigits(a / 2, b, n - 1);
      XTimeLeft(a / 2, b, 8);
      LowDigit(a);
      AddLeft(a % 2, XTime(a / 2), b, 8);
      assert Pow2(8) == 256;
      OneLeft(b, 8);
    }
  }

  lemma {:induction false} SwapDigits(a: Element, b: nat, c: Element, n: nat)
    ensures Mul(MulDigits(a, b, n), c) == MulDigits(Mul(a, c), b, n)
  {
    ZeroLeft(c, 8);
    if n > 0 {
      var rest := MulDigits(a, b / 2, n - 1);
      SwapDigits(a, b / 2, c, n - 1);
      XTimeLeft(rest, c, 8);
      AddLeft(When(b, a), XTime(rest), c, 8);
    }
  }

  // ---- the field laws -----------------------------------------------------------

  lemma MulCommutes(a: Element, b: Element)
    ensures Mul(a, b) == Mul(b, a)
  {
    assert Pow2(8) == 256;
    CommuteDigits(a, b, 8);
  }

  lemma MulAssociates(a: Element, b: Element, c: Element)
    ensures Mul(Mul(a, b), c) == Mul(a, Mul(b, c))
  {
    MulCommutes(a, b);
    SwapDigits(b, a, c, 8);
    MulCommutes(Mul(b, c), a);
  }

  lemma MulDistributes(a: Element, b: Element, c: Element)
    ensures Mul(a, Add(b, c)) == Add(Mul(a, b), Mul(a, c))
    ensures Mul(Add(b, c), a) == Add(Mul(b, a), Mul(c, a))
  {
    AddRight(a, b, c, 8);
    AddLeft(b, c, a, 8);
  }

  lemma MulUnits(a: Element)
    ensures Mul(a, 1) == a && Mul(1, a) == a && Mul(a, 0) == 0 && Mul(0, a) == 0
  {
    assert Pow2(8) == 256;
    OneLeft(a, 8);
    ZeroLeft(a, 8);
    MulCommutes(a, 1);
    MulCommutes(a, 0);
  }

  // ---- inverses ------------------------------------------------------------------

  function Square(a: Element): Element {
    Mul(a, a)
  }

  lemma SquareAdd(a: Element, b: Element)
    ensures Square(Add(a, b)) == Add(Square(a), Square(b))
  {
    MulDistributes(Add(a, b), a, b);
    MulDistributes(a, a, b);
    MulDistributes(b, a, b);
    MulCommutes(a, b);
    Cancel(Mul(a, a), Mul(a, b), Mul(b, b));
  }

  lemma Interchange(a: Element, b: Element, c: Element, d: Element)
    ensures Mul(Mul(a, b), Mul(c, d)) == Mul(Mul(a, c), Mul(b, d))
  {
    MulAssociates(a, b, Mul(c, d));
    MulAssociates(b, c, d);
    MulCommutes(b, c);
    MulAssociates(c, b, d);
    MulAssociates(a, c, Mul(b, d));
  }

  /** `a` to the power 2^n. */
  function Frobenius(a: Element, n: nat): Element {
    if n == 0 then a else Square(Frobenius(a, n - 1))
  }

  lemma {:induction false} FrobeniusAdd(a: Element, b: Element, n: nat)
    ensures Frobenius(Add(a, b), n) == Add(Frobenius(a, n), Frobenius(b, n))
  {
    if n > 0 {
      FrobeniusAdd(a, b, n - 1);
      SquareAdd(Frobenius(a, n - 1), Frobenius(b, n - 1));
    }
  }

  lemma {:induction false} FrobeniusMul(a: Element, b: Element, n: nat)
    ensures Frobenius(Mul(a, b), n) == Mul(Frobenius(a, n), Frobenius(b, n))
  {
    if n > 0 {
      var p, q := Frobenius(a, n - 1), Frobenius(b, n - 1);
      FrobeniusMul(a, b, n - 1);
      Interchange(p, q, p, q);
    }
  }

  lemma XTimeIsMul(a: Element)
    ensures XTime(a) == Mul(2, a)
  {
    assert Pow2(8) == 256;
    XTimeLeft(1, a, 8);
    OneLeft(a, 8);
    assert XTime(1) == 2;
  }

  // ---- squaring, digit by digit -------------------------------------------------------

  function Value(digits: seq<bool>): nat {
    if digits == [] then 0 else (if digits[0] then 1 else 0) + 2 * Value(digits[1..])
  }

  lemma {:induction false} ValueXor(s: seq<bool>, t: seq<bool>)
    requires |s| == |t|
    ensures Xor(Value(s), Value(t)) == Value(seq(|s|, i requires 0 <= i < |s| => s[i] != t[i]))
  {
    if s != [] {
      ValueXor(s[1..], t[1..]);
      XorDigits(Value(s), Value(t));
      ValueCons(s);
      ValueCons(t);
      var both := seq(|s|, i requires 0 <= i < |s| => s[i] != t[i]);
      ValueCons(both);
      assert both[1..] == seq(|s[1..]|, i requires 0 <= i < |s[1..]| => s[1..][i] != t[1..][i]);
    }
  }

  lemma ValueCons(s: seq<bool>)
    requires s != []
    ensures Value(s) % 2 == (if s[0] then 1 else 0) && Value(s) / 2 == Value(s[1..])
    ensures Value(s) == (if s[0] then 1 else 0) + 2 * Value(s[1..])
  {
  }

  lemma {:induction false} ValueTop(s: seq<bool>)
    requires |s| > 0
    ensures Value(s) == Value(s[..|s| - 1]) + Digit(s[|s| - 1], |s| - 1)
    ensures Value(s) < Pow2(|s|)
  {
    if |s| > 1 {
      ValueTop(s[1..]);
      assert s[1..][..|s| - 2] == s[..|s| - 1][1..];
    } else {
      assert s[1..] == [] && s[..0] == [];
      assert Pow2(1) == 2 * Pow2(0);
    }
  }

  lemma ValueByte(s: seq<bool>)
    requires |s| == 8
    ensures Value(s) < 256
  {
    ValueTop(s);
    assert Pow2(8) == 256;
  }

  predicate IsByte(s: seq<bool>) {
    |s| == 8
  }

  function XTimeDigits(s: seq<bool>): seq<bool>
    requires IsByte(s)
  {
    [s[7], s[0], s[1] != s[7], s[2] != s[7], s[3] != s[7], s[4], s[5], s[6]]
  }

  function SquareDigits(s: seq<bool>): seq<bool>
    requires IsByte(s)
  {
    [(s[0] != s[4]) != (s[6] != s[7]), s[7], (s[1] != s[4]) != (s[5] != s[6]), s[4] != s[6],
     (s[2] != s[4]) != (s[5] != s[7]), s[5], (s[3] != s[5]) != s[6], s[6]]
  }

  lemma Value29()
    ensures Value([true, false, true, true, true, false, false, false]) == 29
  {
    assert Value([true, false, false, false]) == 1;
    assert [true, false, true, true, true, false, false, false][4..] == [true, false, false, false];
  }

  lemma XTimeByDigits(s: seq<bool>)
    requires IsByte(s)
    ensures Value(s) < 256 && XTime(Value(s)) == Value(XTimeDigits(s))
  {
    var low, shifted := s[..7], [false] + s[..7];
    ByteParts(s, low);
    ShiftedDigits(low, shifted);
    XTimeTop(s[7], Value(low));
    if s[7] {
      ReducedDigits(s, shifted);
    } else {
      assert XTimeDigits(s) == shifted;
    }
  }

  lemma ByteParts(s: seq<bool>, low: seq<bool>)
    requires IsByte(s) && low == s[..7]
    ensures Value(s) == Top(s[7]) + Value(low) && Value(low) < 128
  {
    assert Pow2(7) == 128;
    ValueTop(s);
    ValueTop(low);
  }

  lemma ShiftedDigits(low: seq<bool>, shifted: seq<bool>)
    requires shifted == [false] + low
    ensures Value(shifted) == 2 * Value(low)
  {
    assert shifted[1..] == low;
  }

  lemma ReducedDigits(s: seq<bool>, shifted: seq<bool>)
    requires IsByte(s) && s[7] && shifted == [false] + s[..7]
    ensures Xor(Value(shifted), 29) == Value(XTimeDigits(s))
  {
    var poly := [true, false, true, true, true, false, false, false];
    Value29();
    ValueXor(shifted, poly);
    assert XTimeDigits(s) == seq(8, i requires 0 <= i < 8 => shifted[i] != poly[i]);
  }

  lemma SquareStep(a: Element)
    ensures Square(a) == Add(a % 2, XTime(XTime(Square(a / 2))))
  {
    var h := a / 2;
    LowDigit(a);
    SquareAdd(a % 2, XTime(h));
    XTimeLeft(h, XTime(h), 8);
    MulCommutes(h, XTime(h));
    XTimeLeft(h, h, 8);
    MulUnits(a % 2);
  }

  lemma {:induction false} SquareByDigits(s: seq<bool>)
    requires IsByte(s)
    ensures Value(s) < 256 && Square(Value(s)) == Value(SquareDigits(s))
    decreases Value(s)
  {
    ValueByte(s);
    if Value(s) == 0 {
      AllClear(s);
      MulUnits(0);
      assert SquareDigits(s) == s;
    } else {
      var half := s[1..] + [false];
      HalfDigits(s, half);
      SquareByDigits(half);
      SquareStep(Value(s));
      var t := SquareDigits(half);
      XTimeByDigits(t);
      XTimeByDigits(XTimeDigits(t));
      SquareDigitsStep(s, half, XTimeDigits(XTimeDigits(t)));
    }
  }

  lemma HalfDigits(s: seq<bool>, half: seq<bool>)
    requires IsByte(s) && half == s[1..] + [false]
    ensures Value(half) == Value(s) / 2
  {
    ValueTop(half);
    assert half[..7] == s[1..];
    ValueCons(s);
  }

  lemma TwiceDigits(t: seq<bool>)
    requires IsByte(t)
    ensures XTimeDigits(XTimeDigits(t)) ==
            [t[6], t[7], t[0] != t[6], (t[1] != t[7]) != t[6], (t[2] != t[7]) != t[6], t[3] != t[7], t[4], t[5]]
  {
  }

  /** The digits of x^2 (a/2)^2. */
  lemma TwiceOfHalf(s: seq<bool>, half: seq<bool>)
    requires IsByte(s) && half == s[1..] + [false]
    ensures XTimeDigits(XTimeDigits(SquareDigits(half))) ==
            [(s[4] != s[6]) != s[7], s[7], ((s[1] != s[5]) != s[7]) != ((s[4] != s[6]) != s[7]),
             (false != s[7]) != ((s[4] != s[6]) != s[7]),
             (((s[2] != s[5]) != (s[6] != s[7])) != s[7]) != ((s[4] != s[6]) != s[7]),
             (s[5] != s[7]) != s[7], (s[3] != s[5]) != s[6], s[6]]
  {
    TwiceDigits(SquareDigits(half));
  }

  lemma SquareDigitsStep(s: seq<bool>, half: seq<bool>, twice: seq<bool>)
    requires IsByte(s) && half == s[1..] + [false]
    requires twice == XTimeDigits(XTimeDigits(SquareDigits(half)))
    ensures Value(twice) < 256 && Add(Value(s) % 2, Value(twice)) == Value(SquareDigits(s))
  {
    TwiceOfHalf(s, half);
    AddsUp(s, twice);
    ValueByte(twice);
    UnitPlus(s, twice);
  }

  lemma UnitPlus(s: seq<bool>, twice: seq<bool>)
    requires IsByte(s) && IsByte(twice)
    ensures Xor(Value(s) % 2, Value(twice)) ==
            Value(seq(8, i requires 0 <= i < 8 => [s[0], false, false, false, false, false, false, false][i] != twice[i]))
  {
    var unit := [s[0], false, false, false, false, false, false, false];
    AllClearValue(unit[1..]);
    ValueXor(unit, twice);
    ValueCons(s);
  }

  lemma AddsUp(s: seq<bool>, twice: seq<bool>)
    requires IsByte(s) && IsByte(twice)
    requires twice == [(s[4] != s[6]) != s[7], s[7], ((s[1] != s[5]) != s[7]) != ((s[4] != s[6]) != s[7]),
                       (false != s[7]) != ((s[4] != s[6]) != s[7]),
                       (((s[2] != s[5]) != (s[6] != s[7])) != s[7]) != ((s[4] != s[6]) != s[7]),
                       (s[5] != s[7]) != s[7], (s[3] != s[5]) != s[6], s[6]]
    ensures seq(8, i requires 0 <= i < 8 => [s[0], false, false, false, false, false, false, false][i] != twice[i]) == SquareDigits(s)
  {
  }

  lemma {:induction false} AllClear(s: seq<bool>)
    requires Value(s) == 0
    ensures forall i :: 0 <= i < |s| ==> !s[i]
  {
    if s != [] {
      AllClear(s[1..]);
    }
  }

  lemma {:induction false} AllClearValue(s: seq<bool>)
    requires forall i :: 0 <= i < |s| ==> !s[i]
    ensures Value(s) == 0
  {
    if s != [] {
      AllClearValue(s[1..]);
    }
  }

  lemma {:induction false} DigitsOf(a: nat, n: nat) returns (s: seq<bool>)
    requires a < Pow2(n)
    ensures |s| == n && Value(s) == a
  {
    if n == 0 {
      s := [];
    } else {
      var rest := DigitsOf(a / 2, n - 1);
      s := [a % 2 == 1] + rest;
    }
  }

  /** Zero and one are the only elements equal to their square. */
  lemma IdempotentIsUnit(e: Element)
    requires Square(e) == e
    ensures e == 0 || e == 1
  {
    assert Pow2(8) == 256;
    var s := DigitsOf(e, 8);
    SquareByDigits(s);
    ValueInjective(s, SquareDigits(s));
    assert forall i :: 1 <= i < 8 ==> !s[i] by {
      assert s[1] == s[7] && s[7] == s[6] && s[3] == (s[4] != s[6]) && s[6] == ((s[3] != s[5]) != s[6]);
      assert s[0] == ((s[0] != s[4]) != (s[6] != s[7]));
      assert s[2] == ((s[1] != s[4]) != (s[5] != s[6])) && s[4] == ((s[2] != s[4]) != (s[5] != s[7]));
    }
    AllClearValue(s[1..]);
  }

  lemma {:induction false} ValueInjective(s: seq<bool>, t: seq<bool>)
    requires |s| == |t| && Value(s) == Value(t)
    ensures s == t
  {
    if s != [] {
      ValueInjective(s[1..], t[1..]);
      assert s == [s[0]] + s[1..] && t == [t[0]] + t[1..];
    }
  }

  // ---- inverses ------------------------------------------------------------------------

  function FrobeniusDigits(s: seq<bool>, n: nat): (r: seq<bool>)
    requires IsByte(s)
    ensures IsByte(r)
  {
    if n == 0 then s else SquareDigits(FrobeniusDigits(s, n - 1))
  }

  lemma {:induction false} FrobeniusByDigits(s: seq<bool>, n: nat)
    requires IsByte(s)
    ensures Value(s) < 256 && Frobenius(Value(s), n) == Value(FrobeniusDigits(s, n))
  {
    ValueByte(s);
    if n > 0 {
      FrobeniusByDigits(s, n - 1);
      SquareByDigits(FrobeniusDigits(s, n - 1));
    }
  }

  /** x^256 = x, by eight squarings. */
  lemma GeneratorFixed()
    ensures Frobenius(2, 8) == 2
  {
    var x := [false, true, false, false, false, false, false, false];
    AllClearValue(x[2..]);
    assert x[1..][1..] == x[2..];
    assert Value(x[1..]) == 1 && Value(x) == 2;
    FrobeniusByDigits(x, 8);
    EightSquarings(x);
  }

  lemma EightSquarings(x: seq<bool>)
    requires x == [false, true, false, false, false, false, false, false]
    ensures FrobeniusDigits(x, 8) == x
  {
    assert SquareDigits([false, true, false, false, false, false, false, false]) ==
           [false, false, true, false, false, false, false, false];
    assert SquareDigits([false, false, true, false, false, false, false, false]) ==
           [false, false, false, false, true, false, false, false];
    assert SquareDigits([false, false, false, false, true, false, false, false]) ==
           [true, false, true, true, true, false, false, false];
    assert SquareDigits([true, false, true, true, true, false, false, false]) ==
           [false, false, true, true, false, false, true, false];
    assert SquareDigits([false, false, true, true, false, false, true, false]) ==
           [true, false, true, true, true, false, false, true];
    assert SquareDigits([true, false, true, true, true, false, false, true]) ==
           [true, true, true, true, true, false, true, false];
    assert SquareDigits([true, true, true, true, true, false, true, false]) ==
           [true, false, true, false, false, false, false, true];
    assert SquareDigits([true, false, true, false, false, false, false, true]) ==
           [false, true, false, false, false, false, false, false];
    assert FrobeniusDigits(x, 4) == SquareDigits(SquareDigits(SquareDigits(SquareDigits(x))));
    assert FrobeniusDigits(x, 8) ==
           SquareDigits(SquareDigits(SquareDigits(SquareDigits(FrobeniusDigits(x, 4)))));
  }

  lemma {:induction false} FrobeniusUnits(n: nat)
    ensures Frobenius(0, n) == 0 && Frobenius(1, n) == 1
  {
    if n > 0 {
      FrobeniusUnits(n - 1);
      MulUnits(0);
      MulUnits(1);
    }
  }

  lemma FrobeniusOfDigit(low: Element, n: nat)
    requires low == 0 || low == 1
    ensures Frobenius(low, n) == low
  {
    FrobeniusUnits(n);
  }

  lemma FrobeniusOfXTime(h: Element, x: Element, n: nat)
    requires x == 2
    ensures Frobenius(XTime(h), n) == Mul(Frobenius(x, n), Frobenius(h, n))
  {
    XTimeIsMul(h);
    FrobeniusMul(x, h, n);
  }

  /** A power 2^n that fixes x fixes every element: for n = 8, all of them. */
  lemma {:induction false} FrobeniusFixed(a: Element, x: Element, n: nat)
    requires x == 2 && Frobenius(x, n) == x
    ensures Frobenius(a, n) == a
  {
    if a == 0 {
      FrobeniusOfDigit(a, n);
    } else {
      var half, low := a / 2, a % 2;
      FrobeniusFixed(half, x, n);
      LowDigit(a);
      FrobeniusAdd(low, XTime(half), n);
      FrobeniusOfDigit(low, n);
      FrobeniusOfXTime(half, x, n);
      XTimeIsMul(half);
    }
  }

  /** The product of a^2, a^4, ..., a^(2^n). */
  function PowerProduct(a: Element, n: nat): Element {
    if n == 0 then 1 else Mul(PowerProduct(a, n - 1), Frobenius(a, n))
  }

  lemma {:induction false} SquareOfProduct(a: Element, n: nat)
    ensures Square(Mul(a, PowerProduct(a, n))) == PowerProduct(a, n + 1)
  {
    if n == 0 {
      MulUnits(a);
      MulUnits(Square(a));
    } else {
      SquareOfProduct(a, n - 1);
      var p, f := PowerProduct(a, n - 1), Frobenius(a, n);
      MulAssociates(a, p, f);
      Interchange(Mul(a, p), f, Mul(a, p), f);
    }
  }

  lemma {:induction false} Telescopes(a: Element, n: nat)
    ensures Frobenius(a, n + 1) == Mul(a, Mul(a, PowerProduct(a, n)))
  {
    if n == 0 {
      MulUnits(a);
    } else {
      Telescopes(a, n - 1);
      var p, f := PowerProduct(a, n - 1), Frobenius(a, n);
      MulAssociates(a, Mul(a, p), f);
      MulAssociates(a, p, f);
    }
  }

  /** a^254. */
  function Inverse(a: Element): Element {
    PowerProduct(a, 7)
  }

  lemma InverseLaw(a: Element)
    requires a != 0
    ensures Mul(a, Inverse(a)) == 1
  {
    var e := Mul(a, Inverse(a));
    SquareOfProduct(a, 7);
    GeneratorFixed();
    FrobeniusFixed(a, 2, 8);
    MulCommutes(Inverse(a), a);
    IdempotentIsUnit(e);
    Telescopes(a, 7);
    MulUnits(a);
  }

  lemma NoZeroDivisors(a: Element, b: Element)
    requires Mul(a, b) == 0
    ensures a == 0 || b == 0
  {
    if a != 0 {
      InverseLaw(a);
      MulCommutes(a, Inverse(a));
      MulAssociates(Inverse(a), a, b);
      MulUnits(b);
      MulUnits(Inverse(a));
    }
  }
}

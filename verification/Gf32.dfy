/** The field with 32 elements, polynomials in a root of x^5 + x^3 + 1 over two elements. Addition is
    exclusive or. */
module Gf32 {

  type Element = bv5

  /** Multiplication by the root, which generates all elements but zero. */
  function Times2(a: Element): Element {
    (a << 1) ^ (if a & 16 != 0 then 9 else 0)
  }

  /** Multiplication, bit by bit. */
  function Mul(a: Element, b: Element): Element {
    var a1 := Times2(a);
    var a2 := Times2(a1);
    var a3 := Times2(a2);
    var a4 := Times2(a3);
    (if b & 1 != 0 then a else 0) ^ (if b & 2 != 0 then a1 else 0) ^ (if b & 4 != 0 then a2 else 0)
    ^ (if b & 8 != 0 then a3 else 0) ^ (if b & 16 != 0 then a4 else 0)
  }

  lemma MulZero(a: Element)
    ensures Mul(a, 0) == 0 && Mul(0, a) == 0 && Mul(a, 1) == a && Mul(1, a) == a
  {
  }

  lemma MulCommutes(a: Element, b: Element)
    ensures Mul(a, b) == Mul(b, a)
  {
  }

  lemma Times2Moves(a: Element, b: Element)
    ensures Mul(Times2(a), b) == Times2(Mul(a, b))
  {
  }

  lemma Times2Linear(a: Element, b: Element)
    ensures Times2(a ^ b) == Times2(a) ^ Times2(b)
  {
  }

  // ---- powers of the root ----

  /** b times the i-th power of the root. */
  function Shifted(i: nat, b: Element): Element {
    if i == 0 then b else Times2(Shifted(i - 1, b))
  }

  function Exp(i: nat): Element {
    Shifted(i, 1)
  }

  lemma {:induction false} MulExp(i: nat, b: Element)
    ensures Mul(Exp(i), b) == Shifted(i, b)
  {
    if i == 0 {
      MulZero(b);
    } else {
      MulExp(i - 1, b);
      Times2Moves(Exp(i - 1), b);
    }
  }

  lemma {:induction false} ShiftedLinear(i: nat, a: Element, b: Element)
    ensures Shifted(i, a ^ b) == Shifted(i, a) ^ Shifted(i, b)
  {
    if i > 0 {
      ShiftedLinear(i - 1, a, b);
      Times2Linear(Shifted(i - 1, a), Shifted(i - 1, b));
    }
  }

  lemma {:induction false} ShiftedMoves(i: nat, a: Element, b: Element)
    ensures Mul(Shifted(i, a), b) == Shifted(i, Mul(a, b))
  {
    if i > 0 {
      ShiftedMoves(i - 1, a, b);
      Times2Moves(Shifted(i - 1, a), b);
    }
  }

  lemma {:induction false} ShiftedTwice(i: nat, j: nat, b: Element)
    ensures Shifted(i, Shifted(j, b)) == Shifted(i + j, b)
  {
    if i > 0 {
      ShiftedTwice(i - 1, j, b);
    }
  }

  /** The exponent that gives an element other than zero. */
  function Log(x: Element): nat {
    if x == 1 then 0
    else if x == 2 then 1
    else if x == 3 then 14
    else if x == 4 then 2
    else if x == 5 then 28
    else if x == 6 then 15
    else if x == 7 then 22
    else if x == 8 then 3
    else if x == 9 then 5
    else if x == 10 then 29
    else if x == 11 then 26
    else if x == 12 then 16
    else if x == 13 then 7
    else if x == 14 then 23
    else if x == 15 then 11
    else if x == 16 then 4
    else if x == 17 then 25
    else if x == 18 then 6
    else if x == 19 then 10
    else if x == 20 then 30
    else if x == 21 then 13
    else if x == 22 then 27
    else if x == 23 then 21
    else if x == 24 then 17
    else if x == 25 then 18
    else if x == 26 then 8
    else if x == 27 then 19
    else if x == 28 then 24
    else if x == 29 then 9
    else if x == 30 then 12
    else if x == 31 then 20
    else 0
  }

  /** All powers of the root below the 31st, which is one again. */
  lemma ExpValues()
    ensures Exp(0) == 1 && Exp(1) == 2 && Exp(2) == 4 && Exp(3) == 8 && Exp(4) == 16 && Exp(5) == 9 && Exp(6) == 18
    ensures Exp(7) == 13
    ensures Exp(8) == 26 && Exp(9) == 29 && Exp(10) == 19 && Exp(11) == 15 && Exp(12) == 30 && Exp(13) == 21
    ensures Exp(14) == 3 && Exp(15) == 6
    ensures Exp(16) == 12 && Exp(17) == 24 && Exp(18) == 25 && Exp(19) == 27 && Exp(20) == 31 && Exp(21) == 23
    ensures Exp(22) == 7 && Exp(23) == 14
    ensures Exp(24) == 28 && Exp(25) == 17 && Exp(26) == 11 && Exp(27) == 22 && Exp(28) == 5 && Exp(29) == 10
    ensures Exp(30) == 20
    ensures Exp(31) == 1
  {
  }

  lemma {:induction false} ExpLog(x: Element)
    requires x != 0
    ensures Log(x) < 31 && Exp(Log(x)) == x
  {
    ExpValues();
  }

  lemma {:induction false} LogExp(i: nat)
    requires i < 31
    ensures Exp(i) != 0 && Log(Exp(i)) == i
  {
    ExpValues();
  }

  // ---- field laws ----

  lemma {:induction false} MulDistributes(a: Element, b: Element, c: Element)
    ensures Mul(a, b ^ c) == Mul(a, b) ^ Mul(a, c)
  {
    if a == 0 {
      MulZero(b);
      MulZero(c);
      MulZero(b ^ c);
    } else {
      ExpLog(a);
      MulExp(Log(a), b);
      MulExp(Log(a), c);
      MulExp(Log(a), b ^ c);
      ShiftedLinear(Log(a), b, c);
    }
  }

  lemma {:induction false} MulAssociates(a: Element, b: Element, c: Element)
    ensures Mul(Mul(a, b), c) == Mul(a, Mul(b, c))
  {
    if a == 0 {
      MulZero(b);
      MulZero(c);
      MulZero(Mul(b, c));
    } else {
      ExpLog(a);
      MulExp(Log(a), b);
      MulExp(Log(a), Mul(b, c));
      ShiftedMoves(Log(a), b, c);
    }
  }

  lemma FullCircle(n: nat)
    requires n == 31
    ensures Exp(n) == 1
  {
    ExpValues();
  }

  lemma {:induction false} ExpAgain(i: nat, n: nat)
    requires n == 31
    ensures Exp(i + n) == Exp(i)
  {
    FullCircle(n);
    ShiftedTwice(i, n, 1);
  }

  /** The powers of the root repeat with period 31. */
  lemma {:induction false} ExpPeriod(i: nat)
    ensures Exp(i) == Exp(i % 31)
    decreases i
  {
    if i >= 31 {
      var k: nat := i - 31;
      ExpAgain(k, 31);
      ExpPeriod(k);
      assert k % 31 == i % 31;
    }
  }

  // ---- the tables ----

  /** Generate the tables of powers and logarithms. */
  method GenerateTables() returns (exp: seq<Element>, log: seq<int>)
    ensures |exp| == 31 && |log| == 32
    ensures forall i :: 0 <= i < 31 ==> exp[i] == Exp(i)
    ensures forall x: Element :: x != 0 ==> log[x as nat] == Log(x)
  {
    exp, log := [1], seq(32, i => -1)[1 := 0];
    var v: bv6 := 1;
    LogExp(0);
    for i := 1 to 31
      invariant |exp| == i && |log| == 32 && v < 32 && v as Element == Exp(i - 1)
      invariant forall j :: 0 <= j < i ==> exp[j] == Exp(j) && log[Exp(j) as nat] == j
    {
      v := v << 1;
      if v & 32 != 0 {
        v := v ^ 41;
      }
      NextPower(i);
      LogExp(i);
      forall j | 0 <= j < i ensures Exp(j) != Exp(i) {
        LogExp(j);
      }
      exp := exp + [v as Element];
      log := log[v as nat := i];
    }
    forall x: Element | x != 0 ensures log[x as nat] == Log(x) {
      ExpLog(x);
    }
  }

  lemma NextPower(i: nat)
    requires 0 < i
    ensures Exp(i) == Times2(Exp(i - 1))
  {
  }

  /** Multiplication through the tables. */
  function TableMul(x: Element, y: Element): Element {
    if x == 0 || y == 0 then 0 else Exp((Log(x) + Log(y)) % 31)
  }

  function TableDiv(x: Element, y: Element): Element
    requires y != 0
  {
    if x == 0 then 0 else Exp((Log(x) + 31 - Log(y)) % 31)
  }

  lemma {:induction false} MulOfPowers(i: nat, j: nat)
    ensures Mul(Exp(i), Exp(j)) == Exp(i + j) == Exp((i + j) % 31)
  {
    MulExp(i, Exp(j));
    ShiftedTwice(i, j, 1);
    ExpPeriod(i + j);
  }

  lemma {:induction false} TableMulIsMul(x: Element, y: Element)
    ensures TableMul(x, y) == Mul(x, y)
  {
    if x == 0 || y == 0 {
      MulZero(x);
      MulZero(y);
    } else {
      ExpLog(x);
      ExpLog(y);
      MulOfPowers(Log(x), Log(y));
    }
  }

  lemma {:induction false} TableDivIsInverse(x: Element, y: Element)
    requires y != 0
    ensures Mul(TableDiv(x, y), y) == x
  {
    if x == 0 {
      MulZero(y);
    } else {
      ExpLog(x);
      ExpLog(y);
      QuotientOfPowers(Log(x), Log(y));
    }
  }

  lemma {:induction false} QuotientOfPowers(i: nat, j: nat)
    requires i < 31 && j < 31
    ensures Mul(Exp((i + 31 - j) % 31), Exp(j)) == Exp(i)
  {
    var n := i + 31 - j;
    ExpPeriod(n);
    MulOfPowers(n, j);
    ExpPeriod(i);
  }
}

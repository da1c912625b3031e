/** Base 58 text for byte strings. */
module Base58 {
  import opened Options
  import opened Radix

  // ---- the precomputed buffer sizes suffice ----

  /** From one inequality between powers to all with the same or a better ratio of exponents. */
  lemma {:induction false} PowerBound(a: nat, b: nat, p: nat, q: nat, n: nat, m: nat)
    requires Pow(a, q) <= Pow(b, p) && q > 0 && q * m > p * n && b >= 2
    ensures Pow(a, n) < Pow(b, m)
  {
    if Pow(b, m) <= Pow(a, n) {
      PowMonotone(Pow(b, m), Pow(a, n), q);
      PowPow(b, m, q);
      PowPow(a, n, q);
      PowPow(a, q, n);
      assert n * q == q * n && m * q == q * m && p * n == n * p;
      PowMonotone(Pow(a, q), Pow(b, p), n);
      PowPow(b, p, n);
      PowStrict(b, p * n, m * q);
    }
  }

  lemma Ratio256To58()
    ensures Pow(256, 8) <= Pow(58, 11)
  {
  }

  /** 58 to the power of 4 * 15 + 11 is at most 256 to the power of 4 * 11 + 8. */
  lemma {:induction false} Ratio58To256(u: nat, v: nat, w: nat)
    requires u == 15 && v == 11 && w == 8
    ensures Pow(58, u * 4 + v) <= Pow(256, v * 4 + w)
  {
    var a, b, c, d := Pow(58, u), Pow(58, v), Pow(256, v), Pow(256, w);
    PowAdd(58, u * 4, v);
    PowPow(58, u, 4);
    PowAdd(256, v * 4, w);
    PowPow(256, v, 4);
    FourthPower(a);
    FourthPower(c);
  }

  lemma FourthPower(a: nat)
    ensures Pow(a, 4) == a * a * a * a
  {
    assert Pow(a, 4) == a * Pow(a, 3);
    assert Pow(a, 3) == a * Pow(a, 2);
    assert Pow(a, 2) == a * Pow(a, 1);
  }

  lemma {:induction false} EncodeBufferFits(n: nat)
    ensures Pow(256, n) < Pow(58, n * 138 / 100 + 1)
  {
    Ratio256To58();
    PowerBound(256, 58, 11, 8, n, n * 138 / 100 + 1);
  }

  lemma {:induction false} DecodeBufferFits(n: nat)
    ensures Pow(58, n) < Pow(256, n * 733 / 1000 + 1)
  {
    var u, v, w := 15, 11, 8;
    Ratio58To256(u, v, w);
    PowerBound(58, 256, v * 4 + w, u * 4 + v, n, n * 733 / 1000 + 1);
  }

  // ---- multiplying a digit buffer in place ----

  /** The last length digits hold the number: what is before them is zero, and they do not start with one. */
  ghost predicate Holds(base: nat, ds: seq<nat>, length: nat) {
    && IsDigits(base, ds) && length <= |ds|
    && (forall i :: 0 <= i < |ds| - length ==> ds[i] == 0)
    && (length > 0 ==> ds[|ds| - length] != 0)
  }

  lemma {:induction false} HoldsDigits(base: nat, ds: seq<nat>, length: nat)
    requires base >= 2 && Holds(base, ds, length)
    ensures ds[|ds| - length..] == Digits(base, Val(base, ds))
  {
    var n := |ds| - length;
    assert ds == ds[..n] + ds[n..];
    ValConcat(base, ds[..n], ds[n..]);
    ValZeroes(base, ds[..n]);
    ValDigits(base, ds[n..]);
  }

  /** A digit times mul, with what is carried in. */
  function Scaled(mul: nat, d: nat, carry: nat): nat {
    carry + mul * d
  }

  /** One digit further: the carry moves up. */
  lemma {:induction false} CarryStep(base: nat, mul: nat, ch: nat, before: seq<nat>, after: seq<nat>, d: nat,
                                     carry: nat)
    requires base >= 2 && |before| == |after|
    requires Val(base, before) * mul + ch == carry * Pow(base, |after|) + Val(base, after)
    ensures var c := Scaled(mul, d, carry);
            Val(base, [d] + before) * mul + ch
                == Quot(c, base) * Pow(base, |after| + 1) + Val(base, [Rem(c, base)] + after)
  {
    var p, c := Pow(base, |after|), Scaled(mul, d, carry);
    ValConcat(base, [d], before);
    ValConcat(base, [Rem(c, base)], after);
    ValOne(base, d);
    ValOne(base, Rem(c, base));
    DivMod(c, base);
    CarryArithmetic(base, mul, ch, Val(base, before), Val(base, after), d, carry, p, Quot(c, base), Rem(c, base));
  }

  lemma CarryArithmetic(base: nat, mul: nat, ch: nat, vb: nat, va: nat, d: nat, carry: nat, p: nat, q: nat, r: nat)
    requires vb * mul + ch == carry * p + va && carry + mul * d == q * base + r
    ensures (d * p + vb) * mul + ch == q * (base * p) + (r * p + va)
  {
    assert (d * p + vb) * mul == (mul * d) * p + vb * mul;
    assert (carry + mul * d) * p == carry * p + (mul * d) * p;
    assert (q * base + r) * p == q * (base * p) + r * p;
  }

  /** Without a carry left and with only zeroes above, the buffer has been multiplied. */
  lemma {:induction false} CarryDone(base: nat, mul: nat, ch: nat, before: seq<nat>, after: seq<nat>, k: nat,
                                     length: nat, carry: nat)
    requires base >= 2 && mul >= 1 && |before| == |after| && k <= |after| && before[..k] == after[..k]
    requires IsDigits(base, after)
    requires Holds(base, before, length) && Val(base, before) * mul + ch < Pow(base, |before|)
    requires Val(base, before[k..]) * mul + ch == carry * Pow(base, |after| - k) + Val(base, after[k..])
    requires (carry == 0 && |after| - k >= length) || k == 0
    ensures carry == 0 && Val(base, after) == Val(base, before) * mul + ch
  {
    if carry == 0 && |after| - k >= length {
      ZeroesAbove(base, before, after, k, length);
      assert carry * Pow(base, |after| - k) == 0;
    } else {
      WholeBuffer(base, mul, ch, before, after, carry);
    }
  }

  lemma {:induction false} ZeroesAbove(base: nat, before: seq<nat>, after: seq<nat>, k: nat, length: nat)
    requires |before| == |after| && k <= |after| && before[..k] == after[..k] && Holds(base, before, length)
    requires |after| - k >= length
    ensures Val(base, before) == Val(base, before[k..]) && Val(base, after) == Val(base, after[k..])
  {
    forall i | 0 <= i < k ensures after[i] == 0 && before[i] == 0 {
      assert after[i] == after[..k][i] == before[..k][i];
    }
    TrimZeroes(base, before, k);
    TrimZeroes(base, after, k);
  }

  lemma {:induction false} WholeBuffer(base: nat, mul: nat, ch: nat, before: seq<nat>, after: seq<nat>, carry: nat)
    requires |before| == |after| && Val(base, before) * mul + ch < Pow(base, |after|)
    requires Val(base, before[0..]) * mul + ch == carry * Pow(base, |after|) + Val(base, after[0..])
    ensures carry == 0 && Val(base, after) == Val(base, before) * mul + ch
  {
    assert before[0..] == before && after[0..] == after;
    if carry > 0 {
      MulOrder(0, carry, Pow(base, |after|));
    }
  }

  /** A number that did not shrink still needs all its digits. */
  lemma {:induction false} StillLeading(base: nat, before: seq<nat>, after: seq<nat>, length: nat)
    requires base >= 2 && |before| == |after| && Holds(base, before, length) && IsDigits(base, after) && length > 0
    requires forall i :: 0 <= i < |after| - length ==> after[i] == 0
    requires Val(base, after) >= Val(base, before)
    ensures after[|after| - length] != 0
  {
    var n := |after| - length;
    TrimZeroes(base, before, n);
    ValLeading(base, before[n..]);
    if after[n] == 0 {
      TrimZeroes(base, after, n + 1);
      ValBound(base, after[n + 1..]);
    }
  }

  lemma {:induction false} TrimZeroes(base: nat, ds: seq<nat>, n: nat)
    requires n <= |ds| && forall i :: 0 <= i < n ==> ds[i] == 0
    ensures Val(base, ds) == Val(base, ds[n..])
  {
    assert ds == ds[..n] + ds[n..];
    ValConcat(base, ds[..n], ds[n..]);
    ValZeroes(base, ds[..n]);
  }

  /** The state after i digits: those below are done, those above are as before, and carry is still to be added. */
  ghost predicate Carrying(base: nat, mul: nat, ch: nat, before: seq<nat>, length: nat, after: seq<nat>, i: nat,
                           carry: nat) {
    && |before| == |after| && i <= |after| && after[..|after| - i] == before[..|after| - i] && IsDigits(base, after)
    && Val(base, before[|after| - i..]) * mul + ch == carry * Pow(base, i) + Val(base, after[|after| - i..])
    && (i > length && carry == 0 ==> after[|after| - i] != 0)
    && (ch > 0 && i == 0 ==> carry > 0)
  }

  lemma {:induction false} CarryingStart(base: nat, mul: nat, ch: nat, ds: seq<nat>, length: nat)
    requires IsDigits(base, ds)
    ensures Carrying(base, mul, ch, ds, length, ds, 0, ch)
  {
    assert ds[|ds|..] == [];
  }

  lemma {:induction false} CarryingStep(base: nat, mul: nat, ch: nat, before: seq<nat>, length: nat, after: seq<nat>,
                                        i: nat, carry: nat)
    requires base >= 2 && Holds(base, before, length) && Carrying(base, mul, ch, before, length, after, i, carry)
    requires i < |after| && (carry != 0 || i < length)
    ensures var k := |after| - i - 1;
            var c := Scaled(mul, after[k], carry);
            Carrying(base, mul, ch, before, length, after[k := Rem(c, base)], i + 1, Quot(c, base))
  {
    var k := |after| - i - 1;
    var c := Scaled(mul, after[k], carry);
    var after' := after[k := Rem(c, base)];
    assert after[..k + 1][k] == before[..k + 1][k];
    NextCarry(base, before, length, i, carry, mul, c);
    CarryStep(base, mul, ch, before[k + 1..], after[k + 1..], before[k], carry);
    Prepend(before, k);
    Replaced(after, k, Rem(c, base));
    assert after'[..k] == before[..k];
  }

  lemma {:induction false} Prepend(s: seq<nat>, k: nat)
    requires k < |s|
    ensures s[k..] == [s[k]] + s[k + 1..]
  {
  }

  lemma {:induction false} Replaced(s: seq<nat>, k: nat, d: nat)
    requires k < |s|
    ensures s[k := d][k..] == [d] + s[k + 1..] && s[k := d][..k] == s[..k]
  {
  }

  /** Apply "buf = buf * mul + ch" to a big-endian digit buffer that is large enough for the result. */
  method MulAdd(buf: array<nat>, length: nat, base: nat, mul: nat, ch: nat) returns (length': nat)
    requires base >= 2 && mul >= 1 && Holds(base, buf[..], length)
    requires Val(base, buf[..]) * mul + ch < Pow(base, buf.Length)
    modifies buf
    ensures Holds(base, buf[..], length') && length <= length' && (ch > 0 ==> length' > 0)
    ensures Val(base, buf[..]) == Val(base, old(buf[..])) * mul + ch
  {
    ghost var before := buf[..];
    var carry: nat, i := ch, 0;
    CarryingStart(base, mul, ch, before, length);
    while (carry != 0 || i < length) && i < buf.Length
      invariant 0 <= i <= buf.Length && Carrying(base, mul, ch, before, length, buf[..], i, carry)
      decreases buf.Length - i
    {
      ghost var now := buf[..];
      CarryingStep(base, mul, ch, before, length, now, i, carry);
      var k := buf.Length - i - 1;
      var c := Scaled(mul, buf[k], carry);
      buf[k] := Rem(c, base);
      assert buf[..] == now[k := Rem(c, base)];
      carry := Quot(c, base);
      i := i + 1;
    }
    CarryingEnd(base, mul, ch, before, length, buf[..], i, carry);
    assert carry == 0;
    length' := i;
  }

  lemma {:induction false} CarryingEnd(base: nat, mul: nat, ch: nat, before: seq<nat>, length: nat, after: seq<nat>,
                                       i: nat, carry: nat)
    requires base >= 2 && mul >= 1 && Holds(base, before, length)
    requires Carrying(base, mul, ch, before, length, after, i, carry)
    requires Val(base, before) * mul + ch < Pow(base, |before|) && ((carry == 0 && i >= length) || i == |after|)
    ensures carry == 0 && Holds(base, after, i) && length <= i && Val(base, after) == Val(base, before) * mul + ch
  {
    CarryDone(base, mul, ch, before, after, |after| - i, length, carry);
    FinalLength(base, mul, ch, before, after, length, i);
  }

  lemma {:induction false} NextCarry(base: nat, before: seq<nat>, length: nat, i: nat, carry: nat, mul: nat, c: nat)
    requires base >= 2 && Holds(base, before, length) && i < |before|
    requires c == Scaled(mul, before[|before| - i - 1], carry)
    requires carry != 0 || i < length
    ensures i >= length && Quot(c, base) == 0 ==> Rem(c, base) != 0
  {
    if i >= length {
      assert before[|before| - i - 1] == 0;
      assert mul * 0 == 0;
      DivMod(c, base);
    }
  }

  lemma {:induction false} FinalLength(base: nat, mul: nat, ch: nat, before: seq<nat>, after: seq<nat>, length: nat,
                                       i: nat)
    requires base >= 2 && mul >= 1 && |before| == |after| && Holds(base, before, length) && IsDigits(base, after)
    requires length <= i <= |after|
    requires before[..|after| - i] == after[..|after| - i] && Val(base, after) == Val(base, before) * mul + ch
    requires i > length ==> after[|after| - i] != 0
    ensures Holds(base, after, i)
  {
    forall j | 0 <= j < |after| - i ensures after[j] == 0 {
      assert after[j] == after[..|after| - i][j] == before[j];
    }
    if i == length && length > 0 {
      MulOrder(0, mul, Val(base, before));
      StillLeading(base, before, after, length);
    }
  }

  // ---- letters ----

  /** The letter for a digit: the runs 1-9, A-H, J-N, P-Z, a-k and m-z. */
  function Letter(d: nat): char
    requires d < 58
  {
    if d < 9 then '1' + d as char
    else if d < 17 then 'A' + (d - 9) as char
    else if d < 22 then 'J' + (d - 17) as char
    else if d < 33 then 'P' + (d - 22) as char
    else if d < 44 then 'a' + (d - 33) as char
    else 'm' + (d - 44) as char
  }

  /** The digit a letter stands for, or -1. */
  function DigitOf(c: char): int {
    if '1' <= c <= '9' then c as int - '1' as int
    else if 'A' <= c <= 'H' then c as int - 'A' as int + 9
    else if 'J' <= c <= 'N' then c as int - 'J' as int + 17
    else if 'P' <= c <= 'Z' then c as int - 'P' as int + 22
    else if 'a' <= c <= 'k' then c as int - 'a' as int + 33
    else if 'm' <= c <= 'z' then c as int - 'm' as int + 44
    else -1
  }

  /** Letters and digits determine each other, and no letter is a space. */
  lemma Letters(d: nat, c: char)
    ensures d < 58 ==> DigitOf(Letter(d)) == d && !IsSpace(Letter(d)) && (Letter(d) == '1' <==> d == 0)
    ensures -1 <= DigitOf(c) < 58 && (DigitOf(c) >= 0 ==> Letter(DigitOf(c)) == c && !IsSpace(c))
    ensures (DigitOf(c) == 0 <==> c == '1')
  {
  }

  /** The letters are all digits and letters but 0, O, I and l, in ascending order. */
  lemma Alphabet(d: nat, e: nat, c: char)
    ensures d < e < 58 ==> Letter(d) < Letter(e)
    ensures DigitOf(c) >= 0 <==>
            ('0' <= c <= '9' || 'A' <= c <= 'Z' || 'a' <= c <= 'z') && c != '0' && c != 'O' && c != 'I' && c != 'l'
  {
  }

  predicate IsSpace(c: char) {
    c == ' ' || c == '\n' || c == '\r' || c == '\t' || c == 11 as char || c == 12 as char
  }

  function Text(ds: seq<nat>): (s: string)
    requires IsDigits(58, ds)
    ensures |s| == |ds|
  {
    seq(|ds|, i requires 0 <= i < |ds| => Letter(ds[i]))
  }

  // ---- encoding ----

  function LeadingZeroes(x: seq<nat>): (n: nat)
    ensures n <= |x| && (forall i :: 0 <= i < n ==> x[i] == 0) && (n < |x| ==> x[n] != 0)
  {
    if x == [] || x[0] != 0 then 0 else 1 + LeadingZeroes(x[1..])
  }

  /** A one for each leading zero byte, and the rest as a number in base 58. */
  ghost function Encoded(x: seq<nat>): string {
    DigitsVal(58, Val(256, x));
    seq(LeadingZeroes(x), i => '1') + Text(Digits(58, Val(256, x)))
  }

  lemma {:induction false} PrefixValue(b: nat, x: seq<nat>, k: nat)
    requires k < |x| && b >= 1 && IsDigits(b, x)
    ensures Val(b, x[..k + 1]) == Val(b, x[..k]) * b + x[k] < Pow(b, |x|)
  {
    assert x[..k + 1][..k] == x[..k];
    ValBound(b, x[..k + 1]);
    PowGrows(b, k + 1, |x|);
  }

  method EncodeBase58(input: seq<nat>) returns (str: string)
    requires IsDigits(256, input)
    ensures str == Encoded(input)
  {
    var zeroes := 0;
    var rest := input;
    while |rest| > 0 && rest[0] == 0
      invariant zeroes <= |input| && rest == input[zeroes..] && forall i :: 0 <= i < zeroes ==> input[i] == 0
      decreases |rest|
    {
      rest := rest[1..];
      zeroes := zeroes + 1;
    }
    TrimZeroes(256, input, zeroes);
    var size := |rest| * 138 / 100 + 1;
    EncodeBufferFits(|rest|);
    var b58 := new nat[size](_ => 0);
    var length := Convert(b58, rest, 58, 256);
    HoldsDigits(58, b58[..], length);
    var it := SkipZeroes(b58, size - length);
    assert length > 0 ==> b58[..][size - length] != 0;
    str := seq(zeroes, i => '1') + Text(b58[it..]);
  }

  method SkipZeroes(buf: array<nat>, start: nat) returns (it: nat)
    requires start <= buf.Length
    ensures start <= it <= buf.Length && (forall i :: start <= i < it ==> buf[i] == 0)
    ensures (it < buf.Length ==> buf[it] != 0)
  {
    it := start;
    while it != buf.Length && buf[it] == 0
      invariant start <= it <= buf.Length && forall i :: start <= i < it ==> buf[i] == 0
      decreases buf.Length - it
    {
      it := it + 1;
    }
  }

  /** Process digits in base mul into a zeroed buffer of digits in the given base. */
  method Convert(buf: array<nat>, digits: seq<nat>, base: nat, mul: nat) returns (length: nat)
    requires base >= 2 && mul >= 1 && IsDigits(mul, digits) && Pow(mul, |digits|) < Pow(base, buf.Length)
    requires forall i :: 0 <= i < buf.Length ==> buf[i] == 0
    modifies buf
    ensures Holds(base, buf[..], length) && Val(base, buf[..]) == Val(mul, digits)
  {
    length := 0;
    ValZeroes(base, buf[..]);
    for k := 0 to |digits|
      invariant Holds(base, buf[..], length) && Val(base, buf[..]) == Val(mul, digits[..k])
    {
      PrefixValue(mul, digits, k);
      length := MulAdd(buf, length, base, mul, digits[k]);
    }
    assert digits[..|digits|] == digits;
  }

  // ---- decoding ----

  function LeadingSpaces(s: string): (n: nat)
    ensures n <= |s| && (forall i :: 0 <= i < n ==> IsSpace(s[i])) && (n < |s| ==> !IsSpace(s[n]))
  {
    if s == [] || !IsSpace(s[0]) then 0 else 1 + LeadingSpaces(s[1..])
  }

  function LeadingOnes(s: string): (n: nat)
    ensures n <= |s| && (forall i :: 0 <= i < n ==> s[i] == '1') && (n < |s| ==> s[n] != '1')
  {
    if s == [] || s[0] != '1' then 0 else 1 + LeadingOnes(s[1..])
  }

  /** The length of the part before the first space. */
  function WordLength(s: string): (n: nat)
    ensures n <= |s| && (forall i :: 0 <= i < n ==> !IsSpace(s[i])) && (n < |s| ==> IsSpace(s[n]))
  {
    if s == [] || IsSpace(s[0]) then 0 else 1 + WordLength(s[1..])
  }

  predicate AllSpaces(s: string) {
    forall i :: 0 <= i < |s| ==> IsSpace(s[i])
  }

  ghost predicate AllLetters(s: string) {
    forall i :: 0 <= i < |s| ==> DigitOf(s[i]) >= 0
  }

  ghost function DigitsOf(s: string): (ds: seq<nat>)
    requires AllLetters(s)
    ensures |ds| == |s| && IsDigits(58, ds)
  {
    seq(|s|, i requires 0 <= i < |s| => DigitOf(s[i]))
  }

  /** The bytes of a text: between spaces, ones for zero bytes and a number in base 58. */
  ghost function Decoded(s: string, maxLen: int): Option<seq<nat>> {
    if '\0' in s then None
    else
      var a := s[LeadingSpaces(s)..];
      var z := LeadingOnes(a);
      var b := a[z..];
      DecodedBody(z, b, maxLen)
  }

  ghost function DecodedBody(z: nat, b: string, maxLen: int): Option<seq<nat>> {
    var word := b[..WordLength(b)];
    if !AllLetters(word) || !AllSpaces(b[|word|..]) then None
    else
      var bytes := Digits(256, Val(58, DigitsOf(word)));
      if z + |bytes| > maxLen && z + |bytes| > 0 then None else Some(seq(z, i => 0) + bytes)
  }

  lemma {:induction false} WordLengthIs(s: string, n: nat)
    requires n <= |s| && (forall i :: 0 <= i < n ==> !IsSpace(s[i])) && (n < |s| ==> IsSpace(s[n]))
    ensures WordLength(s) == n
  {
  }

  lemma {:induction false} ShorterDigits(b: nat, m: nat, n: nat)
    requires b >= 2 && m <= n
    ensures |Digits(b, m)| <= |Digits(b, n)|
  {
    DigitsVal(b, m);
    DigitsVal(b, n);
    var x, y := Digits(b, m), Digits(b, n);
    if |y| < |x| {
      ValLeading(b, x);
      ValBound(b, y);
      PowGrows(b, |y|, |x| - 1);
    }
  }

  lemma {:induction false} PrefixSmaller(b: nat, ds: seq<nat>, k: nat)
    requires k <= |ds| && b >= 1
    ensures Val(b, ds[..k]) <= Val(b, ds)
    decreases |ds|
  {
    if k < |ds| {
      var n := |ds| - 1;
      assert ds[..n][..k] == ds[..k];
      PrefixSmaller(b, ds[..n], k);
      MulOrder(0, b, Val(b, ds[..n]));
    } else {
      assert ds[..k] == ds;
    }
  }

  /** If the first k letters already give too many bytes, the whole word does. */
  lemma {:induction false} TooLong(z: nat, b: string, k: nat, length: nat, maxLen: int)
    requires k <= WordLength(b) && AllLetters(b[..k]) && length == |Digits(256, Val(58, DigitsOf(b[..k])))|
    requires z + length > maxLen && length > 0
    ensures DecodedBody(z, b, maxLen).None?
  {
    var word := b[..WordLength(b)];
    if AllLetters(word) {
      assert DigitsOf(word)[..k] == DigitsOf(b[..k]);
      PrefixSmaller(58, DigitsOf(word), k);
      ShorterDigits(256, Val(58, DigitsOf(b[..k])), Val(58, DigitsOf(word)));
    }
  }

  lemma {:induction false} NextLetter(b: string, k: nat)
    requires k < |b| && AllLetters(b[..k]) && DigitOf(b[k]) >= 0
    ensures AllLetters(b[..k + 1]) && DigitOf(b[k]) < 58
    ensures Val(58, DigitsOf(b[..k + 1])) == Val(58, DigitsOf(b[..k])) * 58 + DigitOf(b[k]) < Pow(58, |b|)
  {
    Letters(0, b[k]);
    var ds := DigitsOf(b[..k + 1]);
    assert ds[..k] == DigitsOf(b[..k]);
    ValBound(58, ds);
    PowGrows(58, k + 1, |b|);
  }

  lemma {:induction false} NotALetter(z: nat, b: string, k: nat, maxLen: int)
    requires k < WordLength(b) && DigitOf(b[k]) < 0
    ensures DecodedBody(z, b, maxLen).None?
  {
    assert b[..WordLength(b)][k] == b[k];
  }

  /** After the first k letters: the buffer holds their number, which is not too long. */
  ghost predicate Reading(z: nat, b: string, maxLen: int, ds: seq<nat>, length: nat, k: nat) {
    && k <= WordLength(b) && AllLetters(b[..k]) && Holds(256, ds, length)
    && Val(256, ds) == Val(58, DigitsOf(b[..k]))
    && (k > 0 ==> length > 0 && z + length <= maxLen)
  }

  lemma {:induction false} ReadingStep(z: nat, b: string, maxLen: int, ds: seq<nat>, length: nat, k: nat, ds': seq<nat>,
                                       length': nat)
    requires (b != [] ==> b[0] != '1') && Reading(z, b, maxLen, ds, length, k) && k < WordLength(b)
    requires DigitOf(b[k]) >= 0
    requires Holds(256, ds', length') && Val(256, ds') == Val(256, ds) * 58 + DigitOf(b[k])
    requires length <= length' && (DigitOf(b[k]) > 0 ==> length' > 0)
    ensures if z + length' > maxLen then DecodedBody(z, b, maxLen).None? else Reading(z, b, maxLen, ds', length', k + 1)
  {
    Letters(0, b[k]);
    NextLetter(b, k);
    if z + length' > maxLen {
      HoldsDigits(256, ds', length');
      TooLong(z, b, k + 1, length', maxLen);
    }
  }

  lemma {:induction false} ReadingRoom(z: nat, b: string, maxLen: int, ds: seq<nat>, length: nat, k: nat)
    requires Reading(z, b, maxLen, ds, length, k) && k < |b| && DigitOf(b[k]) >= 0 && |ds| == |b| * 733 / 1000 + 1
    ensures Val(256, ds) * 58 + DigitOf(b[k]) < Pow(256, |ds|)
  {
    NextLetter(b, k);
    DecodeBufferFits(|b|);
  }

  lemma {:induction false} ReadingEnd(z: nat, b: string, maxLen: int, ds: seq<nat>, length: nat, k: nat)
    requires Reading(z, b, maxLen, ds, length, k) && (k < |b| ==> IsSpace(b[k]))
    ensures k == WordLength(b) && ds[|ds| - length..] == Digits(256, Val(58, DigitsOf(b[..k])))
    ensures k == 0 ==> length == 0
  {
    WordLengthIs(b, k);
    HoldsDigits(256, ds, length);
    if k == 0 {
      assert Digits(256, Val(58, DigitsOf(b[..k]))) == [];
    }
  }

  /** Read letters up to a space: the bytes of the number, unless a letter is invalid or there are too many bytes. */
  method ReadWord(z: nat, b: string, maxLen: int) returns (ok: bool, k: nat, bytes: seq<nat>)
    requires (b != [] ==> b[0] != '1') && (z == 0 || z <= maxLen)
    ensures !ok ==> DecodedBody(z, b, maxLen).None?
    ensures ok ==> k == WordLength(b) && AllLetters(b[..k]) && bytes == Digits(256, Val(58, DigitsOf(b[..k])))
    ensures ok ==> z + |bytes| <= maxLen || z + |bytes| == 0
  {
    var size := |b| * 733 / 1000 + 1;
    var b256 := new nat[size](_ => 0);
    var length := 0;
    ok, k, bytes := false, 0, [];
    ValZeroes(256, b256[..]);
    while k < |b| && !IsSpace(b[k])
      invariant Reading(z, b, maxLen, b256[..], length, k)
    {
      var digit := DigitOf(b[k]);
      if digit == -1 {
        NotALetter(z, b, k, maxLen);
        return;
      }
      Letters(0, b[k]);
      ReadingRoom(z, b, maxLen, b256[..], length, k);
      ghost var ds, n := b256[..], length;
      length := MulAdd(b256, length, 256, 58, digit);
      ReadingStep(z, b, maxLen, ds, n, k, b256[..], length);
      k := k + 1;
      if length + z > maxLen {
        return;
      }
    }
    ReadingEnd(z, b, maxLen, b256[..], length, k);
    ok, bytes := true, b256[size - length..];
  }

  /** The number after the ones, and what follows it. */
  method DecodeBody(z: nat, b: string, maxLen: int) returns (r: Option<seq<nat>>)
    requires (b != [] ==> b[0] != '1') && (z == 0 || z <= maxLen)
    ensures r == DecodedBody(z, b, maxLen)
  {
    var ok, k, bytes := ReadWord(z, b, maxLen);
    if !ok {
      return None;
    }
    var j := k;
    while j < |b| && IsSpace(b[j])
      invariant k <= j <= |b| && forall i :: k <= i < j ==> IsSpace(b[i])
    {
      j := j + 1;
    }
    SpacesAfter(b, k, j);
    r := if j == |b| then Some(seq(z, i => 0) + bytes) else None;
  }

  lemma {:induction false} SpacesAfter(b: string, k: nat, j: nat)
    requires k <= j <= |b| && (forall i :: k <= i < j ==> IsSpace(b[i])) && (j < |b| ==> !IsSpace(b[j]))
    ensures AllSpaces(b[k..]) <==> j == |b|
  {
    if j < |b| {
      assert b[k..][j - k] == b[j];
    }
  }

  lemma {:induction false} LeadingSpacesIs(s: string, n: nat)
    requires n <= |s| && (forall i :: 0 <= i < n ==> IsSpace(s[i])) && (n < |s| ==> !IsSpace(s[n]))
    ensures LeadingSpaces(s) == n
  {
  }

  lemma {:induction false} LeadingOnesIs(s: string, n: nat)
    requires n <= |s| && (forall i :: 0 <= i < n ==> s[i] == '1') && (n < |s| ==> s[n] != '1')
    ensures LeadingOnes(s) == n
  {
  }

  lemma {:induction false} TooManyOnes(s: string, p: nat, zeroes: nat, maxLen: int)
    requires '\0' !in s && p == LeadingSpaces(s) && p + zeroes <= |s| && zeroes > maxLen && zeroes > 0
    requires forall i :: p <= i < p + zeroes ==> s[i] == '1'
    ensures Decoded(s, maxLen).None?
  {
    AtLeastOnes(s[p..], zeroes);
  }

  lemma {:induction false} AtLeastOnes(a: string, n: nat)
    requires n <= |a| && forall i :: 0 <= i < n ==> a[i] == '1'
    ensures LeadingOnes(a) >= n
  {
    if n > 0 {
      AtLeastOnes(a[1..], n - 1);
    }
  }

  method DecodeBase58(s: string, maxLen: int) returns (r: Option<seq<nat>>)
    ensures r == Decoded(s, maxLen)
  {
    if '\0' in s {
      return None;
    }
    var p := 0;
    while p < |s| && IsSpace(s[p])
      invariant p <= |s| && forall i :: 0 <= i < p ==> IsSpace(s[i])
    {
      p := p + 1;
    }
    LeadingSpacesIs(s, p);
    var zeroes := 0;
    while p + zeroes < |s| && s[p + zeroes] == '1'
      invariant p + zeroes <= |s| && (forall i :: p <= i < p + zeroes ==> s[i] == '1')
      invariant (zeroes == 0 || zeroes <= maxLen)
      decreases |s| - zeroes
    {
      zeroes := zeroes + 1;
      if zeroes > maxLen {
        TooManyOnes(s, p, zeroes, maxLen);
        return None;
      }
    }
    LeadingOnesIs(s[p..], zeroes);
    assert s[p..][zeroes..] == s[p + zeroes..];
    r := DecodeBody(zeroes, s[p + zeroes..], maxLen);
  }

  // ---- round trips ----

  /** A text of ones followed by a number that does not start with one. */
  lemma {:induction false} DecodeOnes(z: nat, word: string, maxLen: int)
    requires AllLetters(word) && (word != [] ==> word[0] != '1')
    ensures Decoded(seq(z, i => '1') + word, maxLen) == DecodedBody(z, word, maxLen)
  {
    var s := seq(z, i => '1') + word;
    forall i | 0 <= i < |s| ensures DigitOf(s[i]) >= 0 && !IsSpace(s[i]) {
      Letters(0, s[i]);
    }
    NoNul(s);
    LeadingSpacesIs(s, 0);
    assert s[0..] == s;
    LeadingOnesIs(s, z);
    assert s[z..] == word;
  }

  lemma {:induction false} NoNul(s: string)
    requires forall i :: 0 <= i < |s| ==> DigitOf(s[i]) >= 0
    ensures '\0' !in s
  {
  }

  lemma {:induction false} DecodeWholeWord(z: nat, word: string, maxLen: int, bytes: seq<nat>)
    requires AllLetters(word) && bytes == Digits(256, Val(58, DigitsOf(word))) && z + |bytes| <= maxLen
    ensures DecodedBody(z, word, maxLen) == Some(seq(z, i => 0) + bytes)
  {
    forall i | 0 <= i < |word| ensures !IsSpace(word[i]) {
      Letters(0, word[i]);
    }
    WordLengthIs(word, |word|);
    assert word[..|word|] == word;
  }

  lemma {:induction false} TextDigits(ds: seq<nat>)
    requires IsDigits(58, ds)
    ensures AllLetters(Text(ds)) && DigitsOf(Text(ds)) == ds
    ensures NoLeadingZero(ds) && ds != [] ==> Text(ds)[0] != '1'
  {
    forall i | 0 <= i < |ds| ensures DigitOf(Text(ds)[i]) == ds[i] && (Text(ds)[i] == '1' <==> ds[i] == 0) {
      Letters(ds[i], Text(ds)[i]);
    }
  }

  /** Decoding gives back every byte string that was encoded. */
  lemma {:induction false} DecodeEncoded(x: seq<nat>, maxLen: int)
    requires IsDigits(256, x) && |x| <= maxLen
    ensures Decoded(Encoded(x), maxLen) == Some(x)
  {
    var z, v := LeadingZeroes(x), Val(256, x);
    var ds := Digits(58, v);
    DigitsVal(58, v);
    TextDigits(ds);
    DecodeOnes(z, Text(ds), maxLen);
    TrimZeroes(256, x, z);
    ValDigits(256, x[z..]);
    DecodeWholeWord(z, Text(ds), maxLen, x[z..]);
    ZeroesFirst(x, z);
  }

  lemma {:induction false} ZeroesFirst(x: seq<nat>, z: nat)
    requires z <= |x| && forall i :: 0 <= i < z ==> x[i] == 0
    ensures x == seq(z, i => 0) + x[z..]
  {
  }

  /** The text between the surrounding spaces. */
  ghost function Trimmed(s: string): string {
    var a := s[LeadingSpaces(s)..];
    a[..WordLength(a)]
  }

  lemma {:induction false} DigitsText(word: string)
    requires AllLetters(word)
    ensures Text(DigitsOf(word)) == word && (word != [] && word[0] != '1' ==> DigitsOf(word)[0] != 0)
  {
    forall i | 0 <= i < |word| ensures Letter(DigitsOf(word)[i]) == word[i] {
      Letters(0, word[i]);
    }
    if word != [] {
      Letters(0, word[0]);
    }
  }

  lemma {:induction false} EncodeWord(z: nat, word: string)
    requires AllLetters(word) && (word != [] ==> word[0] != '1')
    ensures var x := seq(z, i => 0) + Digits(256, Val(58, DigitsOf(word)));
            IsDigits(256, x) && Encoded(x) == seq(z, i => '1') + word
  {
    var ds := DigitsOf(word);
    var v := Val(58, ds);
    var bytes := Digits(256, v);
    var x := seq(z, i => 0) + bytes;
    DigitsVal(256, v);
    DigitsText(word);
    ValDigits(58, ds);
    TrimZeroes(256, x, z);
    assert x[z..] == bytes;
    LeadingZeroesIs(x, z);
  }

  lemma {:induction false} LeadingZeroesIs(x: seq<nat>, n: nat)
    requires n <= |x| && (forall i :: 0 <= i < n ==> x[i] == 0) && (n < |x| ==> x[n] != 0)
    ensures LeadingZeroes(x) == n
  {
  }

  lemma {:induction false} TrimmedWord(a: string, z: nat, word: string)
    requires z == LeadingOnes(a) && word == a[z..][..WordLength(a[z..])]
    ensures a[..WordLength(a)] == seq(z, i => '1') + word
  {
    var b := a[z..];
    forall i | 0 <= i < z + |word| ensures !IsSpace(a[i]) {
      if i >= z {
        assert a[i] == b[i - z];
      }
    }
    assert z + |word| < |a| ==> a[z + |word|] == b[|word|];
    WordLengthIs(a, z + |word|);
  }

  /** Encoding gives back every text that could be decoded, but for the spaces around it. */
  lemma {:induction false} EncodeDecoded(s: string, maxLen: int)
    requires Decoded(s, maxLen).Some?
    ensures IsDigits(256, Decoded(s, maxLen).value) && Encoded(Decoded(s, maxLen).value) == Trimmed(s)
  {
    var a := s[LeadingSpaces(s)..];
    var z := LeadingOnes(a);
    var word := a[z..][..WordLength(a[z..])];
    assert word != [] ==> word[0] == a[z];
    EncodeWord(z, word);
    TrimmedWord(a, z, word);
  }
}

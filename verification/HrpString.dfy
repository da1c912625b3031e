/** The text form shared by Bech32 and codex32: a human readable part, a separator, and one character
    per element of GF(32). */
module HrpStrings {
  import opened Options
  import opened Gf32

  const SEPARATOR := '1'

  /** The characters qpzry9x8gf2tvdw0s3jn54khce6mua7l, by code. */
  function CodeOf(v: Element): (n: int)
    ensures 33 <= n <= 126 && n != 49 && !(65 <= n <= 90)
  {
    if v == 0 then 113
    else if v == 1 then 112
    else if v == 2 then 122
    else if v == 3 then 114
    else if v == 4 then 121
    else if v == 5 then 57
    else if v == 6 then 120
    else if v == 7 then 56
    else if v == 8 then 103
    else if v == 9 then 102
    else if v == 10 then 50
    else if v == 11 then 116
    else if v == 12 then 118
    else if v == 13 then 100
    else if v == 14 then 119
    else if v == 15 then 48
    else if v == 16 then 115
    else if v == 17 then 51
    else if v == 18 then 106
    else if v == 19 then 110
    else if v == 20 then 53
    else if v == 21 then 52
    else if v == 22 then 107
    else if v == 23 then 104
    else if v == 24 then 99
    else if v == 25 then 101
    else if v == 26 then 54
    else if v == 27 then 109
    else if v == 28 then 117
    else if v == 29 then 97
    else if v == 30 then 55
    else 108
  }

  /** The element a lower-case character or digit stands for, or none. */
  function LowerElementOf(n: int): Option<Element> {
    if n == 113 then Some(0)
    else if n == 112 then Some(1)
    else if n == 122 then Some(2)
    else if n == 114 then Some(3)
    else if n == 121 then Some(4)
    else if n == 57 then Some(5)
    else if n == 120 then Some(6)
    else if n == 56 then Some(7)
    else if n == 103 then Some(8)
    else if n == 102 then Some(9)
    else if n == 50 then Some(10)
    else if n == 116 then Some(11)
    else if n == 118 then Some(12)
    else if n == 100 then Some(13)
    else if n == 119 then Some(14)
    else if n == 48 then Some(15)
    else if n == 115 then Some(16)
    else if n == 51 then Some(17)
    else if n == 106 then Some(18)
    else if n == 110 then Some(19)
    else if n == 53 then Some(20)
    else if n == 52 then Some(21)
    else if n == 107 then Some(22)
    else if n == 104 then Some(23)
    else if n == 99 then Some(24)
    else if n == 101 then Some(25)
    else if n == 54 then Some(26)
    else if n == 109 then Some(27)
    else if n == 117 then Some(28)
    else if n == 97 then Some(29)
    else if n == 55 then Some(30)
    else if n == 108 then Some(31)
    else None
  }

  function LoweredCode(n: int): int {
    if 65 <= n <= 90 then n + 32 else n
  }

  /** The element a character stands for, in either case, or none. */
  function ElementOf(n: int): Option<Element> {
    LowerElementOf(LoweredCode(n))
  }

  function CharOf(v: Element): char {
    CodeOf(v) as char
  }

  function RevOf(c: char): Option<Element> {
    ElementOf(c as int)
  }

  lemma CodeRoundTrip(v: Element)
    ensures LowerElementOf(CodeOf(v)) == Some(v)
  {
  }

  lemma CharRoundTrip(v: Element)
    ensures RevOf(CharOf(v)) == Some(v)
  {
    CodeRoundTrip(v);
  }

  lemma CharIsPlain(v: Element)
    ensures CharOf(v) != SEPARATOR && 33 <= CharOf(v) as int <= 126 && !IsUpper(CharOf(v))
  {
  }

  predicate IsLower(c: char) {
    'a' <= c <= 'z'
  }

  predicate IsUpper(c: char) {
    'A' <= c <= 'Z'
  }

  function LowerCase(c: char): char {
    if IsUpper(c) then 'a' + (c - 'A') else c
  }

  lemma CodeOfElement(n: int)
    requires LowerElementOf(n).Some?
    ensures CodeOf(LowerElementOf(n).value) == n
  {
  }

  lemma LowerCode(c: char)
    requires c as int <= 126
    ensures LowerCase(c) as int == LoweredCode(c as int) && !IsUpper(LowerCase(c))
  {
  }

  lemma RevRoundTrip(c: char)
    requires RevOf(c).Some?
    ensures CharOf(RevOf(c).value) == LowerCase(c)
  {
    CodeOfElement(LoweredCode(c as int));
    LowerCode(c);
  }

  // ---- characters ----

  /** Printable characters throughout, and not both cases. */
  ghost predicate GoodChars(s: string) {
    && (forall i :: 0 <= i < |s| ==> 33 <= s[i] as int <= 126)
    && !((exists i :: 0 <= i < |s| && IsLower(s[i])) && (exists i :: 0 <= i < |s| && IsUpper(s[i])))
  }

  method CheckCharacters(s: string) returns (ok: bool)
    ensures ok <==> GoodChars(s)
  {
    var lower, upper := false, false;
    ok := true;
    for i := 0 to |s|
      invariant lower ==> exists j :: 0 <= j < i && IsLower(s[j])
      invariant upper ==> exists j :: 0 <= j < i && IsUpper(s[j])
      invariant ok ==>
        (lower <==> exists j :: 0 <= j < i && IsLower(s[j])) && (upper <==> exists j :: 0 <= j < i && IsUpper(s[j]))
      invariant ok ==> !(lower && upper) && forall j :: 0 <= j < i ==> 33 <= s[j] as int <= 126
      invariant !ok ==> !GoodChars(s)
    {
      var c := s[i];
      if IsLower(c) {
        if upper {
          ok := false;
        } else {
          lower := true;
        }
      } else if IsUpper(c) {
        if lower {
          ok := false;
        } else {
          upper := true;
        }
      } else if c as int < 33 || c as int > 126 {
        ok := false;
      }
    }
  }

  // ---- coefficients ----

  function HighBits(c: char): Element {
    (c as int / 32 % 32) as Element
  }

  function LowBits(c: char): Element {
    (c as int % 32) as Element
  }

  ghost function HighOf(hrp: string): (r: seq<Element>)
    ensures |r| == |hrp|
  {
    seq(|hrp|, i requires 0 <= i < |hrp| => HighBits(hrp[i]))
  }

  ghost function LowOf(hrp: string): (r: seq<Element>)
    ensures |r| == |hrp|
  {
    seq(|hrp|, i requires 0 <= i < |hrp| => LowBits(hrp[i]))
  }

  /** The human readable part as coefficients: the high bits of its characters, a zero, and their low bits. */
  ghost function Expanded(hrp: string): (r: seq<Element>)
    ensures |r| == 2 * |hrp| + 1
  {
    HighOf(hrp) + [0] + LowOf(hrp)
  }

  method PreparePolynomialCoefficients(hrp: string, values: seq<Element>) returns (ret: seq<Element>)
    ensures ret == Expanded(hrp) + values
  {
    ret := [];
    for i := 0 to |hrp|
      invariant ret == HighOf(hrp[..i])
    {
      ret := ret + [HighBits(hrp[i])];
      assert hrp[..i + 1] == hrp[..i] + [hrp[i]];
    }
    assert hrp[..|hrp|] == hrp;
    ret := ret + [0];
    for i := 0 to |hrp|
      invariant ret == HighOf(hrp) + [0] + LowOf(hrp[..i])
    {
      ret := ret + [LowBits(hrp[i])];
      assert hrp[..i + 1] == hrp[..i] + [hrp[i]];
    }
    ret := ret + values;
  }

  // ---- writing ----

  ghost function Chars(vs: seq<Element>): (s: string)
    ensures |s| == |vs| && forall i :: 0 <= i < |vs| ==> s[i] == CharOf(vs[i])
  {
    seq(|vs|, i requires 0 <= i < |vs| => CharOf(vs[i]))
  }

  /** The text of a human readable part and values. */
  ghost function Rendered(hrp: string, vs: seq<Element>): string {
    hrp + [SEPARATOR] + Chars(vs)
  }

  method Render(hrp: string, values: seq<Element>, checksum: seq<Element>) returns (ret: string)
    requires forall i :: 0 <= i < |hrp| ==> !IsUpper(hrp[i])
    ensures ret == Rendered(hrp, values + checksum)
  {
    ret := hrp + [SEPARATOR];
    for i := 0 to |values|
      invariant ret == hrp + [SEPARATOR] + Chars(values[..i])
    {
      ret := ret + [CharOf(values[i])];
      assert Chars(values[..i + 1]) == Chars(values[..i]) + [CharOf(values[i])];
    }
    assert values[..|values|] == values;
    for i := 0 to |checksum|
      invariant ret == hrp + [SEPARATOR] + Chars(values + checksum[..i])
    {
      ret := ret + [CharOf(checksum[i])];
      assert Chars(values + checksum[..i + 1]) == Chars(values + checksum[..i]) + [CharOf(checksum[i])];
    }
    assert checksum[..|checksum|] == checksum;
  }

  // ---- reading ----

  /** The position of the last separator, or -1. */
  function LastSeparator(s: string): (p: int)
    ensures -1 <= p < |s| && (p >= 0 ==> s[p] == SEPARATOR) && forall i :: p < i < |s| ==> s[i] != SEPARATOR
  {
    if s == [] then -1 else if s[|s| - 1] == SEPARATOR then |s| - 1 else LastSeparator(s[..|s| - 1])
  }

  datatype Parsed = Failed | Parsed(hrp: string, values: seq<Element>)

  ghost predicate AllInCharset(s: string) {
    forall i :: 0 <= i < |s| ==> RevOf(s[i]).Some?
  }

  ghost function Values(s: string): (vs: seq<Element>)
    requires AllInCharset(s)
    ensures |vs| == |s| && forall i :: 0 <= i < |s| ==> RevOf(s[i]) == Some(vs[i])
  {
    seq(|s|, i requires 0 <= i < |s| => RevOf(s[i]).value)
  }

  ghost function Lower(s: string): (r: string)
    ensures |r| == |s| && forall i :: 0 <= i < |s| ==> r[i] == LowerCase(s[i])
  {
    seq(|s|, i requires 0 <= i < |s| => LowerCase(s[i]))
  }

  /** What a text says, whatever its checksum. */
  ghost function Reading(s: string, limit: nat, checksumLength: nat): Parsed {
    var p := LastSeparator(s);
    if !GoodChars(s) || |s| > limit || p <= 0 || p + checksumLength >= |s| || !AllInCharset(s[p + 1..]) then Failed
    else Parsed(Lower(s[..p]), Values(s[p + 1..]))
  }

  method Read(s: string, limit: nat, checksumLength: nat) returns (r: Parsed)
    ensures r == Reading(s, limit, checksumLength)
  {
    var good := CheckCharacters(s);
    if !good {
      return Failed;
    }
    var pos := LastSeparator(s);
    if |s| > limit {
      return Failed;
    }
    if pos == -1 || pos == 0 || pos + checksumLength >= |s| {
      return Failed;
    }
    var n := |s| - 1 - pos;
    ghost var rest := s[pos + 1..];
    var values: seq<Element> := [];
    for i := 0 to n
      invariant AllInCharset(rest[..i]) && values == Values(rest[..i])
    {
      var rev := RevOf(s[i + pos + 1]);
      assert rest[i] == s[i + pos + 1];
      if rev.None? {
        return Failed;
      }
      NextValue(rest, i);
      values := values + [rev.value];
    }
    assert rest[..n] == rest;
    var hrp: string := [];
    for i := 0 to pos
      invariant hrp == Lower(s[..i])
    {
      hrp := hrp + [LowerCase(s[i])];
      assert s[..i + 1] == s[..i] + [s[i]];
    }
    r := Parsed(hrp, values);
  }

  lemma {:induction false} NextValue(s: string, i: nat)
    requires i < |s| && AllInCharset(s[..i]) && RevOf(s[i]).Some?
    ensures AllInCharset(s[..i + 1]) && Values(s[..i + 1]) == Values(s[..i]) + [RevOf(s[i]).value]
  {
    assert s[..i + 1] == s[..i] + [s[i]];
  }

  // ---- round trip ----

  /** A human readable part an encoder may use. */
  ghost predicate LegalHrp(hrp: string) {
    hrp != [] && forall i :: 0 <= i < |hrp| ==> 33 <= hrp[i] as int <= 126 && !IsUpper(hrp[i])
  }

  lemma {:induction false} ReadRendered(hrp: string, vs: seq<Element>, limit: nat, checksumLength: nat)
    requires LegalHrp(hrp) && |hrp| + 1 + |vs| <= limit && checksumLength <= |vs|
    ensures Reading(Rendered(hrp, vs), limit, checksumLength) == Parsed(hrp, vs)
  {
    RenderedChars(hrp, vs);
    ReadParts(hrp, vs);
  }

  lemma {:induction false} RenderedChars(hrp: string, vs: seq<Element>)
    requires LegalHrp(hrp)
    ensures GoodChars(Rendered(hrp, vs)) && LastSeparator(Rendered(hrp, vs)) == |hrp|
  {
    var s, p := Rendered(hrp, vs), |hrp|;
    forall i | 0 <= i < |s| ensures 33 <= s[i] as int <= 126 && !IsUpper(s[i]) && (i > p ==> s[i] != SEPARATOR) {
      if i > p {
        CharIsPlain(vs[i - p - 1]);
      }
    }
    assert s[p] == SEPARATOR;
  }

  lemma {:induction false} ReadParts(hrp: string, vs: seq<Element>)
    requires LegalHrp(hrp)
    ensures var s, p := Rendered(hrp, vs), |hrp|;
            AllInCharset(s[p + 1..]) && Values(s[p + 1..]) == vs && Lower(s[..p]) == hrp
  {
    var s, p := Rendered(hrp, vs), |hrp|;
    assert s[..p] == hrp && s[p + 1..] == Chars(vs);
    forall i | 0 <= i < |vs| ensures RevOf(Chars(vs)[i]) == Some(vs[i]) {
      CharRoundTrip(vs[i]);
    }
  }

  /** What was read renders, in lower case, as the text it was read from. */
  lemma {:induction false} RenderRead(s: string, limit: nat, checksumLength: nat)
    requires Reading(s, limit, checksumLength).Parsed?
    ensures var r := Reading(s, limit, checksumLength);
            LegalHrp(r.hrp) && |r.values| >= checksumLength && Rendered(r.hrp, r.values) == Lower(s)
  {
    ReadIsLegal(s, limit, checksumLength);
    ReadRendersBack(s, limit, checksumLength);
  }

  lemma {:induction false} ReadIsLegal(s: string, limit: nat, checksumLength: nat)
    requires Reading(s, limit, checksumLength).Parsed?
    ensures var r := Reading(s, limit, checksumLength); LegalHrp(r.hrp) && |r.values| >= checksumLength
  {
    LowerIsLegal(s[..LastSeparator(s)]);
  }

  lemma {:induction false} ReadRendersBack(s: string, limit: nat, checksumLength: nat)
    requires Reading(s, limit, checksumLength).Parsed?
    ensures var r := Reading(s, limit, checksumLength); Rendered(r.hrp, r.values) == Lower(s)
  {
    var p := LastSeparator(s);
    CharsOfValues(s[p + 1..]);
    LowerParts(s, p);
  }

  lemma {:induction false} LowerIsLegal(s: string)
    requires s != [] && forall i :: 0 <= i < |s| ==> 33 <= s[i] as int <= 126
    ensures LegalHrp(Lower(s))
  {
    forall i | 0 <= i < |s| ensures 33 <= Lower(s)[i] as int <= 126 && !IsUpper(Lower(s)[i]) {
      LowerCode(s[i]);
    }
  }

  lemma {:induction false} CharsOfValues(s: string)
    requires AllInCharset(s)
    ensures Chars(Values(s)) == Lower(s)
  {
    forall i | 0 <= i < |s| ensures Chars(Values(s))[i] == Lower(s)[i] {
      RevRoundTrip(s[i]);
    }
  }

  lemma {:induction false} LowerParts(s: string, p: nat)
    requires p < |s| && s[p] == SEPARATOR
    ensures Lower(s) == Lower(s[..p]) + [SEPARATOR] + Lower(s[p + 1..])
  {
    assert LowerCase(SEPARATOR) == SEPARATOR;
    assert s == s[..p] + [SEPARATOR] + s[p + 1..];
  }

  // ---- either case ----

  lemma RevOfLower(c: char)
    requires c as int <= 126
    ensures RevOf(LowerCase(c)) == RevOf(c) && (LowerCase(c) == SEPARATOR <==> c == SEPARATOR)
  {
    LowerCode(c);
  }

  lemma {:induction false} LowerGood(s: string)
    requires GoodChars(s)
    ensures GoodChars(Lower(s)) && LastSeparator(Lower(s)) == LastSeparator(s)
  {
    forall i | 0 <= i < |s|
      ensures 33 <= Lower(s)[i] as int <= 126 && !IsUpper(Lower(s)[i])
      ensures (Lower(s)[i] == SEPARATOR <==> s[i] == SEPARATOR)
    {
      LowerCode(s[i]);
      RevOfLower(s[i]);
    }
  }

  lemma {:induction false} LowerValues(s: string)
    requires forall i :: 0 <= i < |s| ==> s[i] as int <= 126
    ensures AllInCharset(Lower(s)) <==> AllInCharset(s)
    ensures AllInCharset(s) ==> Values(Lower(s)) == Values(s)
  {
    forall i | 0 <= i < |s| ensures RevOf(Lower(s)[i]) == RevOf(s[i]) {
      RevOfLower(s[i]);
    }
    if AllInCharset(s) {
      forall i | 0 <= i < |s| ensures Values(Lower(s))[i] == Values(s)[i] {
        assert RevOf(Lower(s)[i]) == RevOf(s[i]);
      }
    }
  }

  lemma {:induction false} LowerTwice(s: string)
    ensures Lower(Lower(s)) == Lower(s)
  {
  }

  /** Text that does not mix cases reads as in lower case. */
  lemma {:induction false} ReadLower(s: string, limit: nat, checksumLength: nat)
    requires GoodChars(s)
    ensures Reading(Lower(s), limit, checksumLength) == Reading(s, limit, checksumLength)
  {
    LowerGood(s);
    var p := LastSeparator(s);
    if p > 0 {
      assert Lower(s)[..p] == Lower(s[..p]) && Lower(s)[p + 1..] == Lower(s[p + 1..]);
      LowerTwice(s[..p]);
      LowerValues(s[p + 1..]);
    }
  }
}

/** One published text of each encoding. */
module Bech32Examples {
  import opened Gf32
  import opened HrpStrings
  import opened Bech32

  // ---- step by step ----

  ghost function FoldBy<A, B>(f: (A, B) -> A, c: A, vs: seq<B>): A
    decreases |vs|
  {
    if |vs| == 0 then c else FoldBy(f, f(c, vs[0]), vs[1..])
  }

  /** cs are the values on the way, one after another. */
  ghost predicate IsTrace<A, B>(f: (A, B) -> A, vs: seq<B>, cs: seq<A>) {
    |cs| == |vs| + 1 && forall i :: 0 <= i < |vs| ==> cs[i + 1] == f(cs[i], vs[i])
  }

  lemma {:induction false} TraceEnds<A, B>(f: (A, B) -> A, vs: seq<B>, cs: seq<A>)
    requires IsTrace(f, vs, cs)
    ensures FoldBy(f, cs[0], vs) == cs[|vs|]
    decreases |vs|
  {
    if |vs| > 0 {
      forall i | 0 <= i < |vs[1..]| ensures cs[1..][i + 1] == f(cs[1..][i], vs[1..][i]) {
        assert cs[1..][i + 1] == cs[i + 2] && cs[1..][i] == cs[i + 1] && vs[1..][i] == vs[i + 1];
      }
      TraceEnds(f, vs[1..], cs[1..]);
    }
  }

  lemma {:induction false} FoldByJoin<A, B>(f: (A, B) -> A, c: A, a: seq<B>, b: seq<B>)
    ensures FoldBy(f, c, a + b) == FoldBy(f, FoldBy(f, c, a), b)
    decreases |a|
  {
    if a == [] {
      assert a + b == b;
    } else {
      assert (a + b)[1..] == a[1..] + b;
      FoldByJoin(f, f(c, a[0]), a[1..], b);
    }
  }

  function OneStep(c: bv32, v: Element): bv32 {
    PackedStep(c, v as bv32)
  }

  lemma {:induction false} PackedFoldBy(c: bv32, vs: seq<Element>)
    ensures PackedFold(c, vs) == FoldBy(OneStep, c, vs)
    decreases |vs|
  {
    if |vs| > 0 {
      PackedFoldBy(OneStep(c, vs[0]), vs[1..]);
    }
  }

  // ---- the human readable part ----

  lemma {:induction false} FoldPart()
    ensures FoldBy(OneStep, 0x1, [3, 3, 3, 3, 3, 3, 0, 1, 2, 3, 4, 5, 6]) == 0x3be80e6a
  {
    var vs: seq<Element> := [3, 3, 3, 3, 3, 3, 0, 1, 2, 3, 4, 5, 6];
    var cs: seq<bv32> := [0x1, 0x23, 0x463, 0x8c63, 0x118c63, 0x2318c63, 0x3d5bdbd1, 0x4dcbcd9, 0x3dc7154c,
                          0x17456f7b, 0x8d50561, 0x401b5de, 0x266635a8, 0x3be80e6a];
    TraceEnds(OneStep, vs, cs);
  }

  lemma {:induction false} ExpandedPart()
    ensures Expanded("abcdef") == [3, 3, 3, 3, 3, 3, 0, 1, 2, 3, 4, 5, 6]
  {
  }

  // ---- the characters ----

  lemma {:induction false} CharsJoin(a: seq<Element>, b: seq<Element>)
    ensures Chars(a + b) == Chars(a) + Chars(b)
  {
  }

  // ---- a valid Bech32 text of BIP 173 ----

  function Ascending(): seq<Element> {
    [0, 1, 2, 3, 4, 5, 6, 7, 8, 9, 10, 11, 12, 13, 14, 15]
    + [16, 17, 18, 19, 20, 21, 22, 23, 24, 25, 26, 27, 28, 29, 30, 31]
  }

  function Bip173Sum(): seq<Element> {
    [27, 0, 0, 0, 6, 14]
  }

  lemma {:induction false} Bip173First()
    ensures FoldBy(OneStep, 0x3be80e6a, [0, 1, 2, 3, 4, 5, 6, 7, 8, 9, 10, 11, 12, 13, 14, 15]) == 0x31223f8a
  {
    var vs: seq<Element> := [0, 1, 2, 3, 4, 5, 6, 7, 8, 9, 10, 11, 12, 13, 14, 15];
    var cs: seq<bv32> := [0x3be80e6a, 0xf9cd266, 0x30018ce4, 0x1767cdec, 0xc815781, 0x28db67b3, 0x2fd98d2c,
                          0x12be0710, 0x11e88668, 0x52fed5, 0xa5fdaa9, 0x2e301b62, 0x2f8ccedd, 0x1816793a, 0x212c0d6a,
                              0xf95cffd, 0x31223f8a];
    TraceEnds(OneStep, vs, cs);
  }

  lemma {:induction false} Bip173Second()
    ensures FoldBy(OneStep, 0x31223f8a, [16, 17, 18, 19, 20, 21, 22, 23, 24, 25, 26, 27, 28, 29, 30, 31]) == 0x1a0d3656
  {
    var vs: seq<Element> := [16, 17, 18, 19, 20, 21, 22, 23, 24, 25, 26, 27, 28, 29, 30, 31];
    var cs: seq<bv32> := [0x31223f8a, 0x3311a03e, 0xe08010d, 0x29be197, 0x28166541, 0x3679d37d, 0x556e704, 0xc8c6efb,
                          0x297c48e0, 0x1b3c6751, 0x3f0597ac, 0x347f64d1, 0x3eea4538, 0x9853657, 0x2e07d307,
                              0x2975c268, 0x1a0d3656];
    TraceEnds(OneStep, vs, cs);
  }

  lemma {:induction false} Bip173Third()
    ensures FoldBy(OneStep, 0x1a0d3656, [27, 0, 0, 0, 6, 14]) == 0x1
  {
    var vs: seq<Element> := [27, 0, 0, 0, 6, 14];
    var cs: seq<bv32> := [0x1a0d3656, 0x192fb74e, 0x615c3e7, 0x1f82a53f, 0xe8d5418, 0x12314323, 0x1];
    TraceEnds(OneStep, vs, cs);
  }

  lemma {:induction false} Bip173Completion()
    ensures Bip173Sum() == Completion(BECH32, Expanded("abcdef") + Ascending())
  {
    var a, b, c, d: seq<Element>, e: seq<Element> := Expanded("abcdef"), Ascending(), Bip173Sum(),
        [0, 1, 2, 3, 4, 5, 6, 7, 8, 9, 10, 11, 12, 13, 14, 15],
            [16, 17, 18, 19, 20, 21, 22, 23, 24, 25, 26, 27, 28, 29, 30, 31];
    ExpandedPart();
    FoldPart();
    Bip173First();
    Bip173Second();
    Bip173Third();
    assert b == d + e;
    FoldByJoin(OneStep, 1, a + b, c);
    FoldByJoin(OneStep, 1, a, b);
    FoldByJoin(OneStep, 0x3be80e6a, d, e);
    PackedFoldBy(1, a + b + c);
    ChecksumIsUnique(BECH32, a + b, c);
  }

  lemma {:induction false} Bip173CharsA1()
    ensures Chars([0, 1, 2, 3, 4, 5, 6, 7]) == "qpzry9x8"
  {
    assert CharOf(0) == 'q' && CharOf(1) == 'p' && CharOf(2) == 'z' && CharOf(3) == 'r';
    assert CharOf(4) == 'y' && CharOf(5) == '9' && CharOf(6) == 'x' && CharOf(7) == '8';
  }

  lemma {:induction false} Bip173CharsA2()
    ensures Chars([8, 9, 10, 11, 12, 13, 14, 15]) == "gf2tvdw0"
  {
    assert CharOf(8) == 'g' && CharOf(9) == 'f' && CharOf(10) == '2' && CharOf(11) == 't';
    assert CharOf(12) == 'v' && CharOf(13) == 'd' && CharOf(14) == 'w' && CharOf(15) == '0';
  }

  lemma {:induction false} Bip173CharsA()
    ensures Chars([0, 1, 2, 3, 4, 5, 6, 7, 8, 9, 10, 11, 12, 13, 14, 15]) == "qpzry9x8gf2tvdw0"
  {
    var a: seq<Element>, b: seq<Element> := [0, 1, 2, 3, 4, 5, 6, 7], [8, 9, 10, 11, 12, 13, 14, 15];
    Bip173CharsA1();
    Bip173CharsA2();
    CharsJoin(a, b);
    assert a + b == [0, 1, 2, 3, 4, 5, 6, 7, 8, 9, 10, 11, 12, 13, 14, 15];
    assert "qpzry9x8" + "gf2tvdw0" == "qpzry9x8gf2tvdw0";
  }

  lemma {:induction false} Bip173CharsB1()
    ensures Chars([16, 17, 18, 19, 20, 21, 22, 23]) == "s3jn54kh"
  {
    assert CharOf(16) == 's' && CharOf(17) == '3' && CharOf(18) == 'j' && CharOf(19) == 'n';
    assert CharOf(20) == '5' && CharOf(21) == '4' && CharOf(22) == 'k' && CharOf(23) == 'h';
  }

  lemma {:induction false} Bip173CharsB2()
    ensures Chars([24, 25, 26, 27, 28, 29, 30, 31]) == "ce6mua7l"
  {
    assert CharOf(24) == 'c' && CharOf(25) == 'e' && CharOf(26) == '6' && CharOf(27) == 'm';
    assert CharOf(28) == 'u' && CharOf(29) == 'a' && CharOf(30) == '7' && CharOf(31) == 'l';
  }

  lemma {:induction false} Bip173CharsB()
    ensures Chars([16, 17, 18, 19, 20, 21, 22, 23, 24, 25, 26, 27, 28, 29, 30, 31]) == "s3jn54khce6mua7l"
  {
    var a: seq<Element>, b: seq<Element> := [16, 17, 18, 19, 20, 21, 22, 23], [24, 25, 26, 27, 28, 29, 30, 31];
    Bip173CharsB1();
    Bip173CharsB2();
    CharsJoin(a, b);
    assert a + b == [16, 17, 18, 19, 20, 21, 22, 23, 24, 25, 26, 27, 28, 29, 30, 31];
    assert "s3jn54kh" + "ce6mua7l" == "s3jn54khce6mua7l";
  }

  lemma {:induction false} Bip173CharsC()
    ensures Chars([27, 0, 0, 0, 6, 14]) == "mqqqxw"
  {
    assert CharOf(0) == 'q' && CharOf(6) == 'x' && CharOf(14) == 'w' && CharOf(27) == 'm';
  }

  function Bip173Text(): string {
    "abcdef1" + "qpzry9x8gf2tvdw0" + "s3jn54khce6mua7l" + "mqqqxw"
  }

  lemma {:induction false} Bip173Chars()
    ensures Rendered("abcdef", Ascending() + Bip173Sum()) == Bip173Text()
  {
    Bip173CharsA();
    Bip173CharsB();
    Bip173CharsC();
    CharsJoin([0, 1, 2, 3, 4, 5, 6, 7, 8, 9, 10, 11, 12, 13, 14, 15],
              [16, 17, 18, 19, 20, 21, 22, 23, 24, 25, 26, 27, 28, 29, 30, 31]);
    CharsJoin(Ascending(), Bip173Sum());
    assert "abcdef" + [SEPARATOR] == "abcdef1";
  }

  lemma {:induction false} Bip173()
    ensures Encoded(BECH32, "abcdef", Ascending()) == Bip173Text()
    ensures Decoding(Bip173Text(), 90) == Decoded(BECH32, "abcdef", Ascending())
  {
    Bip173Completion();
    Bip173Chars();
    DecodeEncoded(BECH32, "abcdef", Ascending(), 90);
  }

  // ---- a valid Bech32m text of BIP 350 ----

  function Descending(): seq<Element> {
    [31, 30, 29, 28, 27, 26, 25, 24, 23, 22, 21, 20, 19, 18, 17, 16]
    + [15, 14, 13, 12, 11, 10, 9, 8, 7, 6, 5, 4, 3, 2, 1, 0]
  }

  function Bip350Sum(): seq<Element> {
    [2, 13, 17, 3, 4, 6]
  }

  lemma {:induction false} Bip350First()
    ensures FoldBy(OneStep, 0x3be80e6a, [31, 30, 29, 28, 27, 26, 25, 24, 23, 22, 21, 20, 19, 18, 17, 16]) == 0x351f9f3
  {
    var vs: seq<Element> := [31, 30, 29, 28, 27, 26, 25, 24, 23, 22, 21, 20, 19, 18, 17, 16];
    var cs: seq<bv32> := [0x3be80e6a, 0xf9cd279, 0x30018f1b, 0x1767b213, 0xc8ea87e, 0x2924984c, 0x102672d3,
                          0x398c69a4, 0x387a7c0c, 0x6b8c903, 0xa23f9a9, 0x21b47b7d, 0x1c9b0d07, 0x16d204b9,
                              0x3a387d30, 0x3592b937, 0x351f9f3];
    TraceEnds(OneStep, vs, cs);
  }

  lemma {:induction false} Bip350Second()
    ensures FoldBy(OneStep, 0x351f9f3, [15, 14, 13, 12, 11, 10, 9, 8, 7, 6, 5, 4, 3, 2, 1, 0]) == 0xcd42356
  {
    var vs: seq<Element> := [15, 14, 13, 12, 11, 10, 9, 8, 7, 6, 5, 4, 3, 2, 1, 0];
    var cs: seq<bv32> := [0x351f9f3, 0x115569dd, 0x17ef0873, 0x1d99e46f, 0x368f29a6, 0x1b89bc7a, 0x29bef2df,
                          0x36b20a0, 0x160e43ba, 0x21b09d45, 0x1c07ca15, 0x54ae6ef, 0xf0c5389, 0x2211b106, 0x134815c3,
                              0x2f2adc0e, 0xcd42356];
    TraceEnds(OneStep, vs, cs);
  }

  lemma {:induction false} Bip350Third()
    ensures FoldBy(OneStep, 0xcd42356, [2, 13, 17, 3, 4, 6]) == 0x2bc830a3
  {
    var vs: seq<Element> := [2, 13, 17, 3, 4, 6];
    var cs: seq<bv32> := [0xcd42356, 0x2275fd55, 0x1fc19fac, 0x6ea0669, 0x7a14fc, 0xf429f84, 0x2bc830a3];
    TraceEnds(OneStep, vs, cs);
  }

  lemma {:induction false} Bip350Completion()
    ensures Bip350Sum() == Completion(BECH32M, Expanded("abcdef") + Descending())
  {
    var a, b, c, d: seq<Element>, e: seq<Element> := Expanded("abcdef"), Descending(), Bip350Sum(),
        [31, 30, 29, 28, 27, 26, 25, 24, 23, 22, 21, 20, 19, 18, 17, 16],
            [15, 14, 13, 12, 11, 10, 9, 8, 7, 6, 5, 4, 3, 2, 1, 0];
    ExpandedPart();
    FoldPart();
    Bip350First();
    Bip350Second();
    Bip350Third();
    assert b == d + e;
    FoldByJoin(OneStep, 1, a + b, c);
    FoldByJoin(OneStep, 1, a, b);
    FoldByJoin(OneStep, 0x3be80e6a, d, e);
    PackedFoldBy(1, a + b + c);
    ChecksumIsUnique(BECH32M, a + b, c);
  }

  lemma {:induction false} Bip350CharsA1()
    ensures Chars([31, 30, 29, 28, 27, 26, 25, 24]) == "l7aum6ec"
  {
    assert CharOf(31) == 'l' && CharOf(30) == '7' && CharOf(29) == 'a' && CharOf(28) == 'u';
    assert CharOf(27) == 'm' && CharOf(26) == '6' && CharOf(25) == 'e' && CharOf(24) == 'c';
  }

  lemma {:induction false} Bip350CharsA2()
    ensures Chars([23, 22, 21, 20, 19, 18, 17, 16]) == "hk45nj3s"
  {
    assert CharOf(23) == 'h' && CharOf(22) == 'k' && CharOf(21) == '4' && CharOf(20) == '5';
    assert CharOf(19) == 'n' && CharOf(18) == 'j' && CharOf(17) == '3' && CharOf(16) == 's';
  }

  lemma {:induction false} Bip350CharsA()
    ensures Chars([31, 30, 29, 28, 27, 26, 25, 24, 23, 22, 21, 20, 19, 18, 17, 16]) == "l7aum6echk45nj3s"
  {
    var a: seq<Element>, b: seq<Element> := [31, 30, 29, 28, 27, 26, 25, 24], [23, 22, 21, 20, 19, 18, 17, 16];
    Bip350CharsA1();
    Bip350CharsA2();
    CharsJoin(a, b);
    assert a + b == [31, 30, 29, 28, 27, 26, 25, 24, 23, 22, 21, 20, 19, 18, 17, 16];
    assert "l7aum6ec" + "hk45nj3s" == "l7aum6echk45nj3s";
  }

  lemma {:induction false} Bip350CharsB1()
    ensures Chars([15, 14, 13, 12, 11, 10, 9, 8]) == "0wdvt2fg"
  {
    assert CharOf(15) == '0' && CharOf(14) == 'w' && CharOf(13) == 'd' && CharOf(12) == 'v';
    assert CharOf(11) == 't' && CharOf(10) == '2' && CharOf(9) == 'f' && CharOf(8) == 'g';
  }

  lemma {:induction false} Bip350CharsB2()
    ensures Chars([7, 6, 5, 4, 3, 2, 1, 0]) == "8x9yrzpq"
  {
    assert CharOf(7) == '8' && CharOf(6) == 'x' && CharOf(5) == '9' && CharOf(4) == 'y';
    assert CharOf(3) == 'r' && CharOf(2) == 'z' && CharOf(1) == 'p' && CharOf(0) == 'q';
  }

  lemma {:induction false} Bip350CharsB()
    ensures Chars([15, 14, 13, 12, 11, 10, 9, 8, 7, 6, 5, 4, 3, 2, 1, 0]) == "0wdvt2fg8x9yrzpq"
  {
    var a: seq<Element>, b: seq<Element> := [15, 14, 13, 12, 11, 10, 9, 8], [7, 6, 5, 4, 3, 2, 1, 0];
    Bip350CharsB1();
    Bip350CharsB2();
    CharsJoin(a, b);
    assert a + b == [15, 14, 13, 12, 11, 10, 9, 8, 7, 6, 5, 4, 3, 2, 1, 0];
    assert "0wdvt2fg" + "8x9yrzpq" == "0wdvt2fg8x9yrzpq";
  }

  lemma {:induction false} Bip350CharsC()
    ensures Chars([2, 13, 17, 3, 4, 6]) == "zd3ryx"
  {
    assert CharOf(2) == 'z' && CharOf(3) == 'r' && CharOf(4) == 'y' && CharOf(6) == 'x' && CharOf(13) == 'd'
        && CharOf(17) == '3';
  }

  function Bip350Text(): string {
    "abcdef1" + "l7aum6echk45nj3s" + "0wdvt2fg8x9yrzpq" + "zd3ryx"
  }

  lemma {:induction false} Bip350Chars()
    ensures Rendered("abcdef", Descending() + Bip350Sum()) == Bip350Text()
  {
    Bip350CharsA();
    Bip350CharsB();
    Bip350CharsC();
    CharsJoin([31, 30, 29, 28, 27, 26, 25, 24, 23, 22, 21, 20, 19, 18, 17, 16],
              [15, 14, 13, 12, 11, 10, 9, 8, 7, 6, 5, 4, 3, 2, 1, 0]);
    CharsJoin(Descending(), Bip350Sum());
    assert "abcdef" + [SEPARATOR] == "abcdef1";
  }

  lemma {:induction false} Bip350()
    ensures Encoded(BECH32M, "abcdef", Descending()) == Bip350Text()
    ensures Decoding(Bip350Text(), 90) == Decoded(BECH32M, "abcdef", Descending())
  {
    Bip350Completion();
    Bip350Chars();
    DecodeEncoded(BECH32M, "abcdef", Descending(), 90);
  }
}

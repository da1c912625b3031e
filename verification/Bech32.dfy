/** Bech32 and Bech32m: the packed checksum, and text with it. */
module Bech32 {
  import opened Options
  import opened Gf32
  import opened Gf32Fields
  import opened Checksums
  import opened HrpStrings

  // ---- the packed checksum ----

  /** The generator x^6 + {29}x^5 + {22}x^4 + {20}x^3 + {21}x^2 + {29}x + {18}, without its leading term. */
  function Gen(): seq<Element> {
    [29, 22, 20, 21, 29, 18]
  }

  /** c0 times the generator, six coefficients packed into 30 bits. */
  function Multiple(c0: bv32): bv32 {
    (if c0 & 1 != 0 then 0x3b6a57b2 else 0) ^ (if c0 & 2 != 0 then 0x26508e6d else 0)
        ^ (if c0 & 4 != 0 then 0x1ea119fa else 0)
    ^ (if c0 & 8 != 0 then 0x3d4233dd else 0) ^ (if c0 & 16 != 0 then 0x2a1462b3 else 0)
  }

  function PackedStep(c: bv32, v: bv32): bv32 {
    (((c & 0x1ffffff) << 5) ^ v) ^ Multiple(c >> 25)
  }

  /** The five-bit groups of a packed remainder, highest first. */
  function Group0(c: bv32): Element {
    ((c >> 25) & 31) as Element
  }

  function Group1(c: bv32): Element {
    ((c >> 20) & 31) as Element
  }

  function Group2(c: bv32): Element {
    ((c >> 15) & 31) as Element
  }

  function Group3(c: bv32): Element {
    ((c >> 10) & 31) as Element
  }

  function Group4(c: bv32): Element {
    ((c >> 5) & 31) as Element
  }

  function Group5(c: bv32): Element {
    (c & 31) as Element
  }

  lemma MultipleGroups(c0: bv32)
    requires c0 < 32
    ensures Multiple(c0) < 0x40000000
    ensures Group0(Multiple(c0)) == Mul(29, c0 as Element) && Group1(Multiple(c0)) == Mul(22, c0 as Element)
    ensures Group2(Multiple(c0)) == Mul(20, c0 as Element) && Group3(Multiple(c0)) == Mul(21, c0 as Element)
    ensures Group4(Multiple(c0)) == Mul(29, c0 as Element) && Group5(Multiple(c0)) == Mul(18, c0 as Element)
  {
  }

  lemma GroupsShift(c: bv32, v: bv32, d: bv32)
    requires c < 0x40000000 && v < 32 && d == ((c & 0x1ffffff) << 5) ^ v
    ensures d < 0x40000000 && Group0(d) == Group1(c) && Group1(d) == Group2(c) && Group2(d) == Group3(c)
    ensures Group3(d) == Group4(c) && Group4(d) == Group5(c) && Group5(d) == v as Element
  {
  }

  lemma XorFits(x: bv32, y: bv32)
    requires x < 0x40000000 && y < 0x40000000
    ensures x ^ y < 0x40000000
  {
  }

  lemma GroupsXor(x: bv32, y: bv32)
    ensures Group0(x ^ y) == Group0(x) ^ Group0(y) && Group1(x ^ y) == Group1(x) ^ Group1(y)
    ensures Group2(x ^ y) == Group2(x) ^ Group2(y) && Group3(x ^ y) == Group3(x) ^ Group3(y)
    ensures Group4(x ^ y) == Group4(x) ^ Group4(y) && Group5(x ^ y) == Group5(x) ^ Group5(y)
  {
  }

  lemma TopGroup(c: bv32)
    requires c < 0x40000000
    ensures c >> 25 < 32 && Group0(c) == (c >> 25) as Element
  {
  }

  function Unpacked(c: bv32): (r: seq<Element>)
    ensures |r| == 6
  {
    [Group0(c), Group1(c), Group2(c), Group3(c), Group4(c), Group5(c)]
  }

  /** A packed step is a step of division by the generator. */
  lemma {:induction false} PackedStepIs(c: bv32, v: bv32, c': bv32)
    requires c < 0x40000000 && v < 32 && c' == PackedStep(c, v)
    ensures c' < 0x40000000 && Unpacked(c') == Step(F(), Gen(), Unpacked(c), v as Element)
  {
    var m := Multiple(c >> 25);
    StepGroups(c, v, m, c');
    StepMultiple(c, m);
    StepOfSix(Unpacked(c), v as Element, Unpacked(c'), Unpacked(m));
  }

  lemma {:induction false} StepGroups(c: bv32, v: bv32, m: bv32, c': bv32)
    requires c < 0x40000000 && v < 32 && m == Multiple(c >> 25) && c' == PackedStep(c, v)
    ensures c' < 0x40000000 && Advanced(Unpacked(c), v as Element, Unpacked(m), Unpacked(c'))
  {
    var d := ((c & 0x1ffffff) << 5) ^ v;
    MultipleFits(c);
    GroupsShift(c, v, d);
    XorFits(d, m);
    JoinGroups(c, v as Element, d, m, c');
  }

  lemma MultipleFits(c: bv32)
    requires c < 0x40000000
    ensures Multiple(c >> 25) < 0x40000000
  {
  }

  lemma {:induction false} JoinGroups(c: bv32, v: Element, d: bv32, m: bv32, c': bv32)
    requires c' == d ^ m && Group0(d) == Group1(c) && Group1(d) == Group2(c) && Group2(d) == Group3(c)
    requires Group3(d) == Group4(c) && Group4(d) == Group5(c) && Group5(d) == v
    ensures Advanced(Unpacked(c), v, Unpacked(m), Unpacked(c'))
  {
    XorUnpacked(d, m, c');
    JoinElements(Unpacked(c), v, Unpacked(d), Unpacked(m), Unpacked(c'));
  }

  lemma {:induction false} XorUnpacked(d: bv32, m: bv32, c': bv32)
    requires c' == d ^ m
    ensures var x, y, z := Unpacked(d), Unpacked(m), Unpacked(c');
            && z[0] == x[0] ^ y[0] && z[1] == x[1] ^ y[1] && z[2] == x[2] ^ y[2]
            && z[3] == x[3] ^ y[3] && z[4] == x[4] ^ y[4] && z[5] == x[5] ^ y[5]
  {
    GroupsXor(d, m);
  }

  lemma {:induction false} JoinElements(r: seq<Element>, v: Element, d: seq<Element>, m: seq<Element>, r': seq<Element>)
    requires |r| == |d| == |m| == |r'| == 6
    requires d[0] == r[1] && d[1] == r[2] && d[2] == r[3] && d[3] == r[4] && d[4] == r[5] && d[5] == v
    requires r'[0] == d[0] ^ m[0] && r'[1] == d[1] ^ m[1] && r'[2] == d[2] ^ m[2]
    requires r'[3] == d[3] ^ m[3] && r'[4] == d[4] ^ m[4] && r'[5] == d[5] ^ m[5]
    ensures Advanced(r, v, m, r')
  {
    SixAdvanced(r, v, m, r');
  }

  /** r' is r moved up by one place, plus m. */
  ghost predicate Advanced(r: seq<Element>, v: Element, m: seq<Element>, r': seq<Element>)
    requires |r| == |m| == |r'| == 6
  {
    forall i :: 0 <= i < 6 ==> r'[i] == Moved(r, v, i) ^ m[i]
  }

  lemma {:induction false} SixAdvanced(r: seq<Element>, v: Element, m: seq<Element>, r': seq<Element>)
    requires |r| == |m| == |r'| == 6
    requires r'[0] == r[1] ^ m[0] && r'[1] == r[2] ^ m[1] && r'[2] == r[3] ^ m[2]
    requires r'[3] == r[4] ^ m[3] && r'[4] == r[5] ^ m[4] && r'[5] == v ^ m[5]
    ensures Advanced(r, v, m, r')
  {
    forall i | 0 <= i < 6 ensures r'[i] == Moved(r, v, i) ^ m[i] {
      if i == 0 {
        assert Moved(r, v, 0) == r[1];
      } else if i == 1 {
        assert Moved(r, v, 1) == r[2];
      } else if i == 2 {
        assert Moved(r, v, 2) == r[3];
      } else if i == 3 {
        assert Moved(r, v, 3) == r[4];
      } else if i == 4 {
        assert Moved(r, v, 4) == r[5];
      }
    }
  }

  ghost predicate IsMultiple(c0: Element, m: seq<Element>)
    requires |m| == 6
  {
    forall i :: 0 <= i < 6 ==> m[i] == Mul(Gen()[i], c0)
  }

  lemma {:induction false} StepMultiple(c: bv32, m: bv32)
    requires c < 0x40000000 && m == Multiple(c >> 25)
    ensures IsMultiple(Unpacked(c)[0], Unpacked(m))
  {
    TopGroup(c);
    MultipleGroups(c >> 25);
    SixMultiple(Group0(c), Unpacked(m));
  }

  lemma {:induction false} SixMultiple(c0: Element, m: seq<Element>)
    requires |m| == 6 && m[0] == Mul(29, c0) && m[1] == Mul(22, c0) && m[2] == Mul(20, c0)
    requires m[3] == Mul(21, c0) && m[4] == Mul(29, c0) && m[5] == Mul(18, c0)
    ensures IsMultiple(c0, m)
  {
  }

  lemma {:induction false} StepAt(r: seq<Element>, v: Element, i: nat, x: Element, m: Element)
    requires |r| == 6 && i < 6 && x == Moved(r, v, i) && m == Mul(Gen()[i], r[0])
    ensures Step(F(), Gen(), r, v)[i] == x ^ m
  {
  }

  lemma {:induction false} StepOfSix(r: seq<Element>, v: Element, r': seq<Element>, m: seq<Element>)
    requires |r| == |r'| == |m| == 6 && IsMultiple(r[0], m) && Advanced(r, v, m, r')
    ensures r' == Step(F(), Gen(), r, v)
  {
    forall i | 0 <= i < 6 ensures r'[i] == Step(F(), Gen(), r, v)[i] {
      StepAt(r, v, i, Moved(r, v, i), m[i]);
    }
  }

  // ---- whole messages ----

  /** The packed remainder after processing vs from c. */
  function PackedFold(c: bv32, vs: seq<Element>): bv32
    decreases |vs|
  {
    if |vs| == 0 then c else PackedFold(PackedStep(c, vs[0] as bv32), vs[1..])
  }

  lemma {:induction false} PackedFoldIs(c: bv32, vs: seq<Element>)
    requires c < 0x40000000
    ensures PackedFold(c, vs) < 0x40000000 && Unpacked(PackedFold(c, vs)) == Fold(F(), Gen(), Unpacked(c), vs)
    decreases |vs|
  {
    if |vs| > 0 {
      var c' := PackedStep(c, vs[0] as bv32);
      ElementFits(vs[0]);
      PackedStepIs(c, vs[0] as bv32, c');
      PackedFoldIs(c', vs[1..]);
    }
  }

  lemma ElementFits(v: Element)
    ensures v as bv32 < 32 && (v as bv32) as Element == v
  {
  }

  method PolyMod(v: seq<Element>) returns (c: bv32)
    ensures c == PackedFold(1, v)
  {
    c := 1;
    assert v[0..] == v;
    for i := 0 to |v|
      invariant PackedFold(c, v[i..]) == PackedFold(1, v)
    {
      assert v[i..][0] == v[i] && v[i..][1..] == v[i + 1..];
      c := PackedStep(c, v[i] as bv32);
    }
  }

  // ---- checksums ----

  datatype Encoding = BECH32 | BECH32M

  function Constant(encoding: Encoding): bv32 {
    if encoding == BECH32 then 1 else 0x2bc830a3
  }

  function SixZeros(): (r: seq<Element>)
    ensures |r| == 6 && forall i :: 0 <= i < 6 ==> r[i] == 0
  {
    [0, 0, 0, 0, 0, 0]
  }

  function Mixed(mod: bv32, encoding: Encoding): bv32 {
    mod ^ Constant(encoding)
  }

  /** What is appended to a message e. */
  ghost function Completion(encoding: Encoding, e: seq<Element>): (r: seq<Element>)
    ensures |r| == 6
  {
    Unpacked(Mixed(PackedFold(1, e + SixZeros()), encoding))
  }

  method CreateChecksum(encoding: Encoding, hrp: string, values: seq<Element>) returns (ret: seq<Element>)
    ensures ret == Completion(encoding, Expanded(hrp) + values)
  {
    var enc := PreparePolynomialCoefficients(hrp, values);
    ret := CreateFor(encoding, enc);
  }

  method CreateFor(encoding: Encoding, enc: seq<Element>) returns (ret: seq<Element>)
    ensures ret == Completion(encoding, enc)
  {
    var polynomial := PolyMod(enc + SixZeros());
    var mod := Mixed(polynomial, encoding);
    ret := Unpacked(mod);
  }

  /** The encoding whose constant a remainder is, if any. */
  function EncodingOf(check: bv32): (r: Option<Encoding>)
    ensures forall encoding :: r == Some(encoding) <==> check == Constant(encoding)
  {
    if check == Constant(BECH32) then Some(BECH32) else if check == Constant(BECH32M) then Some(BECH32M) else None
  }

  ghost function Verified(e: seq<Element>): Option<Encoding> {
    EncodingOf(PackedFold(1, e))
  }

  method VerifyChecksum(hrp: string, values: seq<Element>) returns (r: Option<Encoding>)
    ensures r == Verified(Expanded(hrp) + values)
  {
    var enc := PreparePolynomialCoefficients(hrp, values);
    var check := PolyMod(enc);
    r := EncodingOf(check);
  }

  lemma UnpackedInjective(x: bv32, y: bv32)
    requires x < 0x40000000 && y < 0x40000000
    requires Group0(x) == Group0(y) && Group1(x) == Group1(y) && Group2(x) == Group2(y)
    requires Group3(x) == Group3(y) && Group4(x) == Group4(y) && Group5(x) == Group5(y)
    ensures x == y
  {
  }

  lemma {:induction false} SameUnpacked(x: bv32, y: bv32)
    requires x < 0x40000000 && y < 0x40000000 && Unpacked(x) == Unpacked(y)
    ensures x == y
  {
    var a, b := Unpacked(x), Unpacked(y);
    assert a[0] == b[0] && a[1] == b[1] && a[2] == b[2] && a[3] == b[3] && a[4] == b[4] && a[5] == b[5];
    UnpackedInjective(x, y);
  }

  lemma ConstantFits(encoding: Encoding)
    ensures Constant(encoding) < 0x40000000
  {
  }

  lemma OneFits()
    ensures 1 as bv32 < 0x40000000
  {
  }

  lemma {:induction false} SumUnpacked(x: bv32, y: bv32)
    ensures Unpacked(x ^ y) == Sum(F(), Unpacked(x), Unpacked(y))
  {
    XorUnpacked(x, y, x ^ y);
    SixSum(Unpacked(x), Unpacked(y), Unpacked(x ^ y));
  }

  lemma {:induction false} SixSum(x: seq<Element>, y: seq<Element>, z: seq<Element>)
    requires |x| == |y| == |z| == 6
    requires z[0] == x[0] ^ y[0] && z[1] == x[1] ^ y[1] && z[2] == x[2] ^ y[2]
    requires z[3] == x[3] ^ y[3] && z[4] == x[4] ^ y[4] && z[5] == x[5] ^ y[5]
    ensures z == Sum(F(), x, y)
  {
    forall i | 0 <= i < 6 ensures z[i] == Sum(F(), x, y)[i] {
      assert Sum(F(), x, y)[i] == x[i] ^ y[i];
      if i == 0 {
      } else if i == 1 {
      } else if i == 2 {
      } else if i == 3 {
      } else if i == 4 {
      }
    }
  }

  lemma {:induction false} PackedAfter(c: bv32, a: seq<Element>, b: seq<Element>)
    requires c < 0x40000000
    ensures Unpacked(PackedFold(c, a + b)) == Fold(F(), Gen(), Fold(F(), Gen(), Unpacked(c), a), b)
    ensures PackedFold(c, a + b) < 0x40000000
  {
    PackedFoldIs(c, a + b);
    FoldConcat(F(), Gen(), Unpacked(c), a, b);
  }

  lemma {:induction false} SixZerosAre()
    ensures SixZeros() == Zeros(F(), 6)
  {
    assert |Zeros(F(), 6)| == 6;
  }

  lemma {:induction false} MixedUnpacked(mod: bv32, encoding: Encoding)
    ensures Unpacked(Mixed(mod, encoding)) == Sum(F(), Unpacked(mod), Unpacked(Constant(encoding)))
  {
    SumUnpacked(mod, Constant(encoding));
  }

  lemma {:induction false} CompletionIs(encoding: Encoding, e: seq<Element>, r: seq<Element>)
    requires r == Fold(F(), Gen(), Unpacked(1), e)
    ensures Completion(encoding, e) == Sum(F(), Fold(F(), Gen(), r, Zeros(F(), 6)), Unpacked(Constant(encoding)))
  {
    OneFits();
    SixZerosAre();
    PackedAfter(1, e, SixZeros());
    MixedUnpacked(PackedFold(1, e + SixZeros()), encoding);
  }

  lemma {:induction false} CompletionFolds(encoding: Encoding, e: seq<Element>, sum: seq<Element>)
    requires sum == Completion(encoding, e)
    ensures Unpacked(PackedFold(1, e + sum)) == Unpacked(Constant(encoding)) && PackedFold(1, e + sum) < 0x40000000
  {
    OneFits();
    IsAField();
    var r := Fold(F(), Gen(), Unpacked(1), e);
    CompletionIs(encoding, e, r);
    ChecksumCompletes(F(), Gen(), r, Unpacked(Constant(encoding)));
    PackedAfter(1, e, sum);
  }

  /** With its checksum appended, a message verifies, for the encoding the checksum was made for. */
  lemma {:induction false} ChecksumVerifies(encoding: Encoding, e: seq<Element>)
    ensures Verified(e + Completion(encoding, e)) == Some(encoding)
  {
    var sum := Completion(encoding, e);
    CompletionFolds(encoding, e, sum);
    ConstantFits(encoding);
    SameUnpacked(PackedFold(1, e + sum), Constant(encoding));
  }

  /** A change within six consecutive values is always noticed: what verified as one encoding no longer does. */
  lemma {:induction false} BurstIsNoticed(pre: seq<Element>, a: seq<Element>, b: seq<Element>, post: seq<Element>)
    requires |a| == |b| <= 6 && a != b
    ensures PackedFold(1, pre + a + post) != PackedFold(1, pre + b + post)
  {
    IsAField();
    OneFits();
    PackedFoldIs(1, pre + a + post);
    PackedFoldIs(1, pre + b + post);
    BurstDetected(F(), Gen(), Unpacked(1), pre, a, b, post);
  }

  /** Only its own checksum completes a message. */
  lemma {:induction false} ChecksumIsUnique(encoding: Encoding, e: seq<Element>, sum: seq<Element>)
    requires |sum| == 6
    ensures Verified(e + sum) == Some(encoding) <==> sum == Completion(encoding, e)
  {
    var own := Completion(encoding, e);
    ChecksumVerifies(encoding, e);
    if sum != own {
      BurstIsNoticed(e, sum, own, []);
      assert e + sum + [] == e + sum && e + own + [] == e + own;
    }
  }

  // ---- text ----

  datatype Decoded = Invalid | Decoded(encoding: Encoding, hrp: string, data: seq<Element>)

  ghost function Encoded(encoding: Encoding, hrp: string, values: seq<Element>): string {
    Rendered(hrp, values + Completion(encoding, Expanded(hrp) + values))
  }

  method Encode(encoding: Encoding, hrp: string, values: seq<Element>) returns (ret: string)
    requires forall i :: 0 <= i < |hrp| ==> !IsUpper(hrp[i])
    ensures ret == Encoded(encoding, hrp, values)
  {
    var checksum := CreateChecksum(encoding, hrp, values);
    ret := Render(hrp, values, checksum);
  }

  /** What the parts of a text stand for. */
  ghost function Meaning(r: Parsed): Decoded {
    if r.Failed? || |r.values| < 6 then Invalid
    else match Verified(Expanded(r.hrp) + r.values)
         case None => Invalid
         case Some(encoding) => Decoded(encoding, r.hrp, r.values[..|r.values| - 6])
  }

  /** What a text stands for. */
  ghost function Decoding(s: string, limit: nat): Decoded {
    Meaning(Reading(s, limit, 6))
  }

  method Decode(s: string, limit: nat) returns (r: Decoded)
    ensures r == Decoding(s, limit)
  {
    var res := Read(s, limit, 6);
    var hrp, values := if res.Failed? then [] else res.hrp, if res.Failed? then [] else res.values;
    var result := VerifyChecksum(hrp, values);
    NothingIsInvalid();
    if result.None? {
      return Invalid;
    }
    r := Decoded(result.value, hrp, values[..|values| - 6]);
  }

  lemma {:induction false} NothingIsInvalid()
    ensures Verified(Expanded([]) + []) == None
  {
    assert Expanded([]) + [] == [0];
    assert PackedFold(1, [0]) == PackedStep(1, 0);
  }

  lemma {:induction false} MeaningOfCompleted(encoding: Encoding, hrp: string, values: seq<Element>)
    ensures Meaning(Parsed(hrp, values + Completion(encoding, Expanded(hrp) + values)))
        == Decoded(encoding, hrp, values)
  {
    var e := Expanded(hrp) + values;
    var sum := Completion(encoding, e);
    ChecksumVerifies(encoding, e);
    assert Expanded(hrp) + (values + sum) == e + sum;
    assert (values + sum)[..|values + sum| - 6] == values;
  }

  /** Decoding undoes encoding. */
  lemma {:induction false} DecodeEncoded(encoding: Encoding, hrp: string, values: seq<Element>, limit: nat)
    requires LegalHrp(hrp) && |hrp| + 1 + |values| + 6 <= limit
    ensures Decoding(Encoded(encoding, hrp, values), limit) == Decoded(encoding, hrp, values)
  {
    var vs := values + Completion(encoding, Expanded(hrp) + values);
    MeaningOfCompleted(encoding, hrp, values);
    ReadRendered(hrp, vs, limit, 6);
  }

  lemma {:induction false} CompletionOfMeaning(r: Parsed)
    requires Meaning(r).Decoded?
    ensures var d := Meaning(r); d.hrp == r.hrp && r.values == d.data + Completion(d.encoding, Expanded(d.hrp) + d.data)
  {
    var d, n := Meaning(r), |r.values| - 6;
    var e, sum := Expanded(r.hrp) + d.data, r.values[n..];
    assert r.values == d.data + sum;
    assert Expanded(r.hrp) + r.values == e + sum;
    ChecksumIsUnique(d.encoding, e, sum);
  }

  /** What decodes is, in lower case, what encoding its parts gives: no other text stands for them. */
  lemma {:induction false} EncodeDecoded(s: string, limit: nat)
    requires Decoding(s, limit).Decoded?
    ensures var d := Decoding(s, limit); LegalHrp(d.hrp) && Encoded(d.encoding, d.hrp, d.data) == Lower(s)
  {
    CompletionOfMeaning(Reading(s, limit, 6));
    RenderRead(s, limit, 6);
  }

  /** Some parts are encoded, in lower case, as the text. */
  ghost predicate IsEncoding(s: string) {
    exists encoding, hrp, values :: LegalHrp(hrp) && Encoded(encoding, hrp, values) == Lower(s)
  }

  /** Exactly the encodings, in either case, are decoded. */
  lemma {:induction false} DecodesExactly(s: string, limit: nat)
    ensures Decoding(s, limit).Decoded? <==> GoodChars(s) && |s| <= limit && IsEncoding(s)
  {
    if Decoding(s, limit).Decoded? {
      EncodeDecoded(s, limit);
    }
    if GoodChars(s) && |s| <= limit && IsEncoding(s) {
      var encoding, hrp, values :| LegalHrp(hrp) && Encoded(encoding, hrp, values) == Lower(s);
      EncodedLength(encoding, hrp, values);
      DecodeEncoded(encoding, hrp, values, limit);
      ReadLower(s, limit, 6);
    }
  }

  lemma {:induction false} EncodedLength(encoding: Encoding, hrp: string, values: seq<Element>)
    ensures |Encoded(encoding, hrp, values)| == |hrp| + 1 + |values| + 6
  {
  }
}

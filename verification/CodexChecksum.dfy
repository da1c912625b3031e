/** The codex32 checksum: remainders kept in an array, for a generator of any degree. */
module CodexChecksums {
  import opened Gf32
  import opened Gf32Fields
  import opened Checksums
  import opened HrpStrings

  function ShortGen(): seq<Element> {
    [25, 27, 17, 8, 0, 25, 25, 25, 31, 27, 24, 16, 16]
  }

  /** The characters secretshare32. */
  function ShortTarget(): seq<Element> {
    [16, 25, 24, 3, 25, 11, 16, 23, 29, 3, 25, 17, 10]
  }

  function LongGen(): seq<Element> {
    [15, 10, 25, 26, 9, 25, 21, 6, 23, 21, 6, 5, 22, 4, 23]
  }

  /** The characters secretshare32ex. */
  function LongTarget(): seq<Element> {
    [16, 25, 24, 3, 25, 11, 16, 23, 29, 3, 25, 17, 10, 25, 6]
  }

  /** The targets spell secretshare32 and secretshare32ex. */
  lemma {:induction false} TargetsSpell()
    ensures Chars(ShortTarget()) == "secretshare32" && Chars(LongTarget()) == "secretshare32ex"
  {
    assert CharOf(16) == 's';
    assert CharOf(25) == 'e';
    assert CharOf(24) == 'c';
    assert CharOf(3) == 'r';
    assert CharOf(11) == 't';
    assert CharOf(23) == 'h';
    assert CharOf(29) == 'a';
    assert CharOf(6) == 'x';
    assert CharOf(17) == '3';
    assert CharOf(10) == '2';
  }

  // ---- the remainder ----

  lemma {:induction false} Reduced(x: Element, g: Element, shift: Element)
    ensures F().add(x, F().mul(g, shift)) == if shift == 0 || g == 0 then x else x ^ TableMul(g, shift)
  {
    TableMulIsMul(g, shift);
    MulZero(g);
    MulZero(shift);
    XorLaws(x, 0, 0);
  }

  method ShiftUp(res: array<Element>, v: Element)
    requires res.Length > 0
    modifies res
    ensures forall j :: 0 <= j < res.Length ==> res[j] == Moved(old(res[..]), v, j)
  {
    var n := res.Length;
    for i := 1 to n
      invariant forall j :: 0 <= j < i - 1 ==> res[j] == old(res[j + 1])
      invariant forall j :: i - 1 <= j < n ==> res[j] == old(res[j])
    {
      res[i - 1] := res[i];
    }
    res[n - 1] := v;
  }

  method Reduce(res: array<Element>, gen: seq<Element>, shift: Element)
    requires |gen| == res.Length
    modifies res
    ensures forall j :: 0 <= j < res.Length ==> res[j] == F().add(old(res[j]), F().mul(gen[j], shift))
  {
    if shift != 0 {
      for i := 0 to res.Length
        invariant forall j :: 0 <= j < i ==> res[j] == F().add(old(res[j]), F().mul(gen[j], shift))
        invariant forall j :: i <= j < res.Length ==> res[j] == old(res[j])
      {
        Reduced(res[i], gen[i], shift);
        if gen[i] != 0 {
          res[i] := res[i] ^ TableMul(gen[i], shift);
        }
      }
    } else {
      forall j | 0 <= j < res.Length ensures res[j] == F().add(old(res[j]), F().mul(gen[j], shift)) {
        Reduced(res[j], gen[j], shift);
      }
    }
  }

  /** Multiply the remainder by x and add v, modulo the generator. */
  method Advance(res: array<Element>, gen: seq<Element>, v: Element)
    requires |gen| == res.Length > 0
    modifies res
    ensures res[..] == Step(F(), gen, old(res[..]), v)
  {
    var shift := res[0];
    ShiftUp(res, v);
    Reduce(res, gen, shift);
    assert forall j :: 0 <= j < res.Length ==> res[..][j] == Step(F(), gen, old(res[..]), v)[j];
  }

  method PolyMod(v: seq<Element>, gen: seq<Element>) returns (r: seq<Element>)
    requires |gen| > 0
    ensures r == Residue(F(), gen, v)
  {
    var n := |gen|;
    var res := new Element[n](i => 0);
    res[n - 1] := 1;
    assert res[..] == Zeros(F(), n - 1) + [F().one];
    for i := 0 to |v|
      invariant res[..] == Residue(F(), gen, v[..i])
    {
      Advance(res, gen, v[i]);
      NextResidue(gen, v, i);
    }
    assert v[..|v|] == v;
    r := res[..];
  }

  lemma {:induction false} NextResidue(gen: seq<Element>, v: seq<Element>, i: nat)
    requires |gen| > 0 && i < |v|
    ensures Residue(F(), gen, v[..i + 1]) == Step(F(), gen, Residue(F(), gen, v[..i]), v[i])
  {
    var start := Zeros(F(), |gen| - 1) + [F().one];
    assert v[..i + 1] == v[..i] + [v[i]];
    FoldConcat(F(), gen, start, v[..i], [v[i]]);
    assert Fold(F(), gen, Residue(F(), gen, v[..i]), [v[i]]) == Step(F(), gen, Residue(F(), gen, v[..i]), v[i]);
  }

  // ---- checksums ----

  method VerifyChecksum(hrp: string, values: seq<Element>, gen: seq<Element>, target: seq<Element>) returns (ok: bool)
    requires |gen| == |target| > 0
    ensures ok <==> Residue(F(), gen, Expanded(hrp) + values) == target
  {
    var enc := PreparePolynomialCoefficients(hrp, values);
    var res := PolyMod(enc, gen);
    for i := 0 to |res|
      invariant forall j :: 0 <= j < i ==> res[j] == target[j]
    {
      if res[i] != target[i] {
        return false;
      }
    }
    return true;
  }

  /** What is appended to a message e so that its remainder becomes the target. */
  ghost function Completion(gen: seq<Element>, target: seq<Element>, e: seq<Element>): (r: seq<Element>)
    requires |gen| == |target| > 0
    ensures |r| == |gen|
  {
    Sum(F(), Residue(F(), gen, e + Zeros(F(), |gen|)), target)
  }

  method CreateChecksum(hrp: string, values: seq<Element>, gen: seq<Element>, target: seq<Element>)
    returns (ret: seq<Element>)
    requires |gen| == |target| > 0
    ensures ret == Completion(gen, target, Expanded(hrp) + values)
  {
    var enc := PreparePolynomialCoefficients(hrp, values);
    var zeros: seq<Element> := seq(|gen|, i => 0);
    assert zeros == Zeros(F(), |gen|);
    var checksum := PolyMod(enc + zeros, gen);
    ret := [];
    for i := 0 to |checksum|
      invariant |ret| == i && forall j :: 0 <= j < i ==> ret[j] == checksum[j] ^ target[j]
    {
      ret := ret + [checksum[i] ^ target[i]];
    }
  }

  /** Appending the checksum makes the remainder the target, and nothing else of its length does. */
  lemma {:induction false} ChecksumIsUnique(gen: seq<Element>, target: seq<Element>, e: seq<Element>, sum: seq<Element>)
    requires |gen| == |target| == |sum| > 0 && gen[|gen| - 1] != 0
    ensures Residue(F(), gen, e + sum) == target <==> sum == Completion(gen, target, e)
  {
    ChecksumVerifies(gen, target, e);
    var own := Completion(gen, target, e);
    if sum != own {
      BurstIsNoticed(gen, e, sum, own, []);
      assert e + sum + [] == e + sum && e + own + [] == e + own;
    }
  }

  lemma {:induction false} ChecksumVerifies(gen: seq<Element>, target: seq<Element>, e: seq<Element>)
    requires |gen| == |target| > 0
    ensures Residue(F(), gen, e + Completion(gen, target, e)) == target
  {
    IsAField();
    var start, r := Zeros(F(), |gen| - 1) + [F().one], Residue(F(), gen, e);
    FoldConcat(F(), gen, start, e, Zeros(F(), |gen|));
    FoldConcat(F(), gen, start, e, Completion(gen, target, e));
    ChecksumCompletes(F(), gen, r, target);
  }

  /** A change within as many consecutive values as the checksum has is always noticed. */
  lemma {:induction false} BurstIsNoticed(gen: seq<Element>, pre: seq<Element>, a: seq<Element>, b: seq<Element>,
                                          post: seq<Element>)
    requires |gen| > 0 && gen[|gen| - 1] != 0 && |a| == |b| <= |gen| && a != b
    ensures Residue(F(), gen, pre + a + post) != Residue(F(), gen, pre + b + post)
  {
    IsAField();
    BurstDetected(F(), gen, Zeros(F(), |gen| - 1) + [F().one], pre, a, b, post);
  }
}

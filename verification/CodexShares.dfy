/** Codex32 shares of a secret, and deriving further shares from them. */
module CodexShares {
  import opened Options
  import opened Gf32
  import opened Fields
  import opened Gf32Fields
  import opened Interpolations
  import opened Sets
  import opened HrpStrings

  datatype Error = OK | BAD_CHECKSUM | BECH32_DECODE | INVALID_HRP | INVALID_ID_LEN | INVALID_ID_CHAR | INVALID_LENGTH
                 | INVALID_K | INVALID_SHARE_IDX | TOO_FEW_SHARES | DUPLICATE_SHARE
                 | MISMATCH_K | MISMATCH_ID | MISMATCH_LENGTH

  /** A share: threshold, identifier and index, in six values, then the payload. */
  datatype Share = Share(valid: Error, hrp: string, data: seq<Element>)

  /** The threshold a symbol stands for. */
  function Threshold(v: Element): int {
    CodeOf(v) - 48
  }

  /** What holds of every share constructed without error. */
  ghost predicate WellFormed(s: Share) {
    && s.valid == OK && s.hrp == "ms" && |s.data| >= 6
    && var k := Threshold(s.data[0]); (k == 0 || 2 <= k <= 9) && (k == 0 ==> s.data[5] == 16)
  }

  /** Shares without error, long enough to have an index. */
  ghost predicate AllUsable(shares: seq<Share>) {
    forall i :: 0 <= i < |shares| ==> shares[i].valid == OK && shares[i].hrp == "ms" && |shares[i].data| >= 6
  }

  // ---- consistency ----

  /** A share among those up to n has the index of share i. */
  ghost predicate Repeated(shares: seq<Share>, i: nat, n: nat)
    requires AllUsable(shares) && i < n <= |shares|
  {
    exists j :: i < j < n && shares[j].data[5] == shares[i].data[5]
  }

  /** The values from 1 to n agree. */
  ghost predicate Agree(a: seq<Element>, b: seq<Element>, n: nat)
    requires n <= |a| && n <= |b|
  {
    forall j :: 1 <= j < n ==> a[j] == b[j]
  }

  /** What is reported for share i. */
  ghost function Fault(shares: seq<Share>, i: nat): Error
    requires AllUsable(shares) && i < |shares|
  {
    if Repeated(shares, i, |shares|) then DUPLICATE_SHARE
    else if |shares[i].data| != |shares[0].data| then MISMATCH_LENGTH
    else if !Agree(shares[0].data, shares[i].data, 5) then MISMATCH_ID
    else if shares[0].data[0] != shares[i].data[0] then MISMATCH_K
    else OK
  }

  /** The last fault among the first n shares. */
  ghost function LastFault(shares: seq<Share>, n: nat): Error
    requires AllUsable(shares) && n <= |shares|
  {
    if n == 0 then OK else if Fault(shares, n - 1) != OK then Fault(shares, n - 1) else LastFault(shares, n - 1)
  }

  ghost function Indices(shares: seq<Share>): (xs: seq<Element>)
    requires AllUsable(shares)
    ensures |xs| == |shares| && forall i :: 0 <= i < |shares| ==> xs[i] == shares[i].data[5]
  {
    seq(|shares|, i requires 0 <= i < |shares| => shares[i].data[5])
  }

  /** Shares of one secret: they agree on length, threshold and identifier. */
  ghost predicate Alike(a: seq<Element>, b: seq<Element>) {
    |a| == |b| >= 6 && Agree(a, b, 5) && a[0] == b[0]
  }

  ghost predicate Consistent(shares: seq<Share>)
    requires AllUsable(shares)
  {
    Distinct(Indices(shares)) && forall i :: 0 <= i < |shares| ==> Alike(shares[0].data, shares[i].data)
  }

  /** A fault is reported unless the shares are consistent. */
  lemma {:induction false} FaultlessIsConsistent(shares: seq<Share>)
    requires AllUsable(shares)
    ensures LastFault(shares, |shares|) == OK <==> Consistent(shares)
  {
    NoFaults(shares, |shares|);
    if Consistent(shares) {
      forall i | 0 <= i < |shares| ensures Fault(shares, i) == OK {
        ConsistentNoFault(shares, i);
      }
    }
    if LastFault(shares, |shares|) == OK {
      NoFaultConsistent(shares);
    }
  }

  lemma {:induction false} NoFaults(shares: seq<Share>, n: nat)
    requires AllUsable(shares) && n <= |shares|
    ensures LastFault(shares, n) == OK <==> forall i :: 0 <= i < n ==> Fault(shares, i) == OK
  {
    if n > 0 {
      NoFaults(shares, n - 1);
    }
  }

  lemma {:induction false} ConsistentNoFault(shares: seq<Share>, i: nat)
    requires AllUsable(shares) && i < |shares| && Consistent(shares)
    ensures Fault(shares, i) == OK
  {
    var xs := Indices(shares);
    forall j | i < j < |shares| ensures shares[j].data[5] != shares[i].data[5] {
      assert xs[i] != xs[j];
    }
    assert Alike(shares[0].data, shares[i].data);
  }

  lemma {:induction false} NoFaultConsistent(shares: seq<Share>)
    requires AllUsable(shares) && forall i :: 0 <= i < |shares| ==> Fault(shares, i) == OK
    ensures Consistent(shares)
  {
    var xs := Indices(shares);
    forall i, j | 0 <= i < j < |shares| ensures xs[i] != xs[j] {
      assert Fault(shares, i) == OK;
    }
    forall i | 0 <= i < |shares| ensures Alike(shares[0].data, shares[i].data) {
      assert Fault(shares, i) == OK;
    }
  }

  method CheckShare(shares: seq<Share>, i: nat, before: Error) returns (valid: Error)
    requires AllUsable(shares) && i < |shares|
    ensures valid == if Fault(shares, i) != OK then Fault(shares, i) else before
  {
    valid := before;
    var first, share := shares[0].data, shares[i].data;
    if first[0] != share[0] {
      valid := MISMATCH_K;
    }
    ghost var v := valid;
    for j := 1 to 5
      invariant valid == if Agree(first, share, j) then v else MISMATCH_ID
    {
      if first[j] != share[j] {
        valid := MISMATCH_ID;
      }
    }
    if |share| != |first| {
      valid := MISMATCH_LENGTH;
    }
    v := valid;
    for j := i + 1 to |shares|
      invariant valid == if Repeated(shares, i, j) then DUPLICATE_SHARE else v
    {
      if share[5] == shares[j].data[5] {
        valid := DUPLICATE_SHARE;
      }
    }
  }

  // ---- interpolation ----

  lemma {:induction false} Divided(x: Element, y: Element)
    requires y != 0
    ensures TableDiv(x, y) == Mul(x, Inverse(y))
  {
    TableDivIsInverse(x, y);
    InverseIs(y);
    Gf32.MulAssociates(TableDiv(x, y), y, Inverse(y));
    MulOne(TableDiv(x, y));
  }

  lemma MulOne(a: Element)
    ensures Mul(a, 1) == a
  {
    FieldLaw1(a);
  }

  /** The weight of the share with index idx when deriving the share with index eval. */
  method LagrangeCoefficient(indices: seq<Element>, ghost i: nat, idx: Element, eval: Element) returns (c: Element)
    requires Distinct(indices) && i < |indices| && idx == indices[i]
    ensures c == Weight(F(), indices, i, eval)
  {
    var num, den := Products(indices, i, idx, eval);
    IsAField();
    ProductNonzero(F(), indices, i, |indices|);
    Divided(num, den);
    c := TableDiv(num, den);
  }

  method Products(indices: seq<Element>, ghost i: nat, idx: Element, eval: Element) returns (num: Element, den: Element)
    requires Distinct(indices) && i < |indices| && idx == indices[i]
    ensures num == Product(F(), indices, i, eval, |indices|) && den == Product(F(), indices, i, idx, |indices|)
  {
    num, den := 1, 1;
    for k := 0 to |indices|
      invariant num == Product(F(), indices, i, eval, k) && den == Product(F(), indices, i, idx, k)
    {
      assert indices[k] == idx <==> k == i;
      if indices[k] != idx {
        num, den := MulIn(num, indices[k], eval), MulIn(den, indices[k], idx);
      }
    }
  }

  function MulIn(num: Element, x: Element, eval: Element): (r: Element)
    ensures r == F().mul(num, F().add(x, eval))
  {
    TableMulIsMul(num, x ^ eval);
    TableMul(num, x ^ eval)
  }

  ghost function Column(shares: seq<Share>, j: nat): (ys: seq<Element>)
    requires forall i :: 0 <= i < |shares| ==> j < |shares[i].data|
    ensures |ys| == |shares| && forall i :: 0 <= i < |shares| ==> ys[i] == shares[i].data[j]
  {
    seq(|shares|, i requires 0 <= i < |shares| => shares[i].data[j])
  }

  /** The values, place by place, at o of the polynomials through the shares. */
  ghost function Interpolated(shares: seq<Share>, o: Element): (r: seq<Element>)
    requires shares != [] && AllUsable(shares) && Consistent(shares)
    ensures |r| == |shares[0].data|
    ensures forall j :: 0 <= j < |r| ==> r[j] == Combined(F(), Indices(shares), Column(shares, j), o, |shares|)
  {
    seq(|shares[0].data|,
        j requires 0 <= j < |shares[0].data| => Combined(F(), Indices(shares), Column(shares, j), o, |shares|))
  }

  method AddScaled(data: seq<Element>, coefficient: Element, share: seq<Element>) returns (r: seq<Element>)
    requires |data| == |share|
    ensures |r| == |data| && forall j :: 0 <= j < |r| ==> r[j] == F().add(data[j], F().mul(coefficient, share[j]))
  {
    r := data;
    for j := 0 to |data|
      invariant |r| == |data| && forall m :: j <= m < |r| ==> r[m] == data[m]
      invariant forall m :: 0 <= m < j ==> r[m] == F().add(data[m], F().mul(coefficient, share[m]))
    {
      TableMulIsMul(coefficient, share[j]);
      r := r[j := r[j] ^ TableMul(coefficient, share[j])];
    }
  }

  method Interpolate(shares: seq<Share>, indices: seq<Element>, o: Element) returns (data: seq<Element>)
    requires shares != [] && AllUsable(shares) && Consistent(shares) && indices == Indices(shares)
    ensures data == Interpolated(shares, o)
  {
    data := seq(|shares[0].data|, j => 0);
    for i := 0 to |shares|
      invariant |data| == |shares[0].data|
      invariant forall j :: 0 <= j < |data| ==> data[j] == Combined(F(), indices, Column(shares, j), o, i)
    {
      var c := LagrangeCoefficient(indices, i, shares[i].data[5], o);
      assert Alike(shares[0].data, shares[i].data);
      data := AddScaled(data, c, shares[i].data);
    }
  }

  // ---- deriving a share ----

  ghost function DeriveError(shares: seq<Share>, outputIdx: char): Error
    requires AllUsable(shares)
  {
    if shares == [] || Threshold(shares[0].data[0]) > |shares| then TOO_FEW_SHARES
    else if RevOf(outputIdx).None? then INVALID_SHARE_IDX
    else LastFault(shares, |shares|)
  }

  ghost function Derived(shares: seq<Share>, outputIdx: char): Share
    requires AllUsable(shares)
  {
    FaultlessIsConsistent(shares);
    var e := DeriveError(shares, outputIdx);
    if e != OK then Share(e, [], []) else Share(OK, shares[0].hrp, Interpolated(shares, RevOf(outputIdx).value))
  }

  /** The last fault, and the indices if there is none. */
  method CheckShares(shares: seq<Share>) returns (valid: Error, indices: seq<Element>)
    requires AllUsable(shares)
    ensures valid == LastFault(shares, |shares|) && (valid == OK ==> Consistent(shares) && indices == Indices(shares))
  {
    valid, indices := OK, [];
    for i := 0 to |shares|
      invariant |indices| == i && forall m :: 0 <= m < i ==> indices[m] == shares[m].data[5]
      invariant valid == LastFault(shares, i)
    {
      valid := CheckShare(shares, i, valid);
      indices := indices + [shares[i].data[5]];
    }
    FaultlessIsConsistent(shares);
  }

  method Derive(shares: seq<Share>, outputIdx: char) returns (r: Share)
    requires AllUsable(shares)
    ensures r == Derived(shares, outputIdx)
  {
    var valid := OK;
    var oidx := RevOf(outputIdx);
    if oidx.None? {
      valid := INVALID_SHARE_IDX;
    }
    if shares == [] {
      return Share(TOO_FEW_SHARES, [], []);
    }
    var k := Threshold(shares[0].data[0]);
    if k > |shares| {
      valid := TOO_FEW_SHARES;
    }
    if valid != OK {
      return Share(valid, [], []);
    }
    var indices;
    valid, indices := CheckShares(shares);
    if valid != OK {
      return Share(valid, [], []);
    }
    var data := Interpolate(shares, indices, oidx.value);
    r := Share(OK, shares[0].hrp, data);
  }

  // ---- what a derived share says ----

  /** Where the shares all agree, so does the derived share. */
  lemma {:induction false} KeepsCommon(shares: seq<Share>, o: Element, j: nat)
    requires shares != [] && AllUsable(shares) && Consistent(shares) && j < |shares[0].data|
    requires forall i :: 0 <= i < |shares| ==> j < |shares[i].data| && shares[i].data[j] == shares[0].data[j]
    ensures Interpolated(shares, o)[j] == shares[0].data[j]
  {
    IsAField();
    var c, xs, ys := shares[0].data[j], Indices(shares), Column(shares, j);
    EvalConstant(F(), c, o);
    forall i | 0 <= i < |xs| ensures ys[i] == Eval(F(), [c], xs[i]) {
      EvalConstant(F(), c, xs[i]);
    }
    InterpolationIsExact(F(), xs, ys, [c], o);
  }

  lemma {:induction false} EvalConstant<E(!new)>(f: Field<E>, c: E, x: E)
    requires IsField(f)
    ensures Eval(f, [c], x) == c
  {
    assert [c][..0] == [] && Law1(f, x) && Law1(f, c);
  }

  lemma {:induction false} EvalIdentity<E(!new)>(f: Field<E>, x: E)
    requires IsField(f)
    ensures Eval(f, [f.one, f.zero], x) == x
  {
    assert [f.one, f.zero][..1] == [f.one];
    EvalConstant(f, f.one, x);
    assert Law1(f, x);
  }

  /** Threshold and identifier are kept. */
  lemma {:induction false} KeepsHeader(shares: seq<Share>, o: Element)
    requires shares != [] && AllUsable(shares) && Consistent(shares)
    ensures Alike(Interpolated(shares, o), shares[0].data)
  {
    forall j | 0 <= j < 5 ensures Interpolated(shares, o)[j] == shares[0].data[j] {
      forall i | 0 <= i < |shares| ensures j < |shares[i].data| && shares[i].data[j] == shares[0].data[j] {
        assert Alike(shares[0].data, shares[i].data);
      }
      KeepsCommon(shares, o, j);
    }
  }

  /** The index is the requested one, if and only if there are two shares or it is that of the only one. */
  lemma {:induction false} HasRequestedIndex(shares: seq<Share>, o: Element)
    requires shares != [] && AllUsable(shares) && Consistent(shares)
    ensures Interpolated(shares, o)[5] == o <==> |shares| >= 2 || shares[0].data[5] == o
  {
    if |shares| == 1 {
      KeepsCommon(shares, o, 5);
    } else {
      IsAField();
      var xs, ys, p := Indices(shares), Column(shares, 5), [F().one, F().zero];
      EvalIdentity(F(), o);
      forall i | 0 <= i < |xs| ensures ys[i] == Eval(F(), p, xs[i]) {
        EvalIdentity(F(), xs[i]);
      }
      InterpolationIsExact(F(), xs, ys, p, o);
    }
  }

  /** From a single share only itself is derived, whatever the index asked for. */
  lemma {:induction false} LoneShareIsKept(shares: seq<Share>, o: Element)
    requires |shares| == 1 && AllUsable(shares) && Consistent(shares)
    ensures Interpolated(shares, o) == shares[0].data
  {
    forall j | 0 <= j < |shares[0].data| ensures Interpolated(shares, o)[j] == shares[0].data[j] {
      KeepsCommon(shares, o, j);
    }
  }

  /** So a secret that is not shared, asked for the share with the index a, answers without error with itself. */
  lemma {:induction false} LoneSecretHasWrongIndex(s: Share)
    requires WellFormed(s) && Threshold(s.data[0]) == 0
    ensures AllUsable([s]) && Derived([s], 'a') == s && RevOf('a') == Some(29) && s.data[5] == 16
  {
    LoneIsConsistent(s);
    FaultlessIsConsistent([s]);
    LoneShareIsKept([s], 29);
  }

  lemma {:induction false} LoneIsConsistent(s: Share)
    requires s.valid == OK && s.hrp == "ms" && |s.data| >= 6
    ensures AllUsable([s]) && Consistent([s])
  {
  }

  /** Deriving the share with the index of one given gives that one. */
  lemma {:induction false} ReturnsOwnShare(shares: seq<Share>, s: nat)
    requires s < |shares| && AllUsable(shares) && Consistent(shares)
    ensures Interpolated(shares, shares[s].data[5]) == shares[s].data
  {
    IsAField();
    var o, r, xs := shares[s].data[5], Interpolated(shares, shares[s].data[5]), Indices(shares);
    assert Alike(shares[0].data, shares[s].data);
    forall j | 0 <= j < |r| ensures r[j] == shares[s].data[j] {
      CombinedAtPoint(F(), xs, Column(shares, j), s, |shares|);
    }
  }

  /** From shares all derived from the same ones, and as many, the same shares are derived. */
  lemma {:induction false} DerivedSharesAgree(shares: seq<Share>, others: seq<Share>, o: Element)
    requires shares != [] && AllUsable(shares) && Consistent(shares)
    requires |others| >= |shares| && AllUsable(others) && Consistent(others)
    requires forall i :: 0 <= i < |others| ==> others[i].data == Interpolated(shares, others[i].data[5])
    ensures Interpolated(others, o) == Interpolated(shares, o)
  {
    var a, b := Interpolated(shares, o), Interpolated(others, o);
    assert others[0].data == Interpolated(shares, others[0].data[5]);
    forall j | 0 <= j < |a| ensures a[j] == b[j] {
      SamePolynomial(shares, others, o, j);
    }
  }

  lemma {:induction false} SamePolynomial(shares: seq<Share>, others: seq<Share>, o: Element, j: nat)
    requires shares != [] && AllUsable(shares) && Consistent(shares) && j < |shares[0].data|
    requires |others| >= |shares| && AllUsable(others) && Consistent(others)
    requires forall i :: 0 <= i < |others| ==> others[i].data == Interpolated(shares, others[i].data[5])
    ensures j < |others[0].data| && Interpolated(others, o)[j] == Interpolated(shares, o)[j]
  {
    IsAField();
    assert others[0].data == Interpolated(shares, others[0].data[5]);
    var xs, ys, us, vs := Indices(shares), Column(shares, j), Indices(others), Column(others, j);
    var p := Interpolant(F(), xs, ys, |xs|);
    EvalInterpolant(F(), xs, ys, o, |xs|);
    forall i | 0 <= i < |us| ensures vs[i] == Eval(F(), p, us[i]) {
      EvalInterpolant(F(), xs, ys, us[i], |xs|);
      assert others[i].data == Interpolated(shares, us[i]);
    }
    InterpolationIsExact(F(), us, vs, p, o);
  }

  /** A share derived without error is a share again. */
  lemma {:induction false} DerivedIsWellFormed(shares: seq<Share>, outputIdx: char)
    requires AllUsable(shares) && forall i :: 0 <= i < |shares| ==> WellFormed(shares[i])
    ensures Derived(shares, outputIdx).valid == OK ==> WellFormed(Derived(shares, outputIdx))
  {
    FaultlessIsConsistent(shares);
    if DeriveError(shares, outputIdx) == OK {
      var o := RevOf(outputIdx).value;
      KeepsHeader(shares, o);
      if Threshold(shares[0].data[0]) == 0 {
        forall i | 0 <= i < |shares| ensures |shares[i].data| == |shares[0].data| && shares[i].data[5] == 16 {
          assert Alike(shares[0].data, shares[i].data);
        }
        KeepsCommon(shares, o, 5);
      }
    }
  }

  /** Shares derived at different indices from the same two or more: as many of them derive what the
      originals do, whatever the index asked for, the secret's included. */
  lemma {:induction false} AnyDerivedSharesDo(shares: seq<Share>, others: seq<Share>, at: seq<char>, c: char)
    requires |shares| >= 2 && AllUsable(shares) && |at| == |others| >= |shares| && AllUsable(others)
    requires forall i :: 0 <= i < |at| ==> RevOf(at[i]).Some? && others[i] == Derived(shares, at[i])
    requires forall i, j :: 0 <= i < j < |at| ==> RevOf(at[i]) != RevOf(at[j])
    ensures Derived(others, c) == Derived(shares, c)
  {
    FaultlessIsConsistent(shares);
    assert others[0] == Derived(shares, at[0]) && DeriveError(shares, at[0]) == OK;
    forall i | 0 <= i < |others| ensures DerivedAs(shares, others[i], RevOf(at[i]).value) {
      assert others[i] == Derived(shares, at[i]);
      DerivedShare(shares, others[i], at[i]);
    }
    DerivedAreConsistent(shares, others, at);
    FaultlessIsConsistent(others);
    if RevOf(c).Some? {
      DerivedSharesAgree(shares, others, RevOf(c).value);
    }
  }

  ghost predicate DerivedAs(shares: seq<Share>, s: Share, o: Element)
    requires shares != [] && AllUsable(shares) && Consistent(shares)
  {
    s.hrp == shares[0].hrp && s.data == Interpolated(shares, o) && Alike(shares[0].data, s.data) && s.data[5] == o
  }

  lemma {:induction false} DerivedShare(shares: seq<Share>, s: Share, c: char)
    requires |shares| >= 2 && AllUsable(shares) && Consistent(shares)
    requires RevOf(c).Some? && s == Derived(shares, c) && s.valid == OK
    ensures DerivedAs(shares, s, RevOf(c).value)
  {
    FaultlessIsConsistent(shares);
    KeepsHeader(shares, RevOf(c).value);
    HasRequestedIndex(shares, RevOf(c).value);
  }

  lemma {:induction false} DerivedAreConsistent(shares: seq<Share>, others: seq<Share>, at: seq<char>)
    requires shares != [] && AllUsable(shares) && Consistent(shares) && |at| == |others| && AllUsable(others)
    requires forall i :: 0 <= i < |at| ==> RevOf(at[i]).Some? && DerivedAs(shares, others[i], RevOf(at[i]).value)
    requires forall i, j :: 0 <= i < j < |at| ==> RevOf(at[i]) != RevOf(at[j])
    ensures Consistent(others)
    ensures forall i :: 0 <= i < |others| ==> others[i].data == Interpolated(shares, others[i].data[5])
    ensures forall i :: 0 <= i < |others| ==> Alike(shares[0].data, others[i].data)
  {
    var xs := Indices(others);
    forall i, j | 0 <= i < j < |xs| ensures xs[i] != xs[j] {
      assert RevOf(at[i]) == Some(xs[i]) && RevOf(at[j]) == Some(xs[j]);
    }
    forall i | 0 <= i < |others|
      ensures Alike(others[0].data, others[i].data) && Alike(shares[0].data, others[i].data)
    {
      assert DerivedAs(shares, others[0], RevOf(at[0]).value) && DerivedAs(shares, others[i], RevOf(at[i]).value);
    }
  }
}

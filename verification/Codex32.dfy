/** Codex32 text, and shares made from a payload. */
module Codex32 {
  import opened Options
  import opened Gf32
  import opened Gf32Fields
  import opened Checksums
  import opened HrpStrings
  import opened CodexChecksums
  import opened CodexShares
  import opened Radix
  import opened BitConversions

  /** At most so many characters. */
  const LIMIT := 127

  // ---- writing ----

  ghost function ChecksumFor(hrp: string, data: seq<Element>): seq<Element> {
    if |data| <= 80 then Completion(ShortGen(), ShortTarget(), Expanded(hrp) + data)
    else Completion(LongGen(), LongTarget(), Expanded(hrp) + data)
  }

  ghost function Encoded(s: Share): string {
    Rendered(s.hrp, s.data + ChecksumFor(s.hrp, s.data))
  }

  method Encode(s: Share) returns (ret: string)
    requires s.valid == OK && s.hrp == "ms"
    ensures ret == Encoded(s)
  {
    var checksum;
    if |s.data| <= 80 {
      checksum := CreateChecksum(s.hrp, s.data, ShortGen(), ShortTarget());
    } else {
      checksum := CreateChecksum(s.hrp, s.data, LongGen(), LongTarget());
    }
    ret := Render(s.hrp, s.data, checksum);
  }

  // ---- reading ----

  ghost function Unsealed(hrp: string, values: seq<Element>, gen: seq<Element>, target: seq<Element>): Share
    requires |gen| == |target| > 0 && |values| >= 6 + |gen|
  {
    var n := |values| - |gen|;
    if ((n - 6) * 5) % 8 > 4 then Share(INVALID_LENGTH, hrp, [])
    else if Residue(F(), gen, Expanded(hrp) + values) == target then Share(OK, hrp, values[..n])
    else Share(BAD_CHECKSUM, hrp, [])
  }

  method Unseal(hrp: string, values: seq<Element>, gen: seq<Element>, target: seq<Element>) returns (s: Share)
    requires |gen| == |target| > 0 && |values| >= 6 + |gen|
    ensures s == Unsealed(hrp, values, gen, target)
  {
    var n := |values| - |gen|;
    if ((n - 6) * 5) % 8 > 4 {
      return Share(INVALID_LENGTH, hrp, []);
    }
    var ok := VerifyChecksum(hrp, values, gen, target);
    s := if ok then Share(OK, hrp, values[..n]) else Share(BAD_CHECKSUM, hrp, []);
  }

  /** The share of values that are to include their checksum. */
  ghost function Opened(hrp: string, values: seq<Element>): Share {
    if 45 <= |values| <= 90 then Unsealed(hrp, values, ShortGen(), ShortTarget())
    else if 96 <= |values| <= 124 then Unsealed(hrp, values, LongGen(), LongTarget())
    else Share(INVALID_LENGTH, hrp, [])
  }

  /** The same share, unless its threshold is not one, or is that of a lone secret and its index is not. */
  function Screened(s: Share): Share
    requires s.valid == OK ==> |s.data| >= 6
  {
    if s.valid != OK then s
    else
      var k := Threshold(s.data[0]);
      if k < 0 || k == 1 || k > 9 then s.(valid := INVALID_K)
      else if k == 0 && s.data[5] != 16 then s.(valid := INVALID_SHARE_IDX)
      else s
  }

  /** The share the parts of a text of n characters stand for. */
  ghost function Meaning(n: nat, res: Parsed): Share {
    if n > LIMIT then Share(INVALID_LENGTH, [], [])
    else if res.Failed? then Share(BECH32_DECODE, [], [])
    else if res.hrp != "ms" then Share(INVALID_HRP, [], [])
    else Screened(Opened(res.hrp, res.values))
  }

  ghost function Parsing(str: string): Share {
    Meaning(|str|, Reading(str, LIMIT, 6))
  }

  method Parse(str: string) returns (s: Share)
    ensures s == Parsing(str)
  {
    var res := Read(str, LIMIT, 6);
    if |str| > LIMIT {
      return Share(INVALID_LENGTH, [], []);
    } else if res.Failed? {
      return Share(BECH32_DECODE, [], []);
    } else if res.hrp != "ms" {
      return Share(INVALID_HRP, [], []);
    }
    if 45 <= |res.values| <= 90 {
      s := Unseal(res.hrp, res.values, ShortGen(), ShortTarget());
    } else if 96 <= |res.values| <= 124 {
      s := Unseal(res.hrp, res.values, LongGen(), LongTarget());
    } else {
      s := Share(INVALID_LENGTH, res.hrp, []);
    }
    s := Screened(s);
  }

  // ---- text and share ----

  /** The lengths, without checksum, of shares that have a text. */
  predicate HasText(n: nat) {
    (32 <= n <= 77 || 81 <= n <= 109) && ((n - 6) * 5) % 8 <= 4
  }

  lemma {:induction false} ParsedIsWellFormed(str: string)
    ensures Parsing(str).valid == OK ==> WellFormed(Parsing(str)) && HasText(|Parsing(str).data|)
  {
    MeaningIsWellFormed(|str|, Reading(str, LIMIT, 6));
  }

  lemma {:induction false} MeaningIsWellFormed(n: nat, res: Parsed)
    ensures var s := Meaning(n, res); s.valid == OK ==> WellFormed(s) && HasText(|s.data|)
  {
    if n <= LIMIT && res.Parsed? {
      OpenedIsLong(res.hrp, res.values);
    }
  }

  lemma {:induction false} OpenedIsLong(hrp: string, values: seq<Element>)
    ensures var s := Opened(hrp, values); s.hrp == hrp && (s.valid == OK ==> HasText(|s.data|))
  {
    ShortLast();
    LongLast();
  }

  lemma ShortLast()
    ensures |ShortGen()| == |ShortTarget()| == 13 && ShortGen()[|ShortGen()| - 1] != 0
  {
  }

  lemma LongLast()
    ensures |LongGen()| == |LongTarget()| == 15 && LongGen()[|LongGen()| - 1] != 0
  {
  }

  /** Opening what was completed. */
  lemma {:induction false} UnsealCompleted(hrp: string, data: seq<Element>, gen: seq<Element>, target: seq<Element>)
    requires |gen| == |target| > 0 && |data| >= 6
    ensures Unsealed(hrp, data + Completion(gen, target, Expanded(hrp) + data), gen, target)
            == if ((|data| - 6) * 5) % 8 > 4 then Share(INVALID_LENGTH, hrp, []) else Share(OK, hrp, data)
  {
    var e := Expanded(hrp) + data;
    var sum := Completion(gen, target, e);
    ChecksumVerifies(gen, target, e);
    assert Expanded(hrp) + (data + sum) == e + sum;
    assert (data + sum)[..|data|] == data;
  }

  /** Completing what was opened. */
  lemma {:induction false} CompleteUnsealed(hrp: string, values: seq<Element>, gen: seq<Element>, target: seq<Element>)
    requires |gen| == |target| > 0 && gen[|gen| - 1] != 0 && |values| >= 6 + |gen|
    requires Unsealed(hrp, values, gen, target).valid == OK
    ensures var data := Unsealed(hrp, values, gen, target).data;
            values == data + Completion(gen, target, Expanded(hrp) + data)
  {
    var n := |values| - |gen|;
    var data, sum := values[..n], values[n..];
    assert values == data + sum;
    assert Expanded(hrp) + values == Expanded(hrp) + data + sum;
    ChecksumIsUnique(gen, target, Expanded(hrp) + data, sum);
  }

  lemma {:induction false} OpenCompleted(hrp: string, data: seq<Element>)
    requires |data| >= 6
    ensures var s := Opened(hrp, data + ChecksumFor(hrp, data));
            if HasText(|data|) then s == Share(OK, hrp, data) else s.valid == INVALID_LENGTH
  {
    if |data| <= 80 {
      OpenShort(hrp, data);
    } else {
      OpenLong(hrp, data);
    }
  }

  lemma {:induction false} OpenShort(hrp: string, data: seq<Element>)
    requires 6 <= |data| <= 80
    ensures var s := Opened(hrp, data + Completion(ShortGen(), ShortTarget(), Expanded(hrp) + data));
            if HasText(|data|) then s == Share(OK, hrp, data) else s.valid == INVALID_LENGTH
  {
    ShortLast();
    UnsealCompleted(hrp, data, ShortGen(), ShortTarget());
  }

  lemma {:induction false} OpenLong(hrp: string, data: seq<Element>)
    requires |data| > 80
    ensures var s := Opened(hrp, data + Completion(LongGen(), LongTarget(), Expanded(hrp) + data));
            if HasText(|data|) then s == Share(OK, hrp, data) else s.valid == INVALID_LENGTH
  {
    LongLast();
    UnsealCompleted(hrp, data, LongGen(), LongTarget());
  }

  lemma {:induction false} ScreenWellFormed(s: Share)
    requires WellFormed(s)
    ensures Screened(s) == s
  {
  }

  lemma {:induction false} MeaningOfCompleted(s: Share, vs: seq<Element>)
    requires WellFormed(s) && vs == s.data + ChecksumFor(s.hrp, s.data)
    ensures var r := Meaning(3 + |vs|, Parsed(s.hrp, vs));
            if HasText(|s.data|) then r == s && 3 + |vs| <= LIMIT else r.valid == INVALID_LENGTH
  {
    OpenCompleted(s.hrp, s.data);
    ShortLast();
    LongLast();
    if HasText(|s.data|) {
      ScreenWellFormed(s);
    }
  }

  /** A share's text reads as that share if its length is one that text has; any other is refused. */
  lemma {:induction false} ParseEncoded(s: Share)
    requires WellFormed(s)
    ensures if HasText(|s.data|) then Parsing(Encoded(s)) == s else Parsing(Encoded(s)).valid == INVALID_LENGTH
  {
    var vs := s.data + ChecksumFor(s.hrp, s.data);
    MeaningOfCompleted(s, vs);
    MeaningOfText(s.hrp, vs);
  }

  /** Text that is too long means the same whatever it consists of. */
  lemma {:induction false} MeaningOfText(hrp: string, vs: seq<Element>)
    requires hrp == "ms" && |vs| >= 6
    ensures Parsing(Rendered(hrp, vs)) == Meaning(3 + |vs|, Parsed(hrp, vs))
  {
    if 3 + |vs| <= LIMIT {
      ReadRendered(hrp, vs, LIMIT, 6);
    }
  }

  /** The text a share was read from is, in lower case, the text of that share. */
  lemma {:induction false} EncodeParsed(str: string)
    requires Parsing(str).valid == OK
    ensures Encoded(Parsing(str)) == Lower(str)
  {
    CompleteMeaning(|str|, Reading(str, LIMIT, 6));
    RenderRead(str, LIMIT, 6);
  }

  /** A share whose text, in lower case, is str. */
  ghost predicate IsTextOf(str: string, s: Share) {
    WellFormed(s) && HasText(|s.data|) && Encoded(s) == Lower(str)
  }

  /** Exactly the texts of shares, in either case, are accepted. */
  lemma {:induction false} AcceptedExactly(str: string)
    ensures Parsing(str).valid == OK <==> GoodChars(str) && exists s :: IsTextOf(str, s)
  {
    if Parsing(str).valid == OK {
      ParsedIsWellFormed(str);
      EncodeParsed(str);
      assert IsTextOf(str, Parsing(str));
    }
    if GoodChars(str) && exists s :: IsTextOf(str, s) {
      var s :| IsTextOf(str, s);
      ParseEncoded(s);
      ReadLower(str, LIMIT, 6);
    }
  }

  lemma {:induction false} CompleteMeaning(n: nat, res: Parsed)
    requires Meaning(n, res).valid == OK
    ensures var s := Meaning(n, res);
            res.Parsed? && s.hrp == res.hrp && res.values == s.data + ChecksumFor(s.hrp, s.data)
  {
    CompleteOpened(res.hrp, res.values);
  }

  lemma {:induction false} CompleteOpened(hrp: string, values: seq<Element>)
    requires Opened(hrp, values).valid == OK
    ensures var s := Opened(hrp, values); s.hrp == hrp && values == s.data + ChecksumFor(hrp, s.data)
  {
    ShortLast();
    LongLast();
    if |values| <= 90 {
      CompleteUnsealed(hrp, values, ShortGen(), ShortTarget());
    } else {
      CompleteUnsealed(hrp, values, LongGen(), LongTarget());
    }
  }

  // ---- shares of a payload ----

  function NatOf(v: Element): (n: nat)
    ensures n < 32
  {
    v as nat
  }

  function OfNat(n: nat): Element
    requires n < 32
  {
    n as Element
  }

  lemma NatRoundTrip(n: nat)
    requires n < 32
    ensures NatOf(OfNat(n)) == n
  {
  }

  function Nats(vs: seq<Element>): (ns: seq<nat>)
    ensures |ns| == |vs| && forall i :: 0 <= i < |vs| ==> ns[i] == NatOf(vs[i])
  {
    seq(|vs|, i requires 0 <= i < |vs| => NatOf(vs[i]))
  }

  /** What is wrong with the parts of a share, the last check first. */
  ghost function PartsError(hrp: string, k: nat, id: string, shareIdx: char): Error {
    if !AllInCharset(id) then INVALID_ID_CHAR
    else if RevOf(shareIdx).None? || (k == 0 && RevOf(shareIdx) != Some(16)) then INVALID_SHARE_IDX
    else if |id| != 4 then INVALID_ID_LEN
    else if k == 1 || k > 9 then INVALID_K
    else if hrp != "ms" then INVALID_HRP
    else OK
  }

  /** s is made of the given parts: they are read back from it, in lower case, and its payload is that given. */
  ghost predicate MadeOf(s: Share, k: nat, id: string, shareIdx: char, payload: seq<nat>) {
    && |s.data| >= 6 && Threshold(s.data[0]) == k && CharOf(s.data[5]) == LowerCase(shareIdx)
    && Chars(s.data[1..5]) == Lower(id)
    && Padded(8, 5, payload, Nats(s.data[6..]))
  }

  method CheckParts(hrp: string, k: nat, id: string, shareIdx: char) returns (valid: Error)
    ensures valid == PartsError(hrp, k, id, shareIdx)
  {
    valid := OK;
    if hrp != "ms" {
      valid := INVALID_HRP;
    }
    if k == 1 || k > 9 {
      valid := INVALID_K;
    }
    if |id| != 4 {
      valid := INVALID_ID_LEN;
    }
    var sidx := RevOf(shareIdx);
    if sidx.None? {
      valid := INVALID_SHARE_IDX;
    }
    if k == 0 && sidx != Some(16) {
      valid := INVALID_SHARE_IDX;
    }
    ghost var v := valid;
    for i := 0 to |id|
      invariant valid == if AllInCharset(id[..i]) then v else INVALID_ID_CHAR
    {
      assert id[..i + 1] == id[..i] + [id[i]];
      if RevOf(id[i]).None? {
        valid := INVALID_ID_CHAR;
      }
    }
    assert id[..|id|] == id;
  }

  lemma DigitIsThreshold(k: nat)
    requires k == 0 || 2 <= k <= 9
    ensures var v := RevOf((48 + k) as char); v.Some? && Threshold(v.value) == k
  {
    CodeOfElement(48 + k);
  }

  method Head(k: nat, id: string, shareIdx: char) returns (head: seq<Element>)
    requires (k == 0 || 2 <= k <= 9) && |id| == 4 && AllInCharset(id) && RevOf(shareIdx).Some?
    ensures |head| == 6 && Threshold(head[0]) == k && Chars(head[1..5]) == Lower(id)
    ensures Some(head[5]) == RevOf(shareIdx) && CharOf(head[5]) == LowerCase(shareIdx)
  {
    DigitIsThreshold(k);
    RevRoundTrip(shareIdx);
    head := [RevOf((48 + k) as char).value, RevOf(id[0]).value, RevOf(id[1]).value, RevOf(id[2]).value,
             RevOf(id[3]).value, RevOf(shareIdx).value];
    IdValues(id, head[1..5]);
  }

  lemma {:induction false} IdValues(id: string, vs: seq<Element>)
    requires |id| == |vs| == 4 && AllInCharset(id)
    requires vs[0] == RevOf(id[0]).value && vs[1] == RevOf(id[1]).value && vs[2] == RevOf(id[2]).value
    requires vs[3] == RevOf(id[3]).value
    ensures Chars(vs) == Lower(id)
  {
    CharsOfValues(id);
    assert vs == Values(id);
  }

  lemma ByteAndSymbol(n: nat, m: nat)
    requires n == 8 && m == 5
    ensures Pow(2, n) == 256 && Pow(2, m) == 32
  {
  }

  method PayloadValues(payload: seq<nat>) returns (vs: seq<Element>)
    requires IsDigits(256, payload)
    ensures Padded(8, 5, payload, Nats(vs))
  {
    ByteAndSymbol(8, 5);
    var ok, out := ConvertBits(8, 5, true, payload);
    vs := seq(|out|, i requires 0 <= i < |out| && IsDigits(32, out) => OfNat(out[i]));
    forall i | 0 <= i < |out| ensures Nats(vs)[i] == out[i] {
      NatRoundTrip(out[i]);
    }
    assert Nats(vs) == out;
  }

  method GetPayload(s: Share) returns (ret: seq<nat>)
    requires s.valid == OK && |s.data| >= 6
    ensures Truncated(5, 8, Nats(s.data[6..]), ret)
  {
    ByteAndSymbol(8, 5);
    var ok;
    ok, ret := ConvertBits(5, 8, false, Nats(s.data[6..]));
  }

  /** The payload a share was made of is the payload read from it. */
  lemma {:induction false} PayloadComesBack(s: Share, k: nat, id: string, shareIdx: char, payload: seq<nat>,
                                            ret: seq<nat>)
    requires IsDigits(256, payload) && MadeOf(s, k, id, shareIdx, payload)
    ensures Truncated(5, 8, Nats(s.data[6..]), ret) ==> ret == payload
  {
    ByteAndSymbol(8, 5);
    if Truncated(5, 8, Nats(s.data[6..]), ret) {
      BackAgain(8, 5, payload, Nats(s.data[6..]), ret);
    }
  }

  method FromParts(hrp: string, k: nat, id: string, shareIdx: char, payload: seq<nat>) returns (s: Share)
    requires IsDigits(256, payload)
    ensures s.hrp == hrp && s.valid == PartsError(hrp, k, id, shareIdx)
    ensures s.valid == OK ==> WellFormed(s) && MadeOf(s, k, id, shareIdx, payload)
  {
    var valid := CheckParts(hrp, k, id, shareIdx);
    if valid != OK {
      return Share(valid, hrp, []);
    }
    var head := Head(k, id, shareIdx);
    var tail := PayloadValues(payload);
    assert (head + tail)[6..] == tail && (head + tail)[1..5] == head[1..5];
    s := Share(OK, hrp, head + tail);
  }

  /** Of the payloads, those of 45 and 46 bytes have no text: the lengths that the short checksum is used for when
      writing and those that it is accepted for when reading differ. */
  lemma {:induction false} PayloadHasText(s: Share, k: nat, id: string, shareIdx: char, payload: seq<nat>)
    requires WellFormed(s) && MadeOf(s, k, id, shareIdx, payload)
    ensures Parsing(Encoded(s)) == s <==> 16 <= |payload| <= 44 || 47 <= |payload| <= 64
  {
    LengthOfPayload(s, k, id, shareIdx, payload);
    ReadsBack(s);
    ValuesOfPayload(|payload|, |s.data|);
  }

  lemma {:induction false} ReadsBack(s: Share)
    requires WellFormed(s)
    ensures Parsing(Encoded(s)) == s <==> HasText(|s.data|)
  {
    ParseEncoded(s);
  }

  lemma {:induction false} LengthOfPayload(s: Share, k: nat, id: string, shareIdx: char, payload: seq<nat>)
    requires MadeOf(s, k, id, shareIdx, payload)
    ensures 8 * |payload| <= 5 * (|s.data| - 6) < 8 * |payload| + 5
  {
  }

  lemma ValuesOfPayload(n: nat, d: nat)
    requires 8 * n <= 5 * (d - 6) < 8 * n + 5
    ensures HasText(d) <==> 16 <= n <= 44 || 47 <= n <= 64
  {
  }

  /** A payload of 45 bytes gives 78 values, whose text is refused. */
  lemma {:induction false} FortyFiveBytesRefused(s: Share, k: nat, id: string, shareIdx: char, payload: seq<nat>)
    requires WellFormed(s) && MadeOf(s, k, id, shareIdx, payload) && |payload| == 45
    ensures |s.data| == 78 && Parsing(Encoded(s)).valid == INVALID_LENGTH
  {
    LengthOfPayload(s, k, id, shareIdx, payload);
    ParseEncoded(s);
  }
}

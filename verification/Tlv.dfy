/** The type-length-value walk of `ParseMetadataExtension` in internal/solana/service.go, over the
    bytes of a token mint account. */
module Tlv {
  import opened Domain

  const BASE_ACCOUNT_LENGTH := 165
  const ACCOUNT_TYPE_MINT := 1
  const TOKEN_METADATA := 19

  /** One extension entry; type and length are sixteen-bit little-endian numbers. */
  datatype Entry = Entry(typ: int, value: seq<Byte>)

  predicate Fits(e: Entry) {
    0 <= e.typ < 0x1_0000 && |e.value| < 0x1_0000
  }

  /** Some well-formed entries, none of which is the token metadata. */
  predicate Ordinary(entries: seq<Entry>) {
    forall e <- entries :: Fits(e) && e.typ != TOKEN_METADATA
  }

  function Low(n: int): Byte { n % 256 }

  function High(n: int): Byte { n / 256 % 256 }

  function Uint16(low: Byte, high: Byte): int { low + 256 * high }

  function Encode(e: Entry): seq<Byte> {
    [Low(e.typ), High(e.typ), Low(|e.value|), High(|e.value|)] + e.value
  }

  function EncodeAll(entries: seq<Entry>): seq<Byte> {
    if entries == [] then [] else Encode(entries[0]) + EncodeAll(entries[1..])
  }

  /** What deserializing a payload yields. */
  datatype Wire = Wire(updateAuthority: seq<Byte>, mint: seq<Byte>, name: string, symbol: string, uri: string,
                       additional: seq<(string, string)>)

  datatype Extension = Extension(updateAuthority: seq<Byte>, mint: seq<Byte>, name: string, symbol: string,
                                 uri: string, additional: map<string, string>)

  datatype Outcome =
    | NoExtensions
    | UnexpectedType(accountType: Byte)
    | Malformed
    | Undecodable(raw: seq<Byte>)
    | Parsed(raw: seq<Byte>, extension: Extension)
    | NotFound

  function Type(tlv: seq<Byte>): int
    requires |tlv| >= 4
  {
    Uint16(tlv[0], tlv[1])
  }

  function Length(tlv: seq<Byte>): int
    requires |tlv| >= 4
  {
    Uint16(tlv[2], tlv[3])
  }

  /** The entry at the front claims more bytes than are left. */
  predicate Overruns(tlv: seq<Byte>) {
    |tlv| >= 4 && 4 + Length(tlv) > |tlv|
  }

  predicate AtMetadata(tlv: seq<Byte>) {
    |tlv| >= 4 && !Overruns(tlv) && Type(tlv) == TOKEN_METADATA
  }

  predicate Stops(tlv: seq<Byte>) {
    |tlv| < 4 || Overruns(tlv) || AtMetadata(tlv)
  }

  /** The bytes where the walk stops. */
  function Rest(tlv: seq<Byte>): (rest: seq<Byte>)
    ensures Stops(rest)
    decreases |tlv|
  {
    if Stops(tlv) then tlv else Rest(tlv[4 + Length(tlv)..])
  }

  // What the walk owes, said through encodings only.

  ghost predicate Skips(entries: seq<Entry>, tlv: seq<Byte>, after: seq<Byte>) {
    Ordinary(entries) && tlv == EncodeAll(entries) + after
  }

  ghost predicate SelectsPayload(tlv: seq<Byte>, raw: seq<Byte>) {
    exists entries, after :: Skips(entries, tlv, after) && StartsWith(after, raw)
  }

  ghost predicate StartsWith(tlv: seq<Byte>, raw: seq<Byte>) {
    Fits(Entry(TOKEN_METADATA, raw)) && Encode(Entry(TOKEN_METADATA, raw)) <= tlv
  }

  ghost predicate Breaks(tlv: seq<Byte>) {
    exists entries, after :: Skips(entries, tlv, after) && Overruns(after)
  }

  ghost predicate RunsOut(tlv: seq<Byte>) {
    exists entries, after :: Skips(entries, tlv, after) && |after| < 4
  }

  /** The parser.  `decode` is the deserializer of the payload.  Every answer is characterized both
      ways, so the first metadata entry is selected, whatever follows it, and an overrun is reported
      exactly when it comes before one. */
  method ParseMetadataExtension(data: seq<Byte>, decode: seq<Byte> -> Option<Wire>) returns (outcome: Outcome)
    ensures outcome.NoExtensions? <==> |data| <= BASE_ACCOUNT_LENGTH
    ensures outcome.UnexpectedType? <==> |data| > BASE_ACCOUNT_LENGTH && data[BASE_ACCOUNT_LENGTH] != ACCOUNT_TYPE_MINT
    ensures outcome.UnexpectedType? ==> outcome.accountType == data[BASE_ACCOUNT_LENGTH]
    ensures |data| > BASE_ACCOUNT_LENGTH && data[BASE_ACCOUNT_LENGTH] == ACCOUNT_TYPE_MINT ==>
              var tlv := data[BASE_ACCOUNT_LENGTH + 1..];
              && (outcome.Malformed? <==> Breaks(tlv))
              && (outcome.NotFound? <==> RunsOut(tlv))
              && (forall raw :: SelectsPayload(tlv, raw) <==>
                                (outcome.Undecodable? || outcome.Parsed?) && outcome.raw == raw)
    ensures outcome.Undecodable? ==> decode(outcome.raw).None?
    ensures outcome.Parsed? ==> decode(outcome.raw).Some? && IsExtension(outcome.extension, decode(outcome.raw).value)
  {
    if |data| <= BASE_ACCOUNT_LENGTH {
      return NoExtensions;
    }
    if data[BASE_ACCOUNT_LENGTH] != ACCOUNT_TYPE_MINT {
      return UnexpectedType(data[BASE_ACCOUNT_LENGTH]);
    }
    var tlv := data[BASE_ACCOUNT_LENGTH + 1..];
    var end, raw := WalkEntries(tlv);
    WalkMeaning(tlv);
    if end.Overrun? {
      return Malformed;
    }
    if end.Exhausted? {
      return NotFound;
    }
    var wire := decode(raw);
    if wire.None? {
      return Undecodable(raw);
    }
    var extension := ToExtension(wire.value);
    outcome := Parsed(raw, extension);
  }

  datatype End = Overrun | Exhausted | AtEntry

  /** The loop of the parser: the cursor moves over entries until one is the token metadata. */
  method WalkEntries(tlv: seq<Byte>) returns (end: End, raw: seq<Byte>)
    ensures end.Overrun? <==> Overruns(Rest(tlv))
    ensures end.Exhausted? <==> |Rest(tlv)| < 4
    ensures end.AtEntry? ==> raw == Rest(tlv)[4..4 + Length(Rest(tlv))]
  {
    var i := 0;
    raw := [];
    ghost var rest := Rest(tlv);
    assert tlv[0..] == tlv;
    while i + 4 <= |tlv|
      invariant LeadsTo(tlv, i, rest)
    {
      var typ := Uint16(tlv[i], tlv[i + 1]);
      var length := Uint16(tlv[i + 2], tlv[i + 3]);
      EntryAt(tlv, i, rest);
      if i + 4 + length > |tlv| {
        return Overrun, raw;
      }
      if typ == TOKEN_METADATA {
        raw := tlv[i + 4..i + 4 + length];
        return AtEntry, raw;
      }
      i := i + 4 + length;
    }
    assert rest == tlv[i..];
    end := Exhausted;
  }

  /** From position `i` the walk stops at `rest`. */
  predicate LeadsTo(tlv: seq<Byte>, i: int, rest: seq<Byte>) {
    0 <= i <= |tlv| && Rest(tlv[i..]) == rest
  }

  /** What the cursor sees at position `i`. */
  lemma EntryAt(tlv: seq<Byte>, i: nat, rest: seq<Byte>)
    requires i + 4 <= |tlv| && LeadsTo(tlv, i, rest)
    ensures var length := Uint16(tlv[i + 2], tlv[i + 3]);
            if i + 4 + length > |tlv| then Overruns(rest)
            else if Uint16(tlv[i], tlv[i + 1]) == TOKEN_METADATA then
              AtMetadata(rest) && tlv[i + 4..i + 4 + length] == rest[4..4 + Length(rest)]
            else LeadsTo(tlv, i + 4 + length, rest)
  {
    var t, length := tlv[i..], Uint16(tlv[i + 2], tlv[i + 3]);
    assert Type(t) == Uint16(tlv[i], tlv[i + 1]) && Length(t) == length;
    if i + 4 + length <= |tlv| {
      DropTwice(tlv, i, 4 + length);
      assert tlv[i + 4..i + 4 + length] == t[4..4 + length];
    }
  }

  lemma DropTwice(s: seq<Byte>, i: nat, n: nat)
    requires i + n <= |s|
    ensures s[i..][n..] == s[i + n..]
  {
  }

  /** Later values of a repeated key win. */
  predicate IsExtension(e: Extension, w: Wire) {
    && e.updateAuthority == w.updateAuthority && e.mint == w.mint
    && e.name == w.name && e.symbol == w.symbol && e.uri == w.uri
    && IsLast(e.additional, w.additional)
  }

  predicate IsLast(m: map<string, string>, pairs: seq<(string, string)>) {
    && (forall p <- pairs :: p.0 in m)
    && (forall k <- m :: exists i :: 0 <= i < |pairs| && IsLastOf(pairs, i, k, m[k]))
  }

  predicate IsLastOf(pairs: seq<(string, string)>, i: nat, k: string, v: string) {
    i < |pairs| && pairs[i] == (k, v) && forall j :: i < j < |pairs| ==> pairs[j].0 != k
  }

  method ToExtension(w: Wire) returns (e: Extension)
    ensures IsExtension(e, w)
  {
    var additional := map[];
    var i := 0;
    while i < |w.additional|
      invariant 0 <= i <= |w.additional|
      invariant IsLast(additional, w.additional[..i])
    {
      var kv := w.additional[i];
      LastOfMore(additional, w.additional, i);
      additional := additional[kv.0 := kv.1];
      i := i + 1;
    }
    assert w.additional[..|w.additional|] == w.additional;
    e := Extension(w.updateAuthority, w.mint, w.name, w.symbol, w.uri, additional);
  }

  lemma LastOfMore(m: map<string, string>, pairs: seq<(string, string)>, i: nat)
    requires i < |pairs| && IsLast(m, pairs[..i])
    ensures IsLast(m[pairs[i].0 := pairs[i].1], pairs[..i + 1])
  {
    var more, kv := pairs[..i + 1], pairs[i];
    var next := m[kv.0 := kv.1];
    assert more == pairs[..i] + [kv];
    forall k | k in next ensures exists j :: 0 <= j < |more| && IsLastOf(more, j, k, next[k]) {
      if k == kv.0 {
        assert IsLastOf(more, i, k, next[k]);
      } else {
        var j :| 0 <= j < |pairs[..i]| && IsLastOf(pairs[..i], j, k, m[k]);
        assert IsLastOf(more, j, k, next[k]);
      }
    }
  }

  // ---------- the walk and encodings ----------

  /** How the walk ends decides which of the three descriptions of the bytes holds. */
  lemma WalkMeaning(tlv: seq<Byte>)
    ensures Breaks(tlv) <==> Overruns(Rest(tlv))
    ensures RunsOut(tlv) <==> |Rest(tlv)| < 4
    ensures forall raw :: SelectsPayload(tlv, raw) <==>
                          AtMetadata(Rest(tlv)) && raw == Rest(tlv)[4..4 + Length(Rest(tlv))]
  {
    SkippedIsEncoded(tlv);
    forall entries, after | Skips(entries, tlv, after) ensures Rest(tlv) == Rest(after) {
      WalkSkips(entries, after);
    }
    forall raw
      ensures SelectsPayload(tlv, raw) <==>
              AtMetadata(Rest(tlv)) && raw == Rest(tlv)[4..4 + Length(Rest(tlv))]
    {
      Selected(tlv, raw);
    }
  }

  lemma Selected(tlv: seq<Byte>, raw: seq<Byte>)
    requires forall entries, after :: Skips(entries, tlv, after) ==> Rest(tlv) == Rest(after)
    requires exists entries :: Skips(entries, tlv, Rest(tlv))
    ensures SelectsPayload(tlv, raw) <==>
            AtMetadata(Rest(tlv)) && raw == Rest(tlv)[4..4 + Length(Rest(tlv))]
  {
    AtPayload(Rest(tlv), raw);
    if SelectsPayload(tlv, raw) {
      var entries, after :| Skips(entries, tlv, after) && StartsWith(after, raw);
      AtPayload(after, raw);
      assert Rest(tlv) == Rest(after);
    }
    if StartsWith(Rest(tlv), raw) {
      var entries :| Skips(entries, tlv, Rest(tlv));
      assert Skips(entries, tlv, Rest(tlv)) && StartsWith(Rest(tlv), raw);
    }
  }

  lemma AtPayload(after: seq<Byte>, raw: seq<Byte>)
    ensures StartsWith(after, raw) <==> AtMetadata(after) && raw == after[4..4 + Length(after)]
  {
    var e := Entry(TOKEN_METADATA, raw);
    if StartsWith(after, raw) {
      assert after == Encode(e) + after[|Encode(e)|..];
      DecodeEncode(e, after[|Encode(e)|..]);
    }
    if AtMetadata(after) {
      EncodeDecode(after);
    }
  }

  /** The walk passes over every ordinary entry. */
  lemma {:induction false} WalkSkips(entries: seq<Entry>, after: seq<Byte>)
    requires Ordinary(entries)
    ensures Rest(EncodeAll(entries) + after) == Rest(after)
    decreases |entries|
  {
    if entries == [] {
      assert EncodeAll(entries) + after == after;
    } else {
      var tail := EncodeAll(entries[1..]) + after;
      assert EncodeAll(entries) + after == Encode(entries[0]) + tail;
      DecodeEncode(entries[0], tail);
      WalkSkips(entries[1..], after);
    }
  }

  /** What the walk passed over is an encoding of ordinary entries. */
  lemma {:induction false} SkippedIsEncoded(tlv: seq<Byte>)
    ensures exists entries :: Skips(entries, tlv, Rest(tlv))
    decreases |tlv|
  {
    if Stops(tlv) {
      assert Skips([], tlv, Rest(tlv));
    } else {
      var size := 4 + Length(tlv);
      SkippedIsEncoded(tlv[size..]);
      var entries :| Skips(entries, tlv[size..], Rest(tlv[size..]));
      EncodeDecode(tlv);
      SkipsOneMore(Entry(Type(tlv), tlv[4..size]), entries, tlv[size..], Rest(tlv));
    }
  }

  lemma SkipsOneMore(e: Entry, entries: seq<Entry>, tlv: seq<Byte>, after: seq<Byte>)
    requires Fits(e) && e.typ != TOKEN_METADATA && Skips(entries, tlv, after)
    ensures Skips([e] + entries, Encode(e) + tlv, after)
  {
    assert ([e] + entries)[1..] == entries;
    assert Encode(e) + (EncodeAll(entries) + after) == (Encode(e) + EncodeAll(entries)) + after;
  }

  /** Reading an encoded entry gives it back, whatever follows. */
  lemma DecodeEncode(e: Entry, after: seq<Byte>)
    requires Fits(e)
    ensures var tlv := Encode(e) + after;
            && |tlv| >= 4 && !Overruns(tlv) && Type(tlv) == e.typ && Length(tlv) == |e.value|
            && tlv[4..4 + Length(tlv)] == e.value && tlv[4 + Length(tlv)..] == after
  {
    Halves(e.typ);
    Halves(|e.value|);
  }

  /** Bytes that hold a whole entry are its encoding. */
  lemma EncodeDecode(tlv: seq<Byte>)
    requires |tlv| >= 4 && !Overruns(tlv)
    ensures var e := Entry(Type(tlv), tlv[4..4 + Length(tlv)]);
            Fits(e) && tlv == Encode(e) + tlv[4 + Length(tlv)..]
  {
    var typ, length := Type(tlv), Length(tlv);
    Joined(tlv[0], tlv[1]);
    Joined(tlv[2], tlv[3]);
    var value := tlv[4..4 + length];
    assert |value| == length;
    assert tlv == [tlv[0], tlv[1], tlv[2], tlv[3]] + value + tlv[4 + length..];
  }

  lemma Halves(n: int)
    requires 0 <= n < 0x1_0000
    ensures Uint16(Low(n), High(n)) == n
  {
  }

  lemma Joined(low: Byte, high: Byte)
    ensures 0 <= Uint16(low, high) < 0x1_0000
    ensures Low(Uint16(low, high)) == low && High(Uint16(low, high)) == high
  {
  }
}

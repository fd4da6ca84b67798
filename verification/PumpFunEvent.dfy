/** The swap event of a PumpFun instruction: `HandlePumpFunSwapData` of
    internal/solana/dex/pumpfun.go.  It looks for the event's discriminator in the hexadecimal text
    of the bytes, so a match may start in the middle of a byte. */
module PumpFunEvent {
  import opened Domain

  /** A hexadecimal digit (section 8 of RFC 4648). */
  type Digit = x: int | 0 <= x < 16

  /** bddb7fd34ee661ee */
  const DISCRIMINATOR: seq<Digit> := [11, 13, 13, 11, 7, 15, 13, 3, 4, 14, 14, 6, 6, 1, 14, 14]

  const EVENT_BYTES: seq<Byte> := [189, 219, 127, 211, 78, 230, 97, 238]

  datatype Event = Event(mint: Address, sol: nat, tokens: nat, isBuy: bool, user: Address)

  /** The decoders of unseen libraries: base58 text, and the layout of the event. */
  datatype Codec = Codec(base58: string -> Option<seq<Byte>>, event: seq<Byte> -> Option<Event>)

  function DigitOf(b: Byte, half: int): Digit {
    if half == 0 then b / 16 else b % 16
  }

  function Joined(high: Digit, low: Digit): Byte {
    16 * high + low
  }

  function ToHex(bytes: seq<Byte>): (hex: seq<Digit>)
    ensures |hex| == 2 * |bytes|
  {
    if bytes == [] then [] else
    var last := |bytes| - 1;
    ToHex(bytes[..last]) + [DigitOf(bytes[last], 0), DigitOf(bytes[last], 1)]
  }

  /** Text of an odd length does not decode. */
  function FromHex(hex: seq<Digit>): (bytes: Option<seq<Byte>>)
    ensures bytes.Some? <==> |hex| % 2 == 0
  {
    if |hex| % 2 == 1 then None else
    Some(seq(|hex| / 2, k requires 0 <= k < |hex| / 2 => Joined(hex[2 * k], hex[2 * k + 1])))
  }

  predicate MatchesAt(hex: seq<Digit>, pos: int) {
    0 <= pos <= |hex| - 16 && forall i :: 0 <= i < 16 ==> hex[pos + i] == DISCRIMINATOR[i]
  }

  /** The first match, if any. */
  function Index(hex: seq<Digit>, from: nat): (pos: int)
    ensures pos == -1 <==> forall p :: p >= from ==> !MatchesAt(hex, p)
    ensures pos != -1 ==> pos >= from && MatchesAt(hex, pos) && forall p :: from <= p < pos ==> !MatchesAt(hex, p)
    decreases |hex| - from
  {
    if from + 16 > |hex| then -1
    else if MatchesAt(hex, from) then from
    else Index(hex, from + 1)
  }

  /** The bytes handed to the event decoder. */
  function Payload(bytes: seq<Byte>): Option<seq<Byte>> {
    var hex := ToHex(bytes);
    var pos := Index(hex, 0);
    if pos == -1 then None else FromHex(hex[pos + 16..])
  }

  /** The event's eight bytes stand at byte `k`. */
  predicate EventAt(bytes: seq<Byte>, k: nat) {
    k + 8 <= |bytes| && forall i :: 0 <= i < 8 ==> bytes[k + i] == EVENT_BYTES[i]
  }

  /** The text matches at byte `k`, and nowhere before, not even across bytes. */
  ghost predicate FirstMatchAligned(bytes: seq<Byte>, k: nat) {
    EventAt(bytes, k) && forall p :: 0 <= p < 2 * k ==> !MatchesAt(ToHex(bytes), p)
  }

  lemma PayloadAt(bytes: seq<Byte>, k: nat)
    requires FirstMatchAligned(bytes, k)
    ensures Index(ToHex(bytes), 0) == 2 * k && Payload(bytes) == Some(bytes[k + 8..])
  {
    AlignedMatch(bytes, k);
    RestDecodes(bytes, k);
  }

  lemma FirstMatch(bytes: seq<Byte>) returns (k: nat)
    requires Payload(bytes).Some?
    ensures FirstMatchAligned(bytes, k)
  {
    OddMatchIsNoEvent(bytes);
    k := Index(ToHex(bytes), 0) / 2;
    AlignedMatch(bytes, k);
  }

  /** A payload is found iff the first match is aligned with the bytes, and then it is exactly what
      follows the eight bytes. */
  lemma PayloadIsWhatFollows(bytes: seq<Byte>, payload: seq<Byte>)
    ensures Payload(bytes) == Some(payload) <==>
            exists k: nat :: FirstMatchAligned(bytes, k) && payload == bytes[k + 8..]
  {
    var pos := Index(ToHex(bytes), 0);
    forall k: nat | FirstMatchAligned(bytes, k) ensures pos == 2 * k && Payload(bytes) == Some(bytes[k + 8..]) {
      PayloadAt(bytes, k);
    }
    if Payload(bytes).Some? {
      var k := FirstMatch(bytes);
    }
  }

  /** A first match at an odd digit always loses the event: what is left has an odd length. */
  lemma OddMatchIsNoEvent(bytes: seq<Byte>)
    ensures Payload(bytes).None? <==> Index(ToHex(bytes), 0) == -1 || Index(ToHex(bytes), 0) % 2 == 1
  {
    var pos := Index(ToHex(bytes), 0);
    if pos != -1 {
      EvenRest(|bytes|, pos);
    }
  }

  lemma EvenRest(n: nat, pos: nat)
    ensures (2 * n - (pos + 16)) % 2 == pos % 2
  {
  }

  /** Such a match can hide a real event behind it: the digits of these nine bytes contain the
      discriminator from the second digit on. */
  lemma HiddenEvent(payload: seq<Byte>)
    ensures var bytes := [11, 221, 183, 253, 52, 238, 102, 30, 224] + EVENT_BYTES + payload;
            EventAt(bytes, 9) && Payload(bytes).None?
  {
    var head: seq<Byte> := [11, 221, 183, 253, 52, 238, 102, 30, 224];
    var bytes := head + EVENT_BYTES + payload;
    var hex := ToHex(bytes);
    forall p | 0 <= p < 18 ensures hex[p] == DigitOf(head[p / 2], p % 2) {
      HexAt(bytes, p);
    }
    HeadDigits(head);
    assert hex[0] == 0 && !MatchesAt(hex, 0) by {
      assert hex[0 + 0] != DISCRIMINATOR[0];
    }
    assert MatchesAt(hex, 1);
    OddMatchIsNoEvent(bytes);
  }

  lemma HeadDigits(head: seq<Byte>)
    requires head == [11, 221, 183, 253, 52, 238, 102, 30, 224]
    ensures DigitOf(head[0], 0) == 0
    ensures forall i :: 0 <= i < 16 ==> DigitOf(head[(1 + i) / 2], (1 + i) % 2) == DISCRIMINATOR[i]
  {
  }

  lemma HexAt(bytes: seq<Byte>, p: nat)
    requires p < 2 * |bytes|
    ensures ToHex(bytes)[p] == DigitOf(bytes[p / 2], p % 2)
  {
    HexPair(bytes, p / 2);
    assert p == 2 * (p / 2) || p == 2 * (p / 2) + 1;
  }

  lemma {:induction false} HexPair(bytes: seq<Byte>, j: nat)
    requires j < |bytes|
    ensures ToHex(bytes)[2 * j] == DigitOf(bytes[j], 0) && ToHex(bytes)[2 * j + 1] == DigitOf(bytes[j], 1)
    decreases |bytes|
  {
    var last := |bytes| - 1;
    var init := ToHex(bytes[..last]);
    assert ToHex(bytes) == init + [DigitOf(bytes[last], 0), DigitOf(bytes[last], 1)];
    if j < last {
      HexPair(bytes[..last], j);
      assert bytes[..last][j] == bytes[j];
    }
  }

  lemma AlignedMatch(bytes: seq<Byte>, k: nat)
    ensures MatchesAt(ToHex(bytes), 2 * k) <==> EventAt(bytes, k)
  {
    var hex := ToHex(bytes);
    if k + 8 <= |bytes| {
      forall j | 0 <= j < 16 ensures hex[2 * k + j] == DigitOf(bytes[k + j / 2], j % 2) {
        HexAt(bytes, 2 * k + j);
        assert (2 * k + j) / 2 == k + j / 2 && (2 * k + j) % 2 == j % 2;
      }
      EventDigits();
      if MatchesAt(hex, 2 * k) {
        forall i | 0 <= i < 8 ensures bytes[k + i] == EVENT_BYTES[i] {
          assert hex[2 * k + 2 * i] == DISCRIMINATOR[2 * i] && hex[2 * k + (2 * i + 1)] == DISCRIMINATOR[2 * i + 1];
          SameByte(bytes[k + i], EVENT_BYTES[i]);
        }
      }
    }
  }

  lemma EventDigits()
    ensures forall j :: 0 <= j < 16 ==> DISCRIMINATOR[j] == DigitOf(EVENT_BYTES[j / 2], j % 2)
  {
  }

  lemma SameByte(a: Byte, b: Byte)
    requires DigitOf(a, 0) == DigitOf(b, 0) && DigitOf(a, 1) == DigitOf(b, 1)
    ensures a == b
  {
  }

  lemma RestDecodes(bytes: seq<Byte>, k: nat)
    requires k + 8 <= |bytes|
    ensures FromHex(ToHex(bytes)[2 * k + 16..]) == Some(bytes[k + 8..])
  {
    HexPairs(bytes);
    RestOfPairs(bytes, ToHex(bytes), k);
  }

  lemma RestOfPairs(bytes: seq<Byte>, hex: seq<Digit>, k: nat)
    requires k + 8 <= |bytes| && ArePairs(bytes, hex)
    ensures FromHex(hex[2 * k + 16..]) == Some(bytes[k + 8..])
  {
    PairsDecode(bytes, hex, k + 8, 2 * k + 16);
  }

  lemma HexPairs(bytes: seq<Byte>)
    ensures ArePairs(bytes, ToHex(bytes))
  {
    forall j | 0 <= j < |bytes|
      ensures ToHex(bytes)[2 * j] == DigitOf(bytes[j], 0) && ToHex(bytes)[2 * j + 1] == DigitOf(bytes[j], 1)
    {
      HexPair(bytes, j);
    }
  }

  /** Two digits for every byte. */
  predicate ArePairs(bytes: seq<Byte>, hex: seq<Digit>) {
    && |hex| == 2 * |bytes|
    && forall j :: 0 <= j < |bytes| ==> hex[2 * j] == DigitOf(bytes[j], 0) && hex[2 * j + 1] == DigitOf(bytes[j], 1)
  }

  lemma PairsDecode(bytes: seq<Byte>, hex: seq<Digit>, start: nat, at: nat)
    requires start <= |bytes| && at == 2 * start && ArePairs(bytes, hex)
    ensures FromHex(hex[at..]) == Some(bytes[start..])
  {
    var rest, after := hex[at..], bytes[start..];
    forall i | 0 <= i < |after| ensures FromHex(rest).value[i] == after[i] {
      assert rest[2 * i] == hex[2 * (start + i)] && rest[2 * i + 1] == hex[2 * (start + i) + 1];
      DigitsJoin(bytes[start + i]);
    }
    assert FromHex(rest).value == after;
  }

  lemma DigitsJoin(b: Byte)
    ensures Joined(DigitOf(b, 0), DigitOf(b, 1)) == b
  {
  }

  // ---------- the swap ----------

  /** The event behind an instruction's data. */
  function EventOf(data: string, codec: Codec): Option<Event> {
    if codec.base58(data).None? then None else
    var payload := Payload(codec.base58(data).value);
    if payload.None? then None else codec.event(payload.value)
  }

  /** Whether a swap comes out of an event. */
  predicate Usable(e: Event) {
    e.mint != NoAddress && e.sol > 0 && e.tokens > 0
  }

  /** The swap of a usable event: lamports count in billionths and PumpFun tokens in millionths. */
  function SwapOf(e: Event): Swap {
    var sol, tokens := Scaled(e.sol, 9), Scaled(e.tokens, 6);
    if e.isBuy then Swap(NoAddress, "PUMPFUN", Sol, e.mint, Some(sol), Some(tokens), e.user, "")
    else Swap(NoAddress, "PUMPFUN", e.mint, Sol, Some(tokens), Some(sol), e.user, "")
  }

  function SwapData(data: string, codec: Codec): Swap {
    var event := EventOf(data, codec);
    if event.Some? && Usable(event.value) then SwapOf(event.value) else NO_SWAP
  }

  method HandlePumpFunSwapData(ixData: string, codec: Codec) returns (s: Swap)
    ensures s == SwapData(ixData, codec)
  {
    s := NO_SWAP;
    var bytesData := codec.base58(ixData);
    if bytesData.None? {
      return NO_SWAP;
    }
    var hexData := ToHex(bytesData.value);
    var pos := Index(hexData, 0);
    if pos == -1 {
      return NO_SWAP;
    }
    var decodedBytes := FromHex(hexData[pos + 16..]);
    if decodedBytes.None? {
      return NO_SWAP;
    }
    var event := codec.event(decodedBytes.value);
    if event.None? || event.value.mint == NoAddress {
      return NO_SWAP;
    }
    var swap := event.value;
    s := s.(tokenIn := swap.mint, wallet := swap.user, exchange := "PUMPFUN");
    var amountOut, amountIn, outDecimals, inDecimals;
    if swap.isBuy {
      s := s.(tokenOut := Sol);
      outDecimals, inDecimals := 9, 6;
      amountOut, amountIn := swap.sol, swap.tokens;
    } else {
      s := s.(tokenIn := Sol, tokenOut := swap.mint);
      outDecimals, inDecimals := 6, 9;
      amountOut, amountIn := swap.tokens, swap.sol;
    }
    if amountOut == 0 || amountIn == 0 {
      return NO_SWAP;
    }
    s := s.(amountOut := Some(Scaled(amountOut, outDecimals)), amountIn := Some(Scaled(amountIn, inDecimals)));
  }

  /** A swap comes out iff an aligned first match is followed by a decodable event with nonzero
      amounts; it pays SOL for the event's token or the reverse, in positive amounts. */
  lemma SwapNeedsAlignedEvent(data: string, codec: Codec)
    ensures SwapData(data, codec) != NO_SWAP <==>
            codec.base58(data).Some? &&
            var bytes := codec.base58(data).value;
            exists k: nat :: FirstMatchAligned(bytes, k) && codec.event(bytes[k + 8..]).Some? &&
                             Usable(codec.event(bytes[k + 8..]).value)
    ensures SwapData(data, codec) != NO_SWAP ==>
              var s := SwapData(data, codec);
              && s.amountOut.Some? && s.amountIn.Some? && s.amountOut.value > 0.0 && s.amountIn.value > 0.0
              && (s.tokenOut == Sol || s.tokenIn == Sol)
  {
    if codec.base58(data).Some? {
      var bytes := codec.base58(data).value;
      forall k: nat | FirstMatchAligned(bytes, k) ensures Payload(bytes) == Some(bytes[k + 8..]) {
        PayloadIsWhatFollows(bytes, bytes[k + 8..]);
      }
      if Payload(bytes).Some? {
        PayloadIsWhatFollows(bytes, Payload(bytes).value);
      }
    }
  }

  /** The swap of a usable event behind an aligned first match: its user pays SOL for the event's token or the
      reverse, in the amounts of the event. */
  lemma SwapOfEvent(data: string, codec: Codec, k: nat)
    requires codec.base58(data).Some? && FirstMatchAligned(codec.base58(data).value, k)
    requires codec.event(codec.base58(data).value[k + 8..]).Some?
    requires Usable(codec.event(codec.base58(data).value[k + 8..]).value)
    ensures var e, s := codec.event(codec.base58(data).value[k + 8..]).value, SwapData(data, codec);
            && s.wallet == e.user && s.exchange == "PUMPFUN" && s.amountOut.Some? && s.amountIn.Some?
            && (if e.isBuy then s.tokenOut == Sol && s.tokenIn == e.mint
                else s.tokenOut == e.mint && s.tokenIn == Sol)
            && var (sol, tokens) := if e.isBuy then (s.amountOut.value, s.amountIn.value)
                                    else (s.amountIn.value, s.amountOut.value);
               sol * 1000000000.0 == e.sol as real && tokens * 1000000.0 == e.tokens as real
  {
    var bytes := codec.base58(data).value;
    PayloadIsWhatFollows(bytes, bytes[k + 8..]);
    var e := codec.event(bytes[k + 8..]).value;
    ScaledUnits(e.sol);
    ScaledUnits(e.tokens);
  }
}

/**
 * UTF-8 and UTF-16, twice: the string converters, which replace what is not well
 * formed, and the registry's own pair, which carries every 16-bit unit through.
 * Bit fields are written as quotients and remainders.
 */
module Utf {
  import opened Basics

  const REPLACEMENT: uint16 := 0xfffd
  const QUESTION: uint16 := 0x3f

  predicate IsHigh(u: nat) { 0xd800 <= u <= 0xdbff }

  predicate IsLow(u: nat) { 0xdc00 <= u <= 0xdfff }

  predicate IsSurrogate(u: nat) { 0xd800 <= u <= 0xdfff }

  // ---- One code point ----

  /** The bytes of a code point, as both encoders append them. */
  function AppendUtf8(codePoint: nat): (bytes: seq<byte>)
    requires codePoint <= 0x10_ffff
    ensures 1 <= |bytes| <= 4
  {
    if codePoint <= 0x7f then [codePoint]
    else if codePoint <= 0x7ff then [0xc0 + codePoint / 0x40, 0x80 + codePoint % 0x40]
    else if codePoint <= 0xffff then [0xe0 + codePoint / 0x1000, 0x80 + codePoint / 0x40 % 0x40, 0x80 + codePoint % 0x40]
    else
      [0xf0 + codePoint / 0x4_0000, 0x80 + codePoint / 0x1000 % 0x40, 0x80 + codePoint / 0x40 % 0x40, 0x80 + codePoint % 0x40]
  }

  // What a first byte says: its own bits, and how many bytes follow.
  datatype Lead = Lead(bits: nat, extra: nat)

  function LeadOf(first: byte, otherwise: uint16): (l: Lead)
    ensures l.extra <= 3 && l.bits < [0x1_0000, 32, 16, 8][l.extra]
  {
    if first < 0x80 then Lead(first, 0)
    else if first / 0x20 == 6 then Lead(first % 0x20, 1)
    else if first / 0x10 == 14 then Lead(first % 0x10, 2)
    else if first / 8 == 30 then Lead(first % 8, 3)
    else Lead(otherwise, 0)
  }

  /** The code point once `extra` continuation bytes are folded in, if that many are there. */
  function Continue(codePoint: nat, text: seq<byte>, extra: nat): (r: Option<nat>)
    requires extra <= 3
    ensures r.Some? ==> extra <= |text| && r.value < (codePoint + 1) * [1, 0x40, 0x1000, 0x4_0000][extra]
    decreases extra
  {
    if extra == 0 then Some(codePoint)
    else if text == [] || text[0] / 0x40 != 2 then None
    else Continue(codePoint * 0x40 + text[0] % 0x40, text[1..], extra - 1)
  }

  /** One or two units for a code point. */
  function Units(codePoint: nat): (units: seq<uint16>)
    requires codePoint < 0x20_0000
  {
    if codePoint <= 0xffff then [codePoint]
    else [0xd800 + (codePoint - 0x1_0000) / 0x400, 0xdc00 + (codePoint - 0x1_0000) % 0x400]
  }

  // What decoding the front of a text yields, and how many bytes it takes.
  datatype Step = Step(codePoint: nat, used: nat)

  /** Whether the front of `units` is one pair, and the code point it stands for. */
  predicate IsPair(units: seq<uint16>) {
    |units| >= 2 && IsHigh(units[0]) && IsLow(units[1])
  }

  function PairPoint(high: uint16, low: uint16): (p: nat)
    requires IsHigh(high) && IsLow(low)
    ensures 0x1_0000 <= p <= 0x10_ffff
  {
    0x1_0000 + (high - 0xd800) * 0x400 + (low - 0xdc00)
  }

  // ---- The string converters ----

  function NextPoint(text: seq<byte>): (s: Step)
    requires text != []
    ensures s.codePoint <= 0x10_ffff && !IsSurrogate(s.codePoint) && 1 <= s.used <= |text|
  {
    var lead := LeadOf(text[0], REPLACEMENT);
    var r := Continue(lead.bits, text[1..], lead.extra);
    if r.None? then Step(REPLACEMENT, 1)
    else if r.value > 0x10_ffff || IsSurrogate(r.value) then Step(REPLACEMENT, 1 + lead.extra)
    else Step(r.value, 1 + lead.extra)
  }

  function Decode(text: seq<byte>): seq<uint16> {
    if text == [] then []
    else
      var s := NextPoint(text);
      Units(s.codePoint) + Decode(text[s.used..])
  }

  /** A high unit with something after it is checked for its low; the last one is not. */
  function FrontPoint(units: seq<uint16>): (s: Step)
    requires units != []
    ensures s.codePoint <= 0x10_ffff && 1 <= s.used <= |units|
  {
    if IsHigh(units[0]) && |units| > 1 then
      if IsLow(units[1]) then Step(PairPoint(units[0], units[1]), 2) else Step(REPLACEMENT, 1)
    else if IsLow(units[0]) then Step(REPLACEMENT, 1)
    else Step(units[0], 1)
  }

  function Encode(units: seq<uint16>): seq<byte> {
    if units == [] then []
    else
      var s := FrontPoint(units);
      AppendUtf8(s.codePoint) + Encode(units[s.used..])
  }

  // ---- The registry's converters ----

  /** How many of the next `extra` bytes continue a character. */
  function GoodBytes(text: seq<byte>, extra: nat): (n: nat)
    ensures n <= extra && n <= |text|
  {
    if extra == 0 || text == [] || text[0] / 0x40 != 2 then 0 else 1 + GoodBytes(text[1..], extra - 1)
  }

  /** A bad sequence becomes a question mark; the good bytes in front of a bad one go with it. */
  function NextRegistryPoint(text: seq<byte>): (s: Step)
    requires text != []
    ensures s.codePoint < 0x20_0000 && 1 <= s.used <= |text|
  {
    var lead := LeadOf(text[0], QUESTION);
    var r := Continue(lead.bits, text[1..], lead.extra);
    if |text| < 1 + lead.extra then Step(QUESTION, 1)
    else if r.None? then Step(QUESTION, 1 + GoodBytes(text[1..], lead.extra))
    else Step(r.value, 1 + lead.extra)
  }

  function DecodeRegistry(text: seq<byte>): seq<uint16> {
    if text == [] then []
    else
      var s := NextRegistryPoint(text);
      Units(s.codePoint) + DecodeRegistry(text[s.used..])
  }

  /** Lone surrogates go through as they are. */
  function FrontRegistryPoint(units: seq<uint16>): (s: Step)
    requires units != []
    ensures s.codePoint <= 0x10_ffff && 1 <= s.used <= |units|
  {
    if IsPair(units) then Step(PairPoint(units[0], units[1]), 2) else Step(units[0], 1)
  }

  function EncodeRegistry(units: seq<uint16>): seq<byte> {
    if units == [] then []
    else
      var s := FrontRegistryPoint(units);
      AppendUtf8(s.codePoint) + EncodeRegistry(units[s.used..])
  }

  // ---- The methods ----

  /** The loops of both decoders over the bytes of one character. */
  method ReadContinuation(text: seq<byte>, start: nat, bits: nat, extra: nat) returns (codePoint: nat, good: nat, valid: bool)
    requires start + extra <= |text| && extra <= 3
    ensures good == GoodBytes(text[start..], extra)
    ensures Continue(bits, text[start..], extra) == if valid then Some(codePoint) else None
  {
    codePoint, good, valid := bits, 0, true;
    var j := 0;
    while j < extra
      invariant j <= extra && valid && good == j
      invariant GoodBytes(text[start..], extra) == j + GoodBytes(text[start + j..], extra - j)
      invariant Continue(bits, text[start..], extra) == Continue(codePoint, text[start + j..], extra - j)
    {
      assert text[start + j..][1..] == text[start + (j + 1)..];
      var byte := text[start + j];
      if byte / 0x40 != 2 {
        valid := false;
        break;
      }
      codePoint := codePoint * 0x40 + byte % 0x40;
      j, good := j + 1, good + 1;
    }
  }

  method ReadPoint(text: seq<byte>, i: nat) returns (codePoint: nat, next: nat)
    requires i < |text|
    ensures i < next <= |text| && NextPoint(text[i..]) == Step(codePoint, next - i)
  {
    var lead := LeadOf(text[i], REPLACEMENT);
    next := i + 1;
    codePoint := REPLACEMENT;
    var valid := lead.extra == 0 || next + lead.extra <= |text|;
    assert text[i..][1..] == text[next..];
    if valid {
      var bits, good, ok := ReadContinuation(text, next, lead.bits, lead.extra);
      valid := ok;
      if ok {
        next := next + lead.extra;
        codePoint := bits;
      }
    }
    if !valid || codePoint > 0x10_ffff || IsSurrogate(codePoint) {
      codePoint := REPLACEMENT;
    }
  }

  method Utf8ToUtf16(text: seq<byte>) returns (out: seq<uint16>)
    ensures out == Decode(text)
  {
    out := [];
    var i := 0;
    while i < |text|
      invariant i <= |text| && out + Decode(text[i..]) == Decode(text)
    {
      var codePoint, next := ReadPoint(text, i);
      Regroup(out, Units(codePoint), Decode(text[next..]), Decode(text));
      out, i := out + Units(codePoint), next;
    }
    assert text[i..] == [];
  }

  method ReadUnit(units: seq<uint16>, i: nat) returns (codePoint: nat, next: nat)
    requires i < |units|
    ensures i < next <= |units| && FrontPoint(units[i..]) == Step(codePoint, next - i)
  {
    codePoint, next := units[i], i + 1;
    if IsHigh(codePoint) && next < |units| {
      var low := units[next];
      if IsLow(low) {
        codePoint := PairPoint(units[i], low);
        next := next + 1;
      } else {
        codePoint := REPLACEMENT;
      }
    } else if IsLow(codePoint) {
      codePoint := REPLACEMENT;
    }
  }

  lemma EncodeStep(units: seq<uint16>, i: nat, codePoint: nat, next: nat)
    requires i < next <= |units| && FrontPoint(units[i..]) == Step(codePoint, next - i)
    ensures Encode(units[i..]) == AppendUtf8(codePoint) + Encode(units[next..])
  {
    assert units[i..][next - i..] == units[next..];
  }

  method Utf16ToUtf8(units: seq<uint16>) returns (out: seq<byte>)
    ensures out == Encode(units)
  {
    out := [];
    var i := 0;
    while i < |units|
      invariant i <= |units| && out + Encode(units[i..]) == Encode(units)
    {
      var codePoint, next := ReadUnit(units, i);
      EncodeStep(units, i, codePoint, next);
      Regroup(out, AppendUtf8(codePoint), Encode(units[next..]), Encode(units));
      out, i := out + AppendUtf8(codePoint), next;
    }
    assert units[i..] == [];
  }

  method ReadRegistryPoint(text: seq<byte>, i: nat) returns (codePoint: nat, next: nat)
    requires i < |text|
    ensures i < next <= |text| && NextRegistryPoint(text[i..]) == Step(codePoint, next - i)
  {
    var lead := LeadOf(text[i], QUESTION);
    next := i + 1;
    assert text[i..][1..] == text[next..];
    codePoint := QUESTION;
    if next + lead.extra <= |text| {
      var bits, good, valid := ReadContinuation(text, next, lead.bits, lead.extra);
      if valid {
        GoodWhenComplete(lead.bits, text[next..], lead.extra);
        codePoint := bits;
      }
      next := next + good;
    }
  }

  lemma DecodeRegistryStep(text: seq<byte>, i: nat, codePoint: nat, next: nat)
    requires i < next <= |text| && NextRegistryPoint(text[i..]) == Step(codePoint, next - i)
    ensures DecodeRegistry(text[i..]) == Units(codePoint) + DecodeRegistry(text[next..])
  {
    assert text[i..][next - i..] == text[next..];
  }

  method RegistryUtf8ToUtf16(text: seq<byte>) returns (out: seq<uint16>)
    ensures out == DecodeRegistry(text)
  {
    out := [];
    var i := 0;
    while i < |text|
      invariant i <= |text| && out + DecodeRegistry(text[i..]) == DecodeRegistry(text)
    {
      var codePoint, next := ReadRegistryPoint(text, i);
      DecodeRegistryStep(text, i, codePoint, next);
      Regroup(out, Units(codePoint), DecodeRegistry(text[next..]), DecodeRegistry(text));
      out, i := out + Units(codePoint), next;
    }
    assert text[i..] == [];
  }

  lemma {:induction false} GoodWhenComplete(bits: nat, text: seq<byte>, extra: nat)
    requires extra <= 3 && Continue(bits, text, extra).Some?
    ensures GoodBytes(text, extra) == extra
    decreases extra
  {
    if extra == 0 {
    } else {
      GoodWhenComplete(bits * 0x40 + text[0] % 0x40, text[1..], extra - 1);
    }
  }

  method ReadRegistryUnit(units: seq<uint16>, i: nat) returns (codePoint: nat, next: nat)
    requires i < |units|
    ensures i < next <= |units| && FrontRegistryPoint(units[i..]) == Step(codePoint, next - i)
  {
    codePoint, next := units[i], i + 1;
    if IsHigh(codePoint) && next < |units| {
      var low := units[next];
      if IsLow(low) {
        codePoint := PairPoint(units[i], low);
        next := next + 1;
      }
    }
  }

  lemma EncodeRegistryStep(units: seq<uint16>, i: nat, codePoint: nat, next: nat)
    requires i < next <= |units| && FrontRegistryPoint(units[i..]) == Step(codePoint, next - i)
    ensures EncodeRegistry(units[i..]) == AppendUtf8(codePoint) + EncodeRegistry(units[next..])
  {
    assert units[i..][next - i..] == units[next..];
  }

  method RegistryUtf16ToUtf8(units: seq<uint16>) returns (out: seq<byte>)
    ensures out == EncodeRegistry(units)
  {
    out := [];
    var i := 0;
    while i < |units|
      invariant i <= |units| && out + EncodeRegistry(units[i..]) == EncodeRegistry(units)
    {
      var codePoint, next := ReadRegistryUnit(units, i);
      EncodeRegistryStep(units, i, codePoint, next);
      Regroup(out, AppendUtf8(codePoint), EncodeRegistry(units[next..]), EncodeRegistry(units));
      out, i := out + AppendUtf8(codePoint), next;
    }
    assert units[i..] == [];
  }

  // ---- A code point survives its bytes ----

  /** Whatever follows, an appended code point is read back and exactly its bytes are used. */
  lemma PointSurvives(p: nat, rest: seq<byte>, otherwise: uint16)
    requires p <= 0x10_ffff
    ensures var text := AppendUtf8(p) + rest; var lead := LeadOf(text[0], otherwise);
            && 1 + lead.extra == |AppendUtf8(p)| && Continue(lead.bits, text[1..], lead.extra) == Some(p)
            && text[1 + lead.extra..] == rest
  {
    var text := AppendUtf8(p) + rest;
    if p <= 0x7f {
    } else if p <= 0x7ff {
      Continue1(p / 0x40, text[1..], p);
    } else if p <= 0xffff {
      Continue2(p / 0x1000, text[1..], p);
    } else {
      Continue3(p / 0x4_0000, text[1..], p);
    }
  }

  lemma Continue1(bits: nat, text: seq<byte>, p: nat)
    requires text != [] && text[0] == 0x80 + p % 0x40 && bits == p / 0x40
    ensures Continue(bits, text, 1) == Some(p)
  {
    assert Continue(bits, text, 1) == Continue(bits * 0x40 + text[0] % 0x40, text[1..], 0);
  }

  lemma Continue2(bits: nat, text: seq<byte>, p: nat)
    requires |text| >= 2 && text[0] == 0x80 + p / 0x40 % 0x40 && text[1] == 0x80 + p % 0x40 && bits == p / 0x1000
    ensures Continue(bits, text, 2) == Some(p)
  {
    var q := p / 0x40;
    assert q / 0x40 == bits;
    assert bits * 0x40 + text[0] % 0x40 == q;
    Continue1(q, text[1..], p);
  }

  lemma Continue3(bits: nat, text: seq<byte>, p: nat)
    requires |text| >= 3 && text[0] == 0x80 + p / 0x1000 % 0x40 && text[1] == 0x80 + p / 0x40 % 0x40
    requires text[2] == 0x80 + p % 0x40 && bits == p / 0x4_0000
    ensures Continue(bits, text, 3) == Some(p)
  {
    var q := p / 0x1000;
    assert q / 0x40 == bits;
    assert bits * 0x40 + text[0] % 0x40 == q;
    Continue2(q, text[1..], p);
  }

  lemma PairUnits(high: uint16, low: uint16)
    requires IsHigh(high) && IsLow(low)
    ensures Units(PairPoint(high, low)) == [high, low]
  {
  }

  // ---- Round trips ----

  /** A unit stays what it is, unless it is a surrogate without its partner. */
  predicate Paired(units: seq<uint16>, i: nat)
    requires i < |units|
  {
    || (IsHigh(units[i]) && i + 1 < |units| && IsLow(units[i + 1]))
    || (IsLow(units[i]) && i > 0 && IsHigh(units[i - 1]))
  }

  function Repaired(units: seq<uint16>): (r: seq<uint16>)
    ensures |r| == |units|
  {
    seq(|units|, i requires 0 <= i < |units| =>
      if IsSurrogate(units[i]) && !Paired(units, i) then REPLACEMENT else units[i])
  }

  lemma RepairedFront(units: seq<uint16>)
    requires units != []
    ensures var s := FrontPoint(units);
            Repaired(units) == Repaired(units[..s.used]) + Repaired(units[s.used..])
  {
    var k := FrontPoint(units).used;
    forall i | 0 <= i < |units| - k ensures Repaired(units)[k + i] == Repaired(units[k..])[i] {
      assert units[k..][i] == units[k + i];
    }
  }

  /** Encoding and decoding repairs: every unpaired surrogate becomes U+FFFD and nothing else changes. */
  lemma {:induction false} RoundTripRepairs(units: seq<uint16>)
    ensures Decode(Encode(units)) == Repaired(units)
    decreases |units|
  {
    if units == [] {
    } else {
      var s := FrontPoint(units);
      var rest := Encode(units[s.used..]);
      RoundTripRepairs(units[s.used..]);
      PointSurvives(s.codePoint, rest, REPLACEMENT);
      RepairedFront(units);
      FrontRepaired(units);
    }
  }

  /** What the decoder makes of the front code point. */
  lemma FrontRepaired(units: seq<uint16>)
    requires units != []
    ensures var s := FrontPoint(units);
            Units(if IsSurrogate(s.codePoint) then REPLACEMENT else s.codePoint) == Repaired(units[..s.used])
  {
    if IsPair(units) {
      PairUnits(units[0], units[1]);
    }
  }

  predicate WellFormed(units: seq<uint16>) {
    forall i | 0 <= i < |units| :: IsSurrogate(units[i]) ==> Paired(units, i)
  }

  /** The round trip is the identity exactly on well-formed text. */
  lemma RoundTripIff(units: seq<uint16>)
    ensures Decode(Encode(units)) == units <==> WellFormed(units)
  {
    RoundTripRepairs(units);
    if Repaired(units) == units {
      forall i | 0 <= i < |units| ensures IsSurrogate(units[i]) ==> Paired(units, i) {
        assert Repaired(units)[i] == units[i];
      }
    }
  }

  lemma UnitsInFront(p: nat, rest: seq<uint16>)
    requires p <= 0x10_ffff && !IsSurrogate(p) && WellFormed(rest)
    ensures WellFormed(Units(p) + rest)
  {
    var all, k := Units(p) + rest, |Units(p)|;
    forall i | 0 <= i < |all| && IsSurrogate(all[i]) ensures Paired(all, i) {
      if i < k {
        assert p > 0xffff && IsHigh(all[0]) && IsLow(all[1]);
      } else {
        assert all[i] == rest[i - k] && Paired(rest, i - k);
        assert i > k ==> all[i - 1] == rest[i - k - 1];
        assert i + 1 < |all| ==> all[i + 1] == rest[i - k + 1];
      }
    }
  }

  /** Decoding any bytes at all gives well-formed text. */
  lemma {:induction false} DecodeIsWellFormed(text: seq<byte>)
    ensures WellFormed(Decode(text))
    decreases |text|
  {
    if text == [] {
    } else {
      var s := NextPoint(text);
      DecodeIsWellFormed(text[s.used..]);
      UnitsInFront(s.codePoint, Decode(text[s.used..]));
    }
  }

  /** So text once decoded survives every further trip. */
  lemma DecodedSurvives(text: seq<byte>)
    ensures Decode(Encode(Decode(text))) == Decode(text)
  {
    DecodeIsWellFormed(text);
    RoundTripIff(Decode(text));
  }

  /** The registry's pair loses nothing, lone surrogates included. */
  lemma {:induction false} RegistryRoundTrip(units: seq<uint16>)
    ensures DecodeRegistry(EncodeRegistry(units)) == units
    decreases |units|
  {
    if units == [] {
    } else {
      var s := FrontRegistryPoint(units);
      RegistryRoundTrip(units[s.used..]);
      PointSurvives(s.codePoint, EncodeRegistry(units[s.used..]), QUESTION);
      if IsPair(units) {
        PairUnits(units[0], units[1]);
        assert units == [units[0], units[1]] + units[2..];
      }
    }
  }

  // ---- What every front of a text decodes to ----

  predicate IsTail(text: seq<byte>, i: nat) { i < |text| && 0x80 <= text[i] <= 0xbf }

  function TailBits(text: seq<byte>, i: nat): (bits: nat)
    requires IsTail(text, i)
    ensures bits < 0x40
  {
    text[i] as int - 0x80
  }

  /**
   * The front of a text that has a shape of section 3 of RFC 3629: the value it
   * carries and its bytes.  Overlong forms, surrogates and values past 0x10ffff
   * have such a shape too.
   */
  function ShapedFront(text: seq<byte>): Option<Step>
    requires text != []
  {
    var first: int := text[0] as int;
    if first <= 0x7f then Some(Step(first, 1))
    else if 0xc0 <= first <= 0xdf && IsTail(text, 1) then Some(Step((first - 0xc0) * 0x40 + TailBits(text, 1), 2))
    else if 0xe0 <= first <= 0xef && IsTail(text, 1) && IsTail(text, 2) then
      Some(Step((first - 0xe0) * 0x1000 + TailBits(text, 1) * 0x40 + TailBits(text, 2), 3))
    else if 0xf0 <= first <= 0xf7 && IsTail(text, 1) && IsTail(text, 2) && IsTail(text, 3) then
      Some(Step((first - 0xf0) * 0x4_0000 + TailBits(text, 1) * 0x1000 + TailBits(text, 2) * 0x40 + TailBits(text, 3), 4))
    else None
  }

  /** Values that UTF-16 can carry, by section 2 of RFC 2781. */
  predicate IsScalar(v: nat) { v <= 0xd7ff || 0xe000 <= v <= 0x10_ffff }

  lemma ContinueStep(bits: nat, text: seq<byte>, extra: nat)
    requires 0 < extra <= 3
    ensures Continue(bits, text, extra) ==
            if IsTail(text, 0) then Continue(bits * 0x40 + TailBits(text, 0), text[1..], extra - 1) else None
  {
  }

  /** Folding the tails in one by one reads the shape. */
  lemma ContinueReads(bits: nat, text: seq<byte>, extra: nat)
    requires extra <= 3 && |text| > 0
    ensures Continue(bits, text[1..], extra) ==
            if extra == 0 then Some(bits)
            else if !IsTail(text, 1) then None
            else if extra == 1 then Some(bits * 0x40 + TailBits(text, 1))
            else if !IsTail(text, 2) then None
            else if extra == 2 then Some((bits * 0x40 + TailBits(text, 1)) * 0x40 + TailBits(text, 2))
            else if !IsTail(text, 3) then None
            else Some(((bits * 0x40 + TailBits(text, 1)) * 0x40 + TailBits(text, 2)) * 0x40 + TailBits(text, 3))
  {
    if extra > 0 {
      ContinueStep(bits, text[1..], extra);
      if IsTail(text, 1) {
        var c := bits * 0x40 + TailBits(text, 1);
        ContinueOn(c, text, extra);
      }
    }
  }

  lemma ContinueOn(c: nat, text: seq<byte>, extra: nat)
    requires 1 <= extra <= 3 && |text| > 1
    ensures Continue(c, text[1..][1..], extra - 1) ==
            if extra == 1 then Some(c)
            else if !IsTail(text, 2) then None
            else if extra == 2 then Some(c * 0x40 + TailBits(text, 2))
            else if !IsTail(text, 3) then None
            else Some((c * 0x40 + TailBits(text, 2)) * 0x40 + TailBits(text, 3))
  {
    var rest := text[1..][1..];
    if extra > 1 {
      ContinueStep(c, rest, extra - 1);
      if IsTail(text, 2) && extra > 2 {
        ContinueStep(c * 0x40 + TailBits(text, 2), rest[1..], 1);
      }
    }
  }

  lemma FrontIsShaped(text: seq<byte>, otherwise: uint16)
    requires text != []
    ensures var lead := LeadOf(text[0], otherwise); var r := Continue(lead.bits, text[1..], lead.extra);
            match ShapedFront(text)
            case Some(s) => s.used == 1 + lead.extra && r == Some(s.codePoint)
            case None => r.None? || (0x80 <= text[0] && lead.extra == 0 && r == Some(otherwise))
  {
    var lead := LeadOf(text[0], otherwise);
    ContinueReads(lead.bits, text, lead.extra);
  }

  /** One unit for a value up to 0xffff, a pair for one above, by section 2 of RFC 2781. */
  predicate Stand(units: seq<uint16>, v: nat) {
    if v <= 0xffff then units == [v]
    else
      && |units| == 2 && 0xd800 <= units[0] <= 0xdbff && 0xdc00 <= units[1] <= 0xdfff
      && v == 0x1_0000 + (units[0] as int - 0xd800) * 0x400 + (units[1] as int - 0xdc00)
  }

  lemma UnitsStand(v: nat)
    requires v <= 0x10_ffff
    ensures Stand(Units(v), v)
  {
  }

  /** The value a shaped front is decoded to: U+FFFD when UTF-16 cannot carry its own, or when there is no shape. */
  lemma NextPointIs(text: seq<byte>)
    requires text != []
    ensures NextPoint(text) == match ShapedFront(text)
                               case Some(s) => Step(if IsScalar(s.codePoint) then s.codePoint else 0xfffd, s.used)
                               case None => Step(0xfffd, 1)
  {
    FrontIsShaped(text, REPLACEMENT);
  }

  /**
   * A shaped front becomes the one or two units of its value, or U+FFFD when UTF-16
   * cannot carry it; any other front costs one byte and becomes U+FFFD, and the
   * bytes after it are read afresh.
   */
  lemma FrontDecodes(text: seq<byte>) returns (units: seq<uint16>, used: nat)
    requires text != []
    ensures 1 <= used <= |text| && Decode(text) == units + Decode(text[used..])
    ensures match ShapedFront(text)
            case Some(s) => used == s.used && Stand(units, if IsScalar(s.codePoint) then s.codePoint else 0xfffd)
            case None => used == 1 && units == [0xfffd]
  {
    NextPointIs(text);
    var s := NextPoint(text);
    UnitsStand(s.codePoint);
    units, used := Units(s.codePoint), s.used;
  }

  /** How many bytes a byte that begins a longer shape asks for after it. */
  function Asked(first: byte): nat {
    if 0xc0 <= first <= 0xdf then 1 else if 0xe0 <= first <= 0xef then 2 else if 0xf0 <= first <= 0xf7 then 3 else 0
  }

  /** How many tails of the `n` asked for follow byte `from` - 1. */
  function TailsFrom(text: seq<byte>, from: nat, n: nat): nat
    decreases n
  {
    if n == 0 || !IsTail(text, from) then 0 else 1 + TailsFrom(text, from + 1, n - 1)
  }

  lemma {:induction false} GoodAreTails(text: seq<byte>, from: nat, n: nat)
    requires from <= |text|
    ensures GoodBytes(text[from..], n) == TailsFrom(text, from, n)
    decreases n
  {
    if n == 0 || !IsTail(text, from) {
    } else {
      assert text[from..][1..] == text[from + 1..];
      GoodAreTails(text, from + 1, n - 1);
    }
  }

  lemma NextRegistryPointIs(text: seq<byte>)
    requires text != []
    ensures NextRegistryPoint(text) ==
            match ShapedFront(text)
            case Some(s) => s
            case None => Step(0x3f, if |text| <= Asked(text[0]) then 1 else 1 + TailsFrom(text, 1, Asked(text[0])))
  {
    FrontIsShaped(text, QUESTION);
    LeadAsks(text[0], QUESTION);
    if ShapedFront(text).None? {
      GoodAreTails(text, 1, Asked(text[0]));
    }
  }

  lemma LeadAsks(first: byte, otherwise: uint16)
    ensures LeadOf(first, otherwise).extra == Asked(first)
    ensures LeadOf(first, otherwise).extra == 0 && 0x80 <= first ==> LeadOf(first, otherwise).bits == otherwise
  {
  }

  /**
   * The registry's decoder carries every value it reads, surrogates included; a
   * front it cannot read becomes a question mark, which costs one byte when the text
   * is too short for it, and otherwise takes the tails behind it along.
   */
  lemma FrontDecodesInRegistry(text: seq<byte>) returns (units: seq<uint16>, used: nat)
    requires text != []
    ensures 1 <= used <= |text| && DecodeRegistry(text) == units + DecodeRegistry(text[used..])
    ensures match ShapedFront(text)
            case Some(s) => used == s.used && (s.codePoint <= 0x10_ffff ==> Stand(units, s.codePoint))
            case None =>
              && units == [0x3f]
              && used == if |text| <= Asked(text[0]) then 1 else 1 + TailsFrom(text, 1, Asked(text[0]))
  {
    NextRegistryPointIs(text);
    var s := NextRegistryPoint(text);
    if s.codePoint <= 0x10_ffff {
      UnitsStand(s.codePoint);
    }
    units, used := Units(s.codePoint), s.used;
  }

  // ---- What every front of a sequence of units encodes to ----

  /** A pair becomes one code point, an unpaired surrogate U+FFFD; only a high one at the very end is kept as it is. */
  lemma FrontEncodes(units: seq<uint16>)
    requires units != []
    ensures IsPair(units) ==>
              Encode(units) == AppendUtf8(0x1_0000 + (units[0] as int - 0xd800) * 0x400 + (units[1] as int - 0xdc00)) + Encode(units[2..])
    ensures !IsPair(units) ==>
              var kept := !IsSurrogate(units[0]) || (IsHigh(units[0]) && |units| == 1);
              Encode(units) == AppendUtf8(if kept then units[0] else 0xfffd) + Encode(units[1..])
  {
    if IsPair(units) {
      assert FrontPoint(units) == Step(PairPoint(units[0], units[1]), 2);
    } else {
      assert FrontPoint(units).used == 1;
    }
  }

  /** The bytes of a code point are the shortest shape that carries it. */
  lemma AppendedIsShaped(p: nat)
    requires p <= 0x10_ffff
    ensures var bytes := AppendUtf8(p);
            && ShapedFront(bytes) == Some(Step(p, |bytes|))
            && |bytes| == if p < 0x80 then 1 else if p < 0x800 then 2 else if p < 0x1_0000 then 3 else 4
  {
    PointSurvives(p, [], REPLACEMENT);
    assert AppendUtf8(p) + [] == AppendUtf8(p);
    FrontIsShaped(AppendUtf8(p), REPLACEMENT);
  }
}

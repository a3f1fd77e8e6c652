/** Registry values: from raw bytes to the stored JSON and back. */
module Registry {
  import opened Basics
  import opened Utf

  // The kinds of JSON the two directions tell apart; strings are UTF-8 bytes.
  datatype Json = Str(text: seq<byte>) | Unsigned(n: nat) | Arr(items: seq<Json>) | Other

  datatype TypeField = Named(name: string) | Numbered(id: nat) | Untyped

  datatype Value = Value(typ: TypeField, data: Option<Json>)

  const NUL: seq<byte> := [0, 0]

  // ---- Type names ----

  function Decimal(n: nat): string {
    if n < 10 then ["0123456789"[n]] else Decimal(n / 10) + ["0123456789"[n % 10]]
  }

  function TypeName(t: uint32): string {
    match t
    case 0 => "REG_NONE"
    case 1 => "REG_SZ"
    case 2 => "REG_EXPAND_SZ"
    case 3 => "REG_BINARY"
    case 4 => "REG_DWORD"
    case 7 => "REG_MULTI_SZ"
    case _ => "REG_" + Decimal(t)
  }

  function LowerChar(c: char): char {
    if 'A' <= c <= 'Z' then (c as int + 32) as char else c
  }

  function LowerAscii(s: string): (r: string)
    ensures |r| == |s| && forall i | 0 <= i < |s| :: r[i] == LowerChar(s[i])
  {
    seq(|s|, i requires 0 <= i < |s| => LowerChar(s[i]))
  }

  predicate IsDigit(c: char) { '0' <= c <= '9' }

  function DigitsValue(s: string, acc: nat): nat {
    if s == [] || !IsDigit(s[0]) then acc else DigitsValue(s[1..], acc * 10 + (s[0] as int - '0' as int))
  }

  /** Decimal digits as C's strtoul reads them, after blanks and a sign; too many saturate. */
  function Strtoul(s: string): uint32 {
    if s != [] && (s[0] == ' ' || '\t' <= s[0] <= '\r') then Strtoul(s[1..])
    else if s != [] && s[0] == '-' then
      var v := DigitsValue(s[1..], 0);
      if v > 0xffff_ffff then 0xffff_ffff else (0x1_0000_0000 - v) % 0x1_0000_0000
    else Min(DigitsValue(if s != [] && s[0] == '+' then s[1..] else s, 0), 0xffff_ffff)
  }

  function TypeId(f: TypeField): uint32 {
    match f
    case Numbered(id) => id % 0x1_0000_0000
    case Untyped => 0
    case Named(name) =>
      var s := LowerAscii(name);
      if s == "reg_none" then 0
      else if s == "reg_sz" then 1
      else if s == "reg_expand_sz" then 2
      else if s == "reg_binary" then 3
      else if s == "reg_dword" then 4
      else if s == "reg_multi_sz" then 7
      else if "reg_" <= s then Strtoul(s[4..])
      else 0
  }

  // ---- Units and bytes ----

  /** The 16-bit units of the bytes; an odd last byte is not read. */
  function Words(bytes: seq<byte>): seq<uint16> {
    if |bytes| < 2 then []
    else
      var low: nat, high: nat := bytes[0], bytes[1];
      [low + 256 * high] + Words(bytes[2..])
  }

  function Le(units: seq<uint16>): (bytes: seq<byte>)
    ensures |bytes| == 2 * |units|
  {
    if units == [] then [] else [units[0] % 256, units[0] / 256] + Le(units[1..])
  }

  function UntilNul(units: seq<uint16>): seq<uint16> {
    if units == [] || units[0] == 0 then [] else [units[0]] + UntilNul(units[1..])
  }

  /** The strings up to the first empty one; `current` is the one being read. */
  function Strings(units: seq<uint16>, current: seq<uint16>): seq<seq<uint16>>
    decreases |units|
  {
    if units == [] then (if current == [] then [] else [current])
    else if units[0] != 0 then Strings(units[1..], current + [units[0]])
    else if current == [] then []
    else [current] + Strings(units[1..], [])
  }

  function Texts(strings: seq<seq<uint16>>): seq<Json> {
    if strings == [] then [] else [Str(EncodeRegistry(strings[0]))] + Texts(strings[1..])
  }

  function Numbers(bytes: seq<byte>): seq<Json> {
    if bytes == [] then [] else [Unsigned(bytes[0])] + Numbers(bytes[1..])
  }

  function DwordOf(bytes: seq<byte>): nat
    requires |bytes| >= 4
  {
    var b0: nat, b1: nat, b2: nat, b3: nat := bytes[0], bytes[1], bytes[2], bytes[3];
    b0 + 0x100 * b1 + 0x1_0000 * b2 + 0x100_0000 * b3
  }

  function DwordBytes(n: nat): seq<byte> {
    [n % 256, n / 0x100 % 256, n / 0x1_0000 % 256, n / 0x100_0000 % 256]
  }

  // ---- The two directions ----

  /** `bytes` is None for a null data pointer. */
  function JsonFromBytes(t: uint32, bytes: Option<seq<byte>>): Value {
    var raw := if bytes.Some? then bytes.value else [];
    Value(Named(TypeName(t)), Some(
      if t == 1 || t == 2 then Str(EncodeRegistry(UntilNul(Words(raw))))
      else if t == 7 then Arr(Texts(Strings(Words(raw), [])))
      else if t == 4 && |raw| >= 4 then Unsigned(DwordOf(raw))
      else Arr(Numbers(raw))))
  }

  function TextOf(data: Option<Json>): seq<byte> {
    if data.Some? && data.value.Str? then data.value.text else []
  }

  function WideText(text: seq<byte>): seq<byte> { Le(DecodeRegistry(text)) + NUL }

  /** Items that are not strings are skipped. */
  function ItemsBytes(items: seq<Json>): seq<byte> {
    if items == [] then []
    else (if items[0].Str? then WideText(items[0].text) else []) + ItemsBytes(items[1..])
  }

  /** Items that are not numbers have no byte: the conversion throws. */
  function NumbersBytes(items: seq<Json>): Option<seq<byte>> {
    if items == [] then Some([])
    else
      var rest := NumbersBytes(items[1..]);
      if !items[0].Unsigned? || rest.None? then None else Some([items[0].n % 256] + rest.value)
  }

  function ValueBytes(v: Value): Option<seq<byte>> {
    var t := TypeId(v.typ);
    if t == 1 || t == 2 then Some(WideText(TextOf(v.data)))
    else if t == 7 then
      Some((if v.data.Some? && v.data.value.Arr? then ItemsBytes(v.data.value.items) else WideText(TextOf(v.data))) + NUL)
    else if t == 4 then
      Some(DwordBytes(if v.data.Some? && v.data.value.Unsigned? then v.data.value.n % 0x1_0000_0000 else 0))
    else if v.data.Some? && v.data.value.Arr? then NumbersBytes(v.data.value.items)
    else Some(TextOf(v.data))
  }

  // ---- The methods ----

  method ReadUnits(bytes: seq<byte>) returns (units: seq<uint16>)
    ensures units == UntilNul(Words(bytes))
  {
    units := [];
    var chars := |bytes| / 2;
    var i := 0;
    assert bytes[0..] == bytes;
    while i < chars
      invariant i <= chars && units + UntilNul(Words(bytes[2 * i..])) == UntilNul(Words(bytes))
    {
      var ch := WordAt(bytes, i);
      if ch == 0 {
        return;
      }
      Regroup(units, [ch], UntilNul(Words(bytes[2 * (i + 1)..])), UntilNul(Words(bytes)));
      units := units + [ch];
      i := i + 1;
    }
  }

  function WordAt(bytes: seq<byte>, i: nat): uint16
    requires 2 * i + 2 <= |bytes|
  {
    var low: nat, high: nat := bytes[2 * i], bytes[2 * i + 1];
    low + 256 * high
  }

  method ReadStrings(bytes: seq<byte>) returns (strings: seq<seq<uint16>>)
    ensures strings == Strings(Words(bytes), [])
  {
    strings := [];
    var current: seq<uint16> := [];
    var chars := |bytes| / 2;
    var i := 0;
    ghost var whole := Strings(Words(bytes), []);
    assert bytes[0..] == bytes;
    while i < chars
      invariant i <= chars && strings + Strings(Words(bytes[2 * i..]), current) == whole
    {
      var ch := WordAt(bytes, i);
      if ch == 0 {
        if current == [] {
          return;
        }
        Regroup(strings, [current], Strings(Words(bytes[2 * (i + 1)..]), []), whole);
        strings := strings + [current];
        current := [];
      } else {
        current := current + [ch];
      }
      i := i + 1;
    }
    if current != [] {
      strings := strings + [current];
    }
  }

  method RegistryJsonFromBytes(t: uint32, bytes: Option<seq<byte>>) returns (value: Value)
    ensures value == JsonFromBytes(t, bytes)
  {
    var raw := if bytes.Some? then bytes.value else [];
    if t == 1 || t == 2 {
      var units := ReadUnits(raw);
      var text := RegistryUtf16ToUtf8(units);
      return Value(Named(TypeName(t)), Some(Str(text)));
    } else if t == 7 {
      var strings := ReadStrings(raw);
      var texts := EncodeAll(strings);
      return Value(Named(TypeName(t)), Some(Arr(texts)));
    } else if t == 4 && |raw| >= 4 {
      return Value(Named(TypeName(t)), Some(Unsigned(DwordOf(raw))));
    }
    return Value(Named(TypeName(t)), Some(Arr(Numbers(raw))));
  }

  method EncodeAll(strings: seq<seq<uint16>>) returns (texts: seq<Json>)
    ensures texts == Texts(strings)
  {
    texts := [];
    var i := 0;
    assert strings[0..] == strings;
    while i < |strings|
      invariant i <= |strings| && texts + Texts(strings[i..]) == Texts(strings)
    {
      assert strings[i..][1..] == strings[i + 1..];
      var text := RegistryUtf16ToUtf8(strings[i]);
      Regroup(texts, [Str(text)], Texts(strings[i + 1..]), Texts(strings));
      texts := texts + [Str(text)];
      i := i + 1;
    }
  }

  method AppendUtf16Le(bytes: seq<byte>, text: seq<byte>) returns (out: seq<byte>)
    ensures out == bytes + Le(DecodeRegistry(text))
  {
    var wide := RegistryUtf8ToUtf16(text);
    out := bytes;
    var i := 0;
    assert wide[0..] == wide;
    while i < |wide|
      invariant i <= |wide| && out + Le(wide[i..]) == bytes + Le(wide)
    {
      assert wide[i..][1..] == wide[i + 1..];
      var unit := [wide[i] % 256, wide[i] / 256];
      Regroup(out, unit, Le(wide[i + 1..]), bytes + Le(wide));
      out := out + unit;
      i := i + 1;
    }
  }

  method RegistryValueBytes(v: Value) returns (bytes: Option<seq<byte>>)
    ensures bytes == ValueBytes(v)
  {
    var t := TypeId(v.typ);
    if t == 1 || t == 2 {
      var wide := AppendWideText([], TextOf(v.data));
      assert wide == WideText(TextOf(v.data));
      return Some(wide);
    } else if t == 7 {
      if v.data.Some? && v.data.value.Arr? {
        var all := AppendItems(v.data.value.items);
        return Some(all + NUL);
      }
      var wide := AppendWideText([], TextOf(v.data));
      assert wide == WideText(TextOf(v.data));
      return Some(wide + NUL);
    } else if t == 4 {
      var dword := if v.data.Some? && v.data.value.Unsigned? then v.data.value.n % 0x1_0000_0000 else 0;
      return Some(DwordBytes(dword));
    } else if v.data.Some? && v.data.value.Arr? {
      return NumbersBytes(v.data.value.items);
    }
    return Some(TextOf(v.data));
  }

  method AppendItems(items: seq<Json>) returns (bytes: seq<byte>)
    ensures bytes == ItemsBytes(items)
  {
    bytes := [];
    var i := 0;
    assert items[0..] == items;
    while i < |items|
      invariant i <= |items| && bytes + ItemsBytes(items[i..]) == ItemsBytes(items)
    {
      assert items[i..][1..] == items[i + 1..];
      if items[i].Str? {
        Regroup(bytes, WideText(items[i].text), ItemsBytes(items[i + 1..]), ItemsBytes(items));
        bytes := AppendWideText(bytes, items[i].text);
      } else {
        Regroup(bytes, [], ItemsBytes(items[i + 1..]), ItemsBytes(items));
        assert bytes + [] == bytes;
      }
      i := i + 1;
    }
    assert items[i..] == [];
  }

  method AppendWideText(bytes: seq<byte>, text: seq<byte>) returns (out: seq<byte>)
    ensures out == bytes + WideText(text)
  {
    out := AppendUtf16Le(bytes, text);
    out := out + NUL;
  }

  // ---- Type names parse back ----

  lemma {:induction false} DigitsAppend(s: string, c: char, acc: nat)
    requires IsDigit(c) && forall i | 0 <= i < |s| :: IsDigit(s[i])
    ensures DigitsValue(s + [c], acc) == DigitsValue(s, acc) * 10 + (c as int - '0' as int)
  {
    if s == [] {
    } else {
      assert (s + [c])[1..] == s[1..] + [c];
      DigitsAppend(s[1..], c, acc * 10 + (s[0] as int - '0' as int));
    }
  }

  lemma {:induction false} DecimalParses(n: nat)
    ensures |Decimal(n)| > 0 && (forall i | 0 <= i < |Decimal(n)| :: IsDigit(Decimal(n)[i]))
    ensures DigitsValue(Decimal(n), 0) == n
  {
    if n >= 10 {
      DecimalParses(n / 10);
      DigitsAppend(Decimal(n / 10), "0123456789"[n % 10], 0);
    }
  }

  /** Every type is recovered from its name. */
  lemma TypeNameParses(t: uint32)
    ensures TypeId(Named(TypeName(t))) == t
  {
    if 5 <= t && t != 7 {
      NumberedNameParses(t);
    }
  }

  lemma NumberedIs(name: string, digits: string)
    requires LowerAscii(name) == "reg_" + digits && digits != "" && IsDigit(digits[0])
    ensures TypeId(Named(name)) == Strtoul(digits)
  {
    var s := LowerAscii(name);
    assert s[4] == digits[0] && s[4..] == digits;
  }

  lemma LowerDigits(digits: string)
    requires forall i | 0 <= i < |digits| :: IsDigit(digits[i])
    ensures LowerAscii(digits) == digits
  {
  }

  lemma LowerNumbered(digits: string)
    requires forall i | 0 <= i < |digits| :: IsDigit(digits[i])
    ensures LowerAscii("REG_" + digits) == "reg_" + digits
  {
    LowerDigits(digits);
  }

  lemma NumberedNameParses(t: uint32)
    ensures TypeId(Named("REG_" + Decimal(t))) == t
  {
    DecimalParses(t);
    LowerNumbered(Decimal(t));
    NumberedIs("REG_" + Decimal(t), Decimal(t));
  }

  // ---- Bytes and units ----

  lemma {:induction false} WordsOfLe(units: seq<uint16>)
    ensures Words(Le(units)) == units
  {
    if units == [] {
    } else {
      WordsOfLe(units[1..]);
      assert Le(units)[2..] == Le(units[1..]);
    }
  }

  lemma {:induction false} LeConcat(a: seq<uint16>, b: seq<uint16>)
    ensures Le(a + b) == Le(a) + Le(b)
  {
    if a == [] {
      assert a + b == b;
    } else {
      LeConcat(a[1..], b);
      assert (a + b)[1..] == a[1..] + b;
      Regroup([a[0] % 256, a[0] / 256], Le(a[1..]), Le(b), Le(a + b));
    }
  }

  lemma LeNul()
    ensures Le([0]) == NUL
  {
    assert Le([]) == [];
  }

  // ---- Strings ----

  predicate NulFree(units: seq<uint16>) {
    forall i | 0 <= i < |units| :: units[i] != 0
  }

  lemma {:induction false} UntilNulTakes(s: seq<uint16>, rest: seq<uint16>)
    requires NulFree(s)
    ensures UntilNul(s + [0] + rest) == s
  {
    if s == [] {
      assert s + [0] + rest == [0] + rest;
    } else {
      UntilNulTakes(s[1..], rest);
      assert (s + [0] + rest)[1..] == s[1..] + [0] + rest;
    }
  }

  lemma {:induction false} UntilNulFree(units: seq<uint16>)
    ensures NulFree(UntilNul(units))
  {
    if units != [] && units[0] != 0 {
      UntilNulFree(units[1..]);
    }
  }

  /** A string and its terminator, and nothing behind them. */
  ghost predicate IsWideString(bytes: seq<byte>) {
    exists s: seq<uint16> :: NulFree(s) && bytes == Le(s + [0])
  }

  lemma WideStringIff(bytes: seq<byte>)
    ensures Le(UntilNul(Words(bytes)) + [0]) == bytes <==> IsWideString(bytes)
  {
    var s := UntilNul(Words(bytes));
    UntilNulFree(Words(bytes));
    if r: seq<uint16> :| NulFree(r) && bytes == Le(r + [0]) {
      WordsOfLe(r + [0]);
      UntilNulTakes(r, []);
      assert r + [0] + [] == r + [0];
    }
  }

  // ---- Lists of strings ----

  function Joined(strings: seq<seq<uint16>>): seq<uint16> {
    if strings == [] then [0] else strings[0] + [0] + Joined(strings[1..])
  }

  predicate Proper(strings: seq<seq<uint16>>) {
    forall i | 0 <= i < |strings| :: strings[i] != [] && NulFree(strings[i])
  }

  lemma {:induction false} StringsProper(units: seq<uint16>, current: seq<uint16>)
    requires NulFree(current)
    ensures Proper(Strings(units, current))
    decreases |units|
  {
    if units == [] {
    } else {
      if units[0] != 0 {
        StringsProper(units[1..], current + [units[0]]);
      } else if current != [] {
        StringsProper(units[1..], []);
      }
    }
  }

  lemma {:induction false} StringsTake(s: seq<uint16>, rest: seq<uint16>, current: seq<uint16>)
    requires NulFree(s) && current + s != []
    ensures Strings(s + [0] + rest, current) == [current + s] + Strings(rest, [])
    decreases |s|
  {
    if s == [] {
      assert s + [0] + rest == [0] + rest && current + s == current;
      assert ([0] + rest)[1..] == rest;
    } else {
      StringsTake(s[1..], rest, current + [s[0]]);
      assert (s + [0] + rest)[1..] == s[1..] + [0] + rest;
      assert current + [s[0]] + s[1..] == current + s;
    }
  }

  lemma {:induction false} StringsOfJoined(strings: seq<seq<uint16>>)
    requires Proper(strings)
    ensures Strings(Joined(strings), []) == strings
  {
    if strings == [] {
    } else {
      StringsOfJoined(strings[1..]);
      StringsTake(strings[0], Joined(strings[1..]), []);
      assert [] + strings[0] == strings[0];
      assert strings == [strings[0]] + strings[1..];
    }
  }

  /** Non-empty strings with their terminators, and one final NUL. */
  ghost predicate IsMultiString(bytes: seq<byte>) {
    exists strings :: Proper(strings) && bytes == Le(Joined(strings))
  }

  lemma MultiStringIff(bytes: seq<byte>)
    ensures Le(Joined(Strings(Words(bytes), []))) == bytes <==> IsMultiString(bytes)
  {
    StringsProper(Words(bytes), []);
    if strings :| Proper(strings) && bytes == Le(Joined(strings)) {
      WordsOfLe(Joined(strings));
      StringsOfJoined(strings);
    }
  }

  // ---- The round trip ----

  lemma WideTextIs(s: seq<uint16>)
    ensures WideText(EncodeRegistry(s)) == Le(s + [0])
  {
    RegistryRoundTrip(s);
    LeConcat(s, [0]);
    LeNul();
  }

  lemma {:induction false} ItemsBytesAre(strings: seq<seq<uint16>>)
    ensures ItemsBytes(Texts(strings)) + NUL == Le(Joined(strings))
  {
    if strings == [] {
      LeNul();
      assert [] + NUL == NUL;
    } else {
      ItemsBytesAre(strings[1..]);
      WideTextIs(strings[0]);
      LeConcat(strings[0] + [0], Joined(strings[1..]));
      assert Texts(strings)[1..] == Texts(strings[1..]);
      assert WideText(EncodeRegistry(strings[0])) + ItemsBytes(Texts(strings[1..])) + NUL
          == WideText(EncodeRegistry(strings[0])) + (ItemsBytes(Texts(strings[1..])) + NUL);
    }
  }

  lemma {:induction false} NumbersBytesAre(bytes: seq<byte>)
    ensures NumbersBytes(Numbers(bytes)) == Some(bytes)
  {
    if bytes == [] {
    } else {
      NumbersBytesAre(bytes[1..]);
      assert Numbers(bytes)[1..] == Numbers(bytes[1..]);
      assert bytes == [bytes[0]] + bytes[1..];
    }
  }

  lemma DwordRoundTrip(bytes: seq<byte>)
    requires |bytes| >= 4
    ensures DwordOf(bytes) < 0x1_0000_0000 && DwordBytes(DwordOf(bytes)) == bytes[..4]
  {
    var n := DwordOf(bytes);
    var b0: nat, b1: nat, b2: nat, b3: nat := bytes[0], bytes[1], bytes[2], bytes[3];
    assert n / 0x100 == b1 + 0x100 * b2 + 0x1_0000 * b3;
    assert n / 0x1_0000 == b2 + 0x100 * b3;
    assert n / 0x100_0000 == b3;
  }

  /** The data a type can carry without loss. */
  ghost predicate Faithful(t: uint32, bytes: seq<byte>) {
    if t == 1 || t == 2 then IsWideString(bytes)
    else if t == 7 then IsMultiString(bytes)
    else if t == 4 then |bytes| == 4
    else true
  }

  /** For every type and all data: the stored value gives back the bytes exactly when they have the type's own shape. */
  lemma RegistryRoundTripIff(t: uint32, bytes: seq<byte>)
    ensures ValueBytes(JsonFromBytes(t, Some(bytes))) == Some(bytes) <==> Faithful(t, bytes)
  {
    TypeNameParses(t);
    if t == 1 || t == 2 {
      WideTextIs(UntilNul(Words(bytes)));
      WideStringIff(bytes);
    } else if t == 7 {
      ItemsBytesAre(Strings(Words(bytes), []));
      MultiStringIff(bytes);
    } else if t == 4 {
      DwordTrip(bytes);
    } else {
      NumbersBytesAre(bytes);
    }
  }

  lemma DwordTrip(bytes: seq<byte>)
    ensures ValueBytes(JsonFromBytes(4, Some(bytes))) == Some(bytes) <==> |bytes| == 4
  {
    TypeNameParses(4);
    FourBytes(JsonFromBytes(4, Some(bytes)));
    if |bytes| == 4 {
      DwordValue(bytes);
    }
  }

  lemma DwordValue(bytes: seq<byte>)
    requires |bytes| == 4
    ensures ValueBytes(JsonFromBytes(4, Some(bytes))) == Some(bytes)
  {
    TypeNameParses(4);
    DwordRoundTrip(bytes);
    var n := DwordOf(bytes);
    assert bytes[..4] == bytes && n % 0x1_0000_0000 == n;
    var v := JsonFromBytes(4, Some(bytes));
    assert v.data == Some(Unsigned(n)) && TypeId(v.typ) == 4;
  }

  lemma FourBytes(v: Value)
    requires TypeId(v.typ) == 4
    ensures ValueBytes(v).Some? && |ValueBytes(v).value| == 4
  {
  }

  /** Whatever was written, reading the value back and writing it again changes nothing more. */
  lemma SecondTripIsFaithful(t: uint32, bytes: seq<byte>)
    ensures var once := ValueBytes(JsonFromBytes(t, Some(bytes))); once.Some? && Faithful(t, once.value)
  {
    TypeNameParses(t);
    if t == 1 || t == 2 {
      WideTextIs(UntilNul(Words(bytes)));
      UntilNulFree(Words(bytes));
    } else if t == 7 {
      ItemsBytesAre(Strings(Words(bytes), []));
      StringsProper(Words(bytes), []);
    } else if t != 4 {
      NumbersBytesAre(bytes);
    }
  }

  // ---- What is stored ----

  /** The bytes are these units, each low byte first. */
  predicate AreUnits(bytes: seq<byte>, units: seq<uint16>) {
    if units == [] then bytes == []
    else |bytes| >= 2 && bytes[0] as int + 256 * bytes[1] as int == units[0] && AreUnits(bytes[2..], units[1..])
  }

  lemma {:induction false} WordsOfUnits(bytes: seq<byte>, rest: seq<byte>, units: seq<uint16>)
    requires AreUnits(bytes, units)
    ensures Words(bytes + rest) == units + Words(rest)
    decreases |units|
  {
    if units == [] {
      assert bytes + rest == rest;
    } else {
      WordsOfUnits(bytes[2..], rest, units[1..]);
      assert bytes + rest == [bytes[0], bytes[1]] + (bytes[2..] + rest);
      WordInFront(bytes[0], bytes[1], bytes[2..] + rest);
      Regroup([units[0]], units[1..], Words(rest), [units[0]] + (units[1..] + Words(rest)));
      assert [units[0]] + units[1..] == units;
    }
  }

  lemma WordInFront(low: byte, high: byte, rest: seq<byte>)
    ensures Words([low, high] + rest) == [low as int + 256 * high as int] + Words(rest)
  {
    assert ([low, high] + rest)[2..] == rest;
  }

  lemma {:induction false} FreeUntilNul(units: seq<uint16>, rest: seq<uint16>)
    requires 0 !in units && (rest == [] || rest[0] == 0)
    ensures UntilNul(units + rest) == units
  {
    if units == [] {
      assert units + rest == rest;
    } else {
      assert (units + rest)[1..] == units[1..] + rest;
      FreeUntilNul(units[1..], rest);
    }
  }

  /** A string is stored as the text of its units up to the first NUL, whatever comes after. */
  lemma StringIsStored(t: uint32, units: seq<uint16>, bytes: seq<byte>, rest: seq<byte>)
    requires (t == 1 || t == 2) && 0 !in units && AreUnits(bytes, units)
    requires |rest| < 2 || (rest[0] == 0 && rest[1] == 0)
    ensures JsonFromBytes(t, Some(bytes + rest)).data == Some(Str(EncodeRegistry(units)))
  {
    WordsOfUnits(bytes, rest, units);
    FreeUntilNul(units, Words(rest));
  }

  /** A number is stored as what its first four bytes say, lowest first; fewer are stored as bytes. */
  lemma NumberIsStored(bytes: seq<byte>)
    ensures |bytes| >= 4 ==>
              JsonFromBytes(4, Some(bytes)).data ==
              Some(Unsigned(bytes[0] as int + 0x100 * bytes[1] as int + 0x1_0000 * bytes[2] as int + 0x100_0000 * bytes[3] as int))
    ensures |bytes| < 4 ==> JsonFromBytes(4, Some(bytes)).data == Some(Arr(Numbers(bytes)))
  {
  }
}

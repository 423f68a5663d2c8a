/**
 * The opaque keyset cursor of src/modules/messaging/cursor.ts: base64url (section 5 of RFC 4648,
 * unpadded) of the bytes of `<timestamp>|<uuid>`. Text is its UTF-8 bytes; whether a timestamp can
 * be parsed as a date is a parameter.
 */
module Cursor {
  import opened Common

  type Byte = x: int | 0 <= x < 256

  type Digit = x: int | 0 <= x < 64

  type Text = seq<Byte>

  const BAR: Byte := 124

  // ---------------------------------------------------------------------------------------------
  // base64url

  function DigitChar(d: Digit): char {
    if d < 26 then (d + 65) as char
    else if d < 52 then (d + 71) as char
    else if d < 62 then (d - 4) as char
    else if d == 62 then '-' else '_'
  }

  /** Both alphabets are read; any other character is skipped. */
  function CharDigit(c: char): Option<Digit> {
    if 'A' <= c <= 'Z' then Some(c as int - 65)
    else if 'a' <= c <= 'z' then Some(c as int - 71)
    else if '0' <= c <= '9' then Some(c as int + 4)
    else if c == '-' || c == '+' then Some(62)
    else if c == '_' || c == '/' then Some(63)
    else None
  }

  // Three bytes are four digits: 6, 2 + 4, 4 + 2 and 6 bits.

  function First(b0: Byte): Digit { b0 / 4 }

  function Second(b0: Byte, b1: Byte): Digit { b0 % 4 * 16 + b1 / 16 }

  function Third(b1: Byte, b2: Byte): Digit { b1 % 16 * 4 + b2 / 64 }

  function Fourth(b2: Byte): Digit { b2 % 64 }

  function ToDigits(bytes: Text): seq<Digit> {
    if |bytes| == 0 then []
    else if |bytes| == 1 then [First(bytes[0]), Second(bytes[0], 0)]
    else if |bytes| == 2 then [First(bytes[0]), Second(bytes[0], bytes[1]), Third(bytes[1], 0)]
    else
      [First(bytes[0]), Second(bytes[0], bytes[1]), Third(bytes[1], bytes[2]), Fourth(bytes[2])]
      + ToDigits(bytes[3..])
  }

  function High(d0: Digit, d1: Digit): Byte { d0 * 4 + d1 / 16 }

  function Middle(d1: Digit, d2: Digit): Byte { d1 % 16 * 16 + d2 / 4 }

  function Low(d2: Digit, d3: Digit): Byte { d2 % 4 * 64 + d3 }

  /** A lone trailing digit carries no whole byte and is dropped. */
  function FromDigits(digits: seq<Digit>): Text {
    if |digits| < 2 then []
    else if |digits| == 2 then [High(digits[0], digits[1])]
    else if |digits| == 3 then [High(digits[0], digits[1]), Middle(digits[1], digits[2])]
    else
      [High(digits[0], digits[1]), Middle(digits[1], digits[2]), Low(digits[2], digits[3])]
      + FromDigits(digits[4..])
  }

  function Spell(digits: seq<Digit>): string {
    if digits == [] then "" else [DigitChar(digits[0])] + Spell(digits[1..])
  }

  function Read(raw: string): seq<Digit> {
    if raw == "" then []
    else
      var d := CharDigit(raw[0]);
      (if d.Some? then [d.value] else []) + Read(raw[1..])
  }

  // ---------------------------------------------------------------------------------------------
  // The cursor

  datatype Position = Position(timestamp: Text, id: Text)

  predicate HexDigit(b: Byte) {
    48 <= b <= 57 || 97 <= b <= 102 || 65 <= b <= 70
  }

  /** 8-4-4-4-12 hexadecimal digits of either case. */
  predicate IsUuid(id: Text) {
    |id| == 36 && forall i | 0 <= i < 36 :: if i in {8, 13, 18, 23} then id[i] == 45 else HexDigit(id[i])
  }

  function LastBar(text: Text): int {
    if text == [] then -1
    else if text[|text| - 1] == BAR then |text| - 1
    else LastBar(text[..|text| - 1])
  }

  function EncodeCursor(timestamp: Text, id: Text): string {
    Spell(ToDigits(timestamp + [BAR] + id))
  }

  function DecodeCursor(raw: string, parses: Text -> bool): Result<Position> {
    var decoded := FromDigits(Read(raw));
    var separator := LastBar(decoded);
    LastBarFinds(decoded);
    if separator == -1 then Err(Validation)
    else
      var timestamp, id := decoded[..separator], decoded[separator + 1..];
      if !IsUuid(id) then Err(Validation)
      else if timestamp == [] || !parses(timestamp) then Err(Validation)
      else Ok(Position(timestamp, id))
  }

  // ---------------------------------------------------------------------------------------------
  // Lemmas

  lemma {:induction false} LastBarFinds(text: Text)
    ensures -1 <= LastBar(text) < |text|
    ensures LastBar(text) >= 0 ==> text[LastBar(text)] == BAR
    ensures forall i | LastBar(text) < i < |text| :: text[i] != BAR
  {
    if text != [] && text[|text| - 1] != BAR {
      LastBarFinds(text[..|text| - 1]);
    }
  }

  lemma {:induction false} ReadSpell(digits: seq<Digit>)
    ensures Read(Spell(digits)) == digits && |Spell(digits)| == |digits|
    ensures forall c | c in Spell(digits) ::
        'A' <= c <= 'Z' || 'a' <= c <= 'z' || '0' <= c <= '9' || c == '-' || c == '_'
  {
    if digits != [] {
      ReadSpell(digits[1..]);
      assert Spell(digits)[1..] == Spell(digits[1..]);
      assert CharDigit(DigitChar(digits[0])) == Some(digits[0]);
    }
  }

  lemma Halves(high: nat, low: nat, base: nat)
    requires low < base && (base == 4 || base == 16)
    ensures (high * base + low) / base == high && (high * base + low) % base == low
  {
  }

  /** A byte is split between two digits and put together again. */
  lemma FirstByteRoundTrip(b0: Byte, b1: Byte)
    ensures High(First(b0), Second(b0, b1)) == b0
  {
    Halves(b0 % 4, b1 / 16, 16);
  }

  lemma SecondByteRoundTrip(b0: Byte, b1: Byte, b2: Byte)
    ensures Middle(Second(b0, b1), Third(b1, b2)) == b1
  {
    Halves(b0 % 4, b1 / 16, 16);
    Halves(b1 % 16, b2 / 64, 4);
  }

  lemma ThirdByteRoundTrip(b1: Byte, b2: Byte)
    ensures Low(Third(b1, b2), Fourth(b2)) == b2
  {
    Halves(b1 % 16, b2 / 64, 4);
  }

  lemma ShortBlockRoundTrip(bytes: Text)
    requires |bytes| < 3
    ensures FromDigits(ToDigits(bytes)) == bytes
    ensures |ToDigits(bytes)| == (4 * |bytes| + 2) / 3
  {
    if |bytes| > 0 {
      FirstByteRoundTrip(bytes[0], if |bytes| == 2 then bytes[1] else 0);
      if |bytes| == 2 { SecondByteRoundTrip(bytes[0], bytes[1], 0); }
    }
  }

  lemma {:induction false} DigitsRoundTrip(bytes: Text)
    ensures FromDigits(ToDigits(bytes)) == bytes
    ensures |ToDigits(bytes)| == (4 * |bytes| + 2) / 3
  {
    if |bytes| < 3 {
      ShortBlockRoundTrip(bytes);
    } else {
      DigitsRoundTrip(bytes[3..]);
      FirstByteRoundTrip(bytes[0], bytes[1]);
      SecondByteRoundTrip(bytes[0], bytes[1], bytes[2]);
      ThirdByteRoundTrip(bytes[1], bytes[2]);
      BlockPeels(bytes);
      var digits := ToDigits(bytes);
      assert digits[0] == digits[..4][0] && digits[1] == digits[..4][1]
        && digits[2] == digits[..4][2] && digits[3] == digits[..4][3];
      assert bytes == [bytes[0], bytes[1], bytes[2]] + bytes[3..];
    }
  }

  lemma BlockPeels(bytes: Text)
    requires |bytes| >= 3
    ensures var digits := ToDigits(bytes);
      && |digits| >= 4 && digits[4..] == ToDigits(bytes[3..])
      && digits[..4] == [First(bytes[0]), Second(bytes[0], bytes[1]), Third(bytes[1], bytes[2]), Fourth(bytes[2])]
  {
  }

  lemma EncodedBytes(timestamp: Text, id: Text)
    ensures FromDigits(Read(EncodeCursor(timestamp, id))) == timestamp + [BAR] + id
  {
    ReadSpell(ToDigits(timestamp + [BAR] + id));
    DigitsRoundTrip(timestamp + [BAR] + id);
  }

  /** The separator is found even when the timestamp contains it, because no uuid does. */
  lemma LastBarSplits(timestamp: Text, id: Text)
    requires IsUuid(id)
    ensures var text := timestamp + [BAR] + id; var at := LastBar(text);
      at == |timestamp| && text[..at] == timestamp && text[at + 1..] == id
  {
    var text := timestamp + [BAR] + id;
    LastBarFinds(text);
    assert text[|timestamp|] == BAR;
    forall i | |timestamp| < i < |text| ensures text[i] != BAR {
      assert text[i] == id[i - |timestamp| - 1];
    }
  }

  /** Decoding undoes encoding exactly for a uuid and a timestamp that parses as a date. */
  lemma DecodeUndoesEncode(timestamp: Text, id: Text, parses: Text -> bool)
    ensures DecodeCursor(EncodeCursor(timestamp, id), parses) == Ok(Position(timestamp, id))
      <==> IsUuid(id) && timestamp != [] && parses(timestamp)
  {
    EncodedBytes(timestamp, id);
    if IsUuid(id) {
      LastBarSplits(timestamp, id);
    }
  }

  lemma DecodedSplits(raw: string, parses: Text -> bool)
    requires DecodeCursor(raw, parses).Ok?
    ensures var p := DecodeCursor(raw, parses).value;
      && IsUuid(p.id) && p.timestamp != [] && parses(p.timestamp)
      && FromDigits(Read(raw)) == p.timestamp + [BAR] + p.id
  {
    LastBarFinds(FromDigits(Read(raw)));
  }

  /** Whatever raw string decodes, its id is a uuid, its timestamp parses, and re-encoding it decodes the same. */
  lemma DecodedIsWellFormed(raw: string, parses: Text -> bool)
    requires DecodeCursor(raw, parses).Ok?
    ensures var p := DecodeCursor(raw, parses).value;
      && IsUuid(p.id) && p.timestamp != [] && parses(p.timestamp)
      && FromDigits(Read(raw)) == p.timestamp + [BAR] + p.id
      && DecodeCursor(EncodeCursor(p.timestamp, p.id), parses) == Ok(p)
  {
    DecodedSplits(raw, parses);
    var p := DecodeCursor(raw, parses).value;
    DecodeUndoesEncode(p.timestamp, p.id, parses);
  }

  /** Two positions never share an encoding. */
  lemma EncodingIsInjective(a: Position, b: Position)
    requires IsUuid(a.id) && IsUuid(b.id)
    requires EncodeCursor(a.timestamp, a.id) == EncodeCursor(b.timestamp, b.id)
    ensures a == b
  {
    EncodedBytes(a.timestamp, a.id);
    EncodedBytes(b.timestamp, b.id);
    LastBarSplits(a.timestamp, a.id);
    LastBarSplits(b.timestamp, b.id);
  }

  /** The encoding is URL-safe, and passes the 200-character query limit exactly for timestamps of at most 113 bytes. */
  lemma EncodingFitsQuery(timestamp: Text, id: Text)
    requires IsUuid(id)
    ensures var raw := EncodeCursor(timestamp, id);
      && (|raw| <= 200 <==> |timestamp| <= 113)
      && raw != ""
      && forall c | c in raw :: 'A' <= c <= 'Z' || 'a' <= c <= 'z' || '0' <= c <= '9' || c == '-' || c == '_'
  {
    var text := timestamp + [BAR] + id;
    DigitsRoundTrip(text);
    ReadSpell(ToDigits(text));
  }

  // ---------------------------------------------------------------------------------------------
  // The alphabet, the padding bits, the shape of an id, and what is refused

  /** Digits are spelled A-Z, a-z, 0-9, - and _, in the order of section 5 of RFC 4648. */
  lemma AlphabetIsUrlSafe(d: Digit)
    ensures d < 26 ==> DigitChar(d) as int == 'A' as int + d
    ensures 26 <= d < 52 ==> DigitChar(d) as int == 'a' as int + (d - 26)
    ensures 52 <= d < 62 ==> DigitChar(d) as int == '0' as int + (d - 52)
    ensures DigitChar(62) == '-' && DigitChar(63) == '_'
  {
  }

  /** Reading knows that alphabet, the two characters of the ordinary one, and no other character. */
  lemma AlphabetIsRead(c: char)
    ensures CharDigit(c).Some? ==>
              var d := CharDigit(c).value; c == DigitChar(d) || (c == '+' && d == 62) || (c == '/' && d == 63)
    ensures CharDigit(c).None? <==> c != '+' && c != '/' && forall d: Digit :: c != DigitChar(d)
  {
    if CharDigit(c).Some? && c != '+' && c != '/' {
      assert c == DigitChar(CharDigit(c).value);
    } else if CharDigit(c).None? {
      forall d: Digit ensures c != DigitChar(d) { assert CharDigit(DigitChar(d)) == Some(d); }
    }
  }

  /** The bits of the last digit that carry no byte are zero. */
  lemma UnusedBitsAreZero(bytes: Text)
    requires 1 <= |bytes| <= 2
    ensures var digits := ToDigits(bytes);
      && (|bytes| == 1 ==> |digits| == 2 && digits[1] % 16 == 0)
      && (|bytes| == 2 ==> |digits| == 3 && digits[2] % 4 == 0)
  {
  }

  predicate IsDash(i: nat) {
    i == 8 || i == 8 + 1 + 4 || i == 8 + 1 + 4 + 1 + 4 || i == 8 + 1 + 4 + 1 + 4 + 1 + 4
  }

  /** An id is groups of 8, 4, 4, 4 and 12 hexadecimal digits with dashes between. */
  lemma UuidShape(id: Text)
    ensures IsUuid(id) <==>
      && |id| == 8 + 1 + 4 + 1 + 4 + 1 + 4 + 1 + 12
      && (forall i: nat | i < |id| && IsDash(i) :: id[i] == '-' as int)
      && (forall i: nat | i < |id| && !IsDash(i) :: id[i] as char in "0123456789abcdefABCDEF")
  {
    forall b: Byte ensures HexDigit(b) <==> b as char in "0123456789abcdefABCDEF" { HexDigits(b); }
  }

  lemma HexDigits(b: Byte)
    ensures HexDigit(b) <==> b as char in "0123456789abcdefABCDEF"
  {
    var c := b as char;
    if HexDigit(b) {
      if b <= 57 { assert "0123456789abcdefABCDEF"[b - 48] == c; }
      else if b >= 97 { assert "0123456789abcdefABCDEF"[b - 97 + 10] == c; }
      else { assert "0123456789abcdefABCDEF"[b - 65 + 16] == c; }
    }
  }

  /** A raw string decodes exactly when its bytes are a parsable timestamp, the separator and an id. */
  lemma DecodesIff(raw: string, p: Position, parses: Text -> bool)
    ensures DecodeCursor(raw, parses) == Ok(p) <==>
      && IsUuid(p.id) && p.timestamp != [] && parses(p.timestamp)
      && FromDigits(Read(raw)) == p.timestamp + [BAR] + p.id
  {
    if DecodeCursor(raw, parses).Ok? { DecodedSplits(raw, parses); }
    if IsUuid(p.id) { LastBarSplits(p.timestamp, p.id); }
  }

  /** A cursor that does not decode is an invalid request. */
  lemma BadCursorIsInvalid(raw: string, parses: Text -> bool)
    ensures DecodeCursor(raw, parses).Ok? || DecodeCursor(raw, parses) == Err(Validation)
  {
  }
}

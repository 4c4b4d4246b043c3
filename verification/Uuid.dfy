// GetUUID: version 4 identifiers and their text form (sections 4 and 5.4 of RFC 9562).

module Uuid {
  import opened Options
  import opened Text

  const UUID_LENGTH: nat := 16
  const VERSION_INDEX: nat := 6
  const N_INDEX: nat := 8
  const HYPHEN: byte := 45

  function HexToChar(hex: bv8): byte {
    (if hex > 9 then hex + 0x57 else hex + 0x30) as int
  }

  // The digit printed second for a byte: the byte itself when its high half is 0,
  // otherwise a remainder by the high half.
  function SecondDigit(value: bv8): bv8 {
    var highValue := value & 0xF0;
    if highValue == 0 then value else value % (value & highValue)
  }

  // Either way it is the low half.
  lemma SecondDigitIsLowHalf(value: bv8)
    ensures SecondDigit(value) == value & 0x0F
  {
  }

  // ----- version and variant -----

  function Versioned(value: bv8): bv8 {
    (value & 0x0F) | 0x40
  }

  function Varianted(value: bv8, random: bv8): bv8 {
    (value & 0x0F) | (((random % 4) + 8) << 4)
  }

  function Stamped(random: seq<bv8>, variantRandom: bv8): seq<bv8>
    requires |random| == UUID_LENGTH
  {
    random[VERSION_INDEX := Versioned(random[VERSION_INDEX])][N_INDEX := Varianted(random[N_INDEX], variantRandom)]
  }

  lemma VersionedHalves(value: bv8)
    ensures Versioned(value) >> 4 == 4 && Versioned(value) & 0x0F == value & 0x0F
  {
  }

  lemma VariantedHalves(value: bv8, random: bv8)
    ensures Varianted(value, random) >> 4 == 8 + random % 4 && Varianted(value, random) & 0x0F == value & 0x0F
  {
  }

  // The version and the variant go into the high halves of bytes 6 and 8; everything else
  // is as random as it came.
  lemma StampedHalves(random: seq<bv8>, variantRandom: bv8)
    requires |random| == 16
    ensures var bytes := Stamped(random, variantRandom);
            && |bytes| == 16
            && (forall i :: 0 <= i < 16 && i != 6 && i != 8 ==> bytes[i] == random[i])
            && bytes[6] >> 4 == 4 && bytes[6] & 0x0F == random[6] & 0x0F
            && bytes[8] >> 4 == 8 + variantRandom % 4 && bytes[8] & 0x0F == random[8] & 0x0F
  {
    VersionedHalves(random[6]);
    VariantedHalves(random[8], variantRandom);
  }

  // Digits are the lower-case hexadecimal ones.
  lemma HexCharTable(hex: bv8)
    requires hex < 16
    ensures HexToChar(hex) as int == "0123456789abcdef"[hex as int] as int
  {
  }

  // ----- text form -----

  predicate HyphenBefore(i: nat) {
    4 <= i <= 10 && i % 2 == 0
  }

  // Where the text of byte i begins, its hyphen included.
  function Begin(i: nat): nat {
    2 * i + (if i > 4 then 1 else 0) + (if i > 6 then 1 else 0) + (if i > 8 then 1 else 0) + (if i > 10 then 1 else 0)
  }

  function Offset(i: nat): nat {
    Begin(i) + if HyphenBefore(i) then 1 else 0
  }

  predicate PrintsByte(value: bv8, text: Str, i: nat)
    requires Offset(i) + 1 < |text|
  {
    text[Offset(i)] == HexToChar(value >> 4) && text[Offset(i) + 1] == HexToChar(value & 0x0F)
  }

  predicate HasHyphens(text: Str) {
    |text| == 36 && text[8] == HYPHEN && text[13] == HYPHEN && text[18] == HYPHEN && text[23] == HYPHEN
  }

  predicate IsTextOf(bytes: seq<bv8>, text: Str) {
    && |bytes| == UUID_LENGTH && HasHyphens(text)
    && forall i :: 0 <= i < UUID_LENGTH ==> PrintsByte(bytes[i], text, i)
  }

  // The text of the first n bytes.
  ghost predicate Printed(bytes: seq<bv8>, text: Str, n: nat) {
    && n <= UUID_LENGTH == |bytes| && |text| == Begin(n)
    && (forall j :: 0 <= j < n ==> PrintsByte(bytes[j], text, j))
    && (forall j :: 0 <= j < n && HyphenBefore(j) ==> text[Begin(j)] == HYPHEN)
  }

  lemma Layout(j: nat, n: nat)
    requires j < n <= UUID_LENGTH
    ensures Begin(j) <= Offset(j) && Offset(j) + 1 < Begin(n)
    ensures Begin(j + 1) == Offset(j) + 2
  {
  }

  lemma PrintOneMore(bytes: seq<bv8>, text: Str, n: nat)
    requires Printed(bytes, text, n) && n < UUID_LENGTH
    ensures var hyphen := if HyphenBefore(n) then [HYPHEN] else [];
            Printed(bytes, text + hyphen + [HexToChar(bytes[n] >> 4)] + [HexToChar(bytes[n] & 0x0F)], n + 1)
  {
    hide HexToChar, Begin, HyphenBefore;
    var hyphen := if HyphenBefore(n) then [HYPHEN] else [];
    var after := text + hyphen + [HexToChar(bytes[n] >> 4)] + [HexToChar(bytes[n] & 0x0F)];
    Layout(n, n + 1);
    forall j | 0 <= j < n
      ensures Begin(j) <= Offset(j) && Offset(j) + 1 < |after|
      ensures PrintsByte(bytes[j], after, j)
      ensures HyphenBefore(j) ==> after[Begin(j)] == HYPHEN
    {
      Layout(j, n);
      assert PrintsByte(bytes[j], text, j);
    }
    assert PrintsByte(bytes[n], after, n);
  }

  lemma AllPrinted(bytes: seq<bv8>, text: Str)
    requires Printed(bytes, text, UUID_LENGTH)
    ensures IsTextOf(bytes, text)
  {
    hide HexToChar;
    assert HyphenBefore(4) && HyphenBefore(6) && HyphenBefore(8) && HyphenBefore(10);
  }

  lemma NothingPrinted(bytes: seq<bv8>)
    requires |bytes| == UUID_LENGTH
    ensures Printed(bytes, [], 0)
  {
  }

  // None stands for a failing RAND_bytes.
  method GetUUID(random: Option<seq<bv8>>, variantRandom: Option<bv8>) returns (formatUuid: Str)
    requires random.Some? ==> |random.value| == UUID_LENGTH
    ensures random.None? || variantRandom.None? ==> formatUuid == []
    ensures random.Some? && variantRandom.Some? ==> IsTextOf(Stamped(random.value, variantRandom.value), formatUuid)
  {
    hide HexToChar, Printed, IsTextOf;
    formatUuid := [];
    if random.None? {
      return;
    }
    var uuid := new bv8[UUID_LENGTH](i requires 0 <= i < UUID_LENGTH => random.value[i]);
    uuid[VERSION_INDEX] := (uuid[VERSION_INDEX] & 0x0F) | 0x40;
    if variantRandom.None? {
      return;
    }
    var num := (variantRandom.value % 4) + 8;
    uuid[N_INDEX] := (uuid[N_INDEX] & 0x0F) | (num << 4);
    ghost var bytes := Stamped(random.value, variantRandom.value);
    assert uuid[..] == bytes;
    var i := 0;
    NothingPrinted(bytes);
    while i < UUID_LENGTH
      invariant 0 <= i <= UUID_LENGTH && uuid[..] == bytes
      invariant Printed(bytes, formatUuid, i)
    {
      PrintOneMore(bytes, formatUuid, i);
      var value := uuid[i];
      assert value == bytes[i];
      if 4 <= i <= 10 && i % 2 == 0 {
        formatUuid := formatUuid + [HYPHEN];
      } else {
        assert formatUuid + [] == formatUuid;
      }
      formatUuid := formatUuid + [HexToChar(value >> 4)];
      SecondDigitIsLowHalf(value);
      var highValue := value & 0xF0;
      if highValue == 0 {
        formatUuid := formatUuid + [HexToChar(value)];
      } else {
        formatUuid := formatUuid + [HexToChar(value % (value & highValue))];
      }
      i := i + 1;
    }
    AllPrinted(bytes, formatUuid);
  }

  // ----- decoding -----

  predicate IsHexDigit(c: byte) {
    48 <= c <= 57 || 97 <= c <= 102
  }

  function HexValue(c: byte): bv8
    requires IsHexDigit(c)
  {
    if c <= 57 then (c - 48) as bv8 else (c - 87) as bv8
  }

  lemma HexRoundTrip(h: bv8)
    requires h < 16
    ensures IsHexDigit(HexToChar(h)) && HexValue(HexToChar(h)) == h
  {
  }

  lemma DecimalDigit(c: byte)
    requires 48 <= c <= 57
    ensures HexValue(c) < 16 && HexToChar(HexValue(c)) == c
  {
  }

  lemma LetterDigit(c: byte)
    requires 97 <= c <= 102
    ensures HexValue(c) < 16 && HexToChar(HexValue(c)) == c
  {
  }

  lemma CharRoundTrip(c: byte)
    requires IsHexDigit(c)
    ensures HexValue(c) < 16 && HexToChar(HexValue(c)) == c
  {
    hide HexValue, HexToChar;
    if c <= 57 {
      DecimalDigit(c);
    } else {
      LetterDigit(c);
    }
  }

  // The byte that two hexadecimal digits of a text stand for.
  function DecodeByte(text: Str, i: nat): bv8
    requires i < UUID_LENGTH && |text| == 36
    requires IsHexDigit(text[Offset(i)]) && IsHexDigit(text[Offset(i) + 1])
  {
    (HexValue(text[Offset(i)]) << 4) | HexValue(text[Offset(i) + 1])
  }

  // Hyphens at 8, 13, 18 and 23, lower-case hexadecimal digits elsewhere.
  predicate IsHexText(text: Str) {
    && HasHyphens(text)
    && forall i :: 0 <= i < UUID_LENGTH ==> IsHexDigit(text[Offset(i)]) && IsHexDigit(text[Offset(i) + 1])
  }

  function Decode(text: Str): seq<bv8>
    requires IsHexText(text)
  {
    seq(UUID_LENGTH, i requires 0 <= i < UUID_LENGTH => DecodeByte(text, i))
  }

  lemma DecodePrintedByte(value: bv8, text: Str, i: nat)
    requires i < UUID_LENGTH && |text| == 36 && PrintsByte(value, text, i)
    ensures IsHexDigit(text[Offset(i)]) && IsHexDigit(text[Offset(i) + 1]) && DecodeByte(text, i) == value
  {
    hide HexToChar, HexValue, IsHexDigit;
    HexRoundTrip(value >> 4);
    HexRoundTrip(value & 0x0F);
    assert ((value >> 4) << 4) | (value & 0x0F) == value;
  }

  lemma Halves(high: bv8, low: bv8)
    requires high < 16 && low < 16
    ensures ((high << 4) | low) >> 4 == high && ((high << 4) | low) & 0x0F == low
  {
  }

  lemma PrintDecodedByte(text: Str, i: nat)
    requires i < UUID_LENGTH && |text| == 36
    requires IsHexDigit(text[Offset(i)]) && IsHexDigit(text[Offset(i) + 1])
    ensures PrintsByte(DecodeByte(text, i), text, i)
  {
    hide HexToChar, HexValue, IsHexDigit;
    var high, low := HexValue(text[Offset(i)]), HexValue(text[Offset(i) + 1]);
    CharRoundTrip(text[Offset(i)]);
    CharRoundTrip(text[Offset(i) + 1]);
    Halves(high, low);
  }

  // A text and its 16 bytes determine each other.
  lemma TextDecodes(bytes: seq<bv8>, text: Str)
    ensures IsTextOf(bytes, text) <==> IsHexText(text) && bytes == Decode(text)
  {
    hide HexToChar, HexValue, IsHexDigit, PrintsByte, DecodeByte;
    if IsTextOf(bytes, text) {
      forall i | 0 <= i < UUID_LENGTH
        ensures IsHexDigit(text[Offset(i)]) && IsHexDigit(text[Offset(i) + 1]) && DecodeByte(text, i) == bytes[i]
      {
        DecodePrintedByte(bytes[i], text, i);
      }
    }
    if IsHexText(text) && bytes == Decode(text) {
      forall i | 0 <= i < UUID_LENGTH ensures PrintsByte(bytes[i], text, i) {
        PrintDecodedByte(text, i);
      }
    }
  }

  // ----- version 4 -----

  // The version digit is 4 and the variant digit is one of 8, 9, a, b.
  predicate IsV4Text(text: Str) {
    && IsHexText(text)
    && text[14] == 52
    && text[19] in {56, 57, 97, 98}
  }

  lemma VersionDigit(value: bv8)
    ensures HexToChar(value >> 4) == 52 <==> value == Versioned(value)
    ensures HexToChar(Versioned(value) >> 4) == 52
  {
  }

  lemma VariantDigit(value: bv8, random: bv8)
    ensures HexToChar(Varianted(value, random) >> 4) in {56, 57, 97, 98}
  {
  }

  lemma VariantReached(value: bv8)
    requires HexToChar(value >> 4) in {56, 57, 97, 98}
    ensures value == Varianted(value, (value >> 4) - 8)
  {
  }

  // The byte whose digits stand around a position.
  function ByteAround(i: nat): nat {
    var hyphens := if i < 8 then 0 else if i < 13 then 1 else if i < 18 then 2 else if i < 23 then 3 else 4;
    (i - hyphens) / 2
  }

  // 36 characters: hyphens at 8, 13, 18 and 23, and lower-case hexadecimal digits elsewhere.
  lemma TextShape(text: Str, i: nat)
    requires IsHexText(text) && i < 36
    ensures |text| == 36
    ensures if i == 8 || i == 13 || i == 18 || i == 23 then text[i] == 45
            else 48 <= text[i] <= 57 || 97 <= text[i] <= 102
  {
    if i != 8 && i != 13 && i != 18 && i != 23 {
      var j := ByteAround(i);
      assert j < 16 && (Offset(j) == i || Offset(j) + 1 == i);
      assert IsHexDigit(text[Offset(j)]) && IsHexDigit(text[Offset(j) + 1]);
    }
  }

  // Every identifier that GetUUID can return is a version 4 text.
  lemma GeneratedIsV4(random: seq<bv8>, variantRandom: bv8, text: Str)
    requires |random| == UUID_LENGTH && IsTextOf(Stamped(random, variantRandom), text)
    ensures IsV4Text(text)
  {
    hide HexToChar, HexValue, IsHexDigit;
    var bytes := Stamped(random, variantRandom);
    TextDecodes(bytes, text);
    assert PrintsByte(bytes[6], text, 6) && PrintsByte(bytes[8], text, 8);
    VersionDigit(random[6]);
    VariantDigit(random[8], variantRandom);
  }

  // And every version 4 text can be returned.
  lemma V4IsGenerated(text: Str)
    requires IsV4Text(text)
    ensures var random := Decode(text);
            IsTextOf(Stamped(random, (random[8] >> 4) - 8), text)
  {
    hide HexToChar, HexValue, IsHexDigit, DecodeByte, Varianted, Versioned;
    var random := Decode(text);
    TextDecodes(random, text);
    assert PrintsByte(random[6], text, 6) && PrintsByte(random[8], text, 8);
    VersionDigit(random[6]);
    VariantReached(random[8]);
    assert Stamped(random, (random[8] >> 4) - 8) == random;
  }

  // The text determines the 16 bytes: formatting is injective.
  lemma FormattingInjective(bytes: seq<bv8>, bytes': seq<bv8>, text: Str)
    requires IsTextOf(bytes, text) && IsTextOf(bytes', text)
    ensures bytes == bytes'
  {
    TextDecodes(bytes, text);
    TextDecodes(bytes', text);
  }

  const OAID_ALLZERO_STR: Str := Ascii("00000000-0000-0000-0000-000000000000")

  // A generated identifier is neither empty nor the all-zero one.
  lemma GeneratedIsNonzero(text: Str)
    requires IsV4Text(text)
    ensures text != [] && text != OAID_ALLZERO_STR
  {
    assert OAID_ALLZERO_STR[14] == 48;
  }

  // There is always another identifier to generate.
  lemma AnotherV4(id: Str) returns (text: Str)
    ensures IsV4Text(text) && text != id
  {
    var digit: byte := if |id| == 36 && id[35] == 48 then 49 else 48;
    text := seq(36, i =>
      if i in {8, 13, 18, 23} then HYPHEN else if i == 14 then 52 else if i == 19 then 56 else digit);
  }
}

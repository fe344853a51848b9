/**
  256-bit unsigned integers as text and as 32 stored bytes (scripts/db/trade_v2.py): hex and decimal
  texts are turned into big-endian bytes, and stored values back into decimal text.
*/
module Uint256 {
  import opened Prelude

  type byte = b: int | 0 <= b < 256

  // ----- characters -----

  /** What str.strip removes. */
  predicate IsSpace(c: char) {
    || 9 <= c as int <= 13 || 28 <= c as int <= 32 || c as int in {0x85, 0xA0, 0x1680, 0x2028, 0x2029, 0x202F, 0x205F, 0x3000}
    || 0x2000 <= c as int <= 0x200A
  }

  predicate IsDigit(c: char) {
    '0' <= c <= '9'
  }

  predicate IsHexDigit(c: char) {
    IsDigit(c) || 'a' <= c <= 'f' || 'A' <= c <= 'F'
  }

  function DigitValue(c: char): (d: nat)
    requires IsHexDigit(c)
    ensures d < 16 && (IsDigit(c) <==> d < 10)
  {
    if IsDigit(c) then c as int - '0' as int
    else if 'a' <= c then c as int - 'a' as int + 10
    else c as int - 'A' as int + 10
  }

  predicate AllDigits(s: string) {
    forall i | 0 <= i < |s| :: IsDigit(s[i])
  }

  predicate AllHex(s: string) {
    forall i | 0 <= i < |s| :: IsHexDigit(s[i])
  }

  function StripLeft(s: string): (r: string)
    ensures r == [] || !IsSpace(r[0])
    ensures s != [] && !IsSpace(s[0]) ==> r == s
  {
    if s != [] && IsSpace(s[0]) then StripLeft(s[1..]) else s
  }

  function StripRight(s: string): (r: string)
    ensures r == [] || (!IsSpace(r[|r| - 1]) && s != [] && r[0] == s[0])
    ensures s != [] && !IsSpace(s[|s| - 1]) ==> r == s
  {
    if s != [] && IsSpace(s[|s| - 1]) then StripRight(s[..|s| - 1]) else s
  }

  function Strip(s: string): (r: string)
    ensures r == [] || (!IsSpace(r[0]) && !IsSpace(r[|r| - 1]))
  {
    StripRight(StripLeft(s))
  }

  lemma StripOfStripped(s: string)
    requires s == [] || (!IsSpace(s[0]) && !IsSpace(s[|s| - 1]))
    ensures Strip(s) == s
  {
  }

  predicate StartsWith0(s: string, x: char) {
    |s| >= 2 && s[0] == '0' && s[1] == x
  }

  /** (?:0x)?[0-9a-fA-F]+ over the whole text */
  predicate IsHexText(s: string) {
    || (StartsWith0(s, 'x') && |s| > 2 && AllHex(s[2..]))
    || (s != [] && AllHex(s))
  }

  function LowerChar(c: char): (r: char)
    ensures IsHexDigit(c) ==> IsHexDigit(r) && DigitValue(r) == DigitValue(c)
  {
    if 'A' <= c <= 'Z' then (c as int + 32) as char else c
  }

  function Lower(s: string): (r: string)
    ensures |r| == |s| && forall i | 0 <= i < |s| :: r[i] == LowerChar(s[i])
    ensures AllHex(s) ==> AllHex(r)
  {
    if s == [] then [] else [LowerChar(s[0])] + Lower(s[1..])
  }

  // ----- numbers -----

  function Pow(base: nat, n: nat): nat {
    if n == 0 then 1 else base * Pow(base, n - 1)
  }

  const TWO_256: nat := Pow(2, 256)

  /** int(s, radix) */
  function Number(s: string, radix: nat): nat
    requires AllHex(s)
  {
    if s == [] then 0 else Number(s[..|s| - 1], radix) * radix + DigitValue(s[|s| - 1])
  }

  /** str(n) */
  function Decimal(n: nat): (s: string)
    ensures s != [] && AllDigits(s)
  {
    if n < 10 then [DecimalDigit(n)] else Decimal(n / 10) + [DecimalDigit(n % 10)]
  }

  function DecimalDigit(d: nat): (c: char)
    requires d < 10
    ensures IsDigit(c) && DigitValue(c) == d
  {
    ('0' as int + d) as char
  }

  /** n.to_bytes(size, "big") */
  function BigEndian(n: nat, size: nat): (b: seq<byte>)
    ensures |b| == size
  {
    if size == 0 then [] else BigEndian(n / 256, size - 1) + [n % 256]
  }

  /** int.from_bytes(b, "big") */
  function FromBigEndian(b: seq<byte>): nat {
    if b == [] then 0 else FromBigEndian(b[..|b| - 1]) * 256 + b[|b| - 1]
  }

  /** bytes.fromhex */
  function FromHex(s: string, size: nat): (b: seq<byte>)
    requires AllHex(s) && |s| == 2 * size
    ensures |b| == size
  {
    if size == 0 then []
    else FromHex(s[..|s| - 2], size - 1) + [DigitValue(s[|s| - 2]) * 16 + DigitValue(s[|s| - 1])]
  }

  // ----- the conversions -----

  function HexDigitsOf(text: string): (digits: string)
    requires IsHexText(text)
    ensures AllHex(digits)
  {
    Lower(if StartsWith0(text, 'x') || StartsWith0(text, 'X') then text[2..] else text)
  }

  function NormalizeHex(value: Option<string>, expectedBytes: nat, withPrefix: bool): (r: Option<string>)
    ensures r.Some? && !withPrefix ==> AllHex(r.value) && |r.value| == 2 * expectedBytes
  {
    if value.None? then None
    else
      var text := Strip(value.value);
      if text == [] || !IsHexText(text) then None
      else
        var digits := HexDigitsOf(text);
        if |digits| != expectedBytes * 2 then None
        else Some(if withPrefix then "0x" + digits else digits)
  }

  function HexToBytes(value: Option<string>, expectedBytes: nat): Option<seq<byte>> {
    match NormalizeHex(value, expectedBytes, false)
    case None => None
    case Some(digits) => Some(FromHex(digits, expectedBytes))
  }

  function Uint256TextToBytes32(value: Option<string>): Option<seq<byte>> {
    if value.None? then None
    else
      var text := Strip(value.value);
      if text == [] then None
      else if StartsWith0(text, 'x') || StartsWith0(text, 'X') then HexToBytes(Some(text), 32)
      else if !AllDigits(text) then None
      else if Number(text, 10) >= TWO_256 then None
      else Some(BigEndian(Number(text, 10), 32))
  }

  /** A value read from storage; shown is what str gives for a bytes object. */
  datatype Stored = Missing | Bytes(raw: seq<byte>, shown: string) | Text(text: string)

  function Uint256StorageToText(value: Stored): Option<string> {
    if value.Missing? then None
    else if value.Bytes? && |value.raw| == 32 then Some(Decimal(FromBigEndian(value.raw)))
    else
      var text := Strip(if value.Bytes? then value.shown else value.text);
      if text == [] then None
      else if AllDigits(text) then Some(text)
      else if |text| == 64 && AllHex(text) then Some(Decimal(Number(text, 16)))
      else if |text| == 66 && StartsWith0(text, 'x') && AllHex(text[2..]) then Some(Decimal(Number(text[2..], 16)))
      else Some(text)
  }

  // ----- what a text denotes -----

  predicate IsWordHex(text: string) {
    |text| == 66 && StartsWith0(text, 'x') && AllHex(text[2..])
  }

  /** A decimal text with any leading zeros, or 0x and 64 hex digits; spaces around either are ignored. */
  function Denoted(t: string): Option<nat> {
    var text := Strip(t);
    if text != [] && AllDigits(text) then Some(Number(text, 10))
    else if IsWordHex(text) then Some(Number(text[2..], 16))
    else None
  }

  // ----- number lemmas -----

  lemma {:induction false} PowerOfBytes(size: nat)
    ensures Pow(256, size) == Pow(2, 8 * size)
  {
    if size > 0 {
      var n := 8 * size;
      PowerOfBytes(size - 1);
      PowTwice(n - 2);
      PowTwice(n - 4);
      PowTwice(n - 6);
      PowTwice(n - 8);
    }
  }

  lemma PowTwice(n: nat)
    ensures Pow(2, n + 2) == 4 * Pow(2, n)
  {
    assert Pow(2, n + 2) == 2 * Pow(2, n + 1);
  }

  lemma {:induction false} BytesOfNumber(n: nat, size: nat)
    requires n < Pow(256, size)
    ensures FromBigEndian(BigEndian(n, size)) == n
  {
    if size > 0 {
      assert n / 256 < Pow(256, size - 1);
      BytesOfNumber(n / 256, size - 1);
      assert BigEndian(n, size)[..size - 1] == BigEndian(n / 256, size - 1);
    }
  }

  lemma {:induction false} NumberOfBytes(b: seq<byte>)
    ensures BigEndian(FromBigEndian(b), |b|) == b && FromBigEndian(b) < Pow(256, |b|)
  {
    if b != [] {
      NumberOfBytes(b[..|b| - 1]);
    }
  }

  lemma {:induction false} NumberOfDecimal(n: nat)
    ensures Number(Decimal(n), 10) == n
  {
    if n >= 10 {
      NumberOfDecimal(n / 10);
      assert Decimal(n)[..|Decimal(n)| - 1] == Decimal(n / 10);
    } else {
      assert Number([], 10) == 0;
      assert Decimal(n)[..0] == [];
    }
  }

  lemma {:induction false} NumberOfHexBytes(s: string, size: nat)
    requires AllHex(s) && |s| == 2 * size
    ensures FromBigEndian(FromHex(s, size)) == Number(s, 16)
  {
    if size > 0 {
      var last := s[..|s| - 1];
      assert last[..|last| - 1] == s[..|s| - 2];
      NumberOfHexBytes(s[..|s| - 2], size - 1);
      assert FromHex(s, size)[..size - 1] == FromHex(s[..|s| - 2], size - 1);
      assert Number(s, 16) == (Number(s[..|s| - 2], 16) * 16 + DigitValue(s[|s| - 2])) * 16 + DigitValue(s[|s| - 1]);
    }
  }

  lemma {:induction false} NumberOfLower(s: string, radix: nat)
    requires AllHex(s)
    ensures AllHex(Lower(s)) && Number(Lower(s), radix) == Number(s, radix)
  {
    if s != [] {
      var before := s[..|s| - 1];
      NumberOfLower(before, radix);
      assert Lower(s)[..|s| - 1] == Lower(before);
    }
  }

  // ----- main results -----

  lemma HexTextToBytes(text: string)
    requires text != [] && Strip(text) == text && (StartsWith0(text, 'x') || StartsWith0(text, 'X'))
    ensures IsWordHex(text) ==> HexToBytes(Some(text), 32) == Some(BigEndian(Number(text[2..], 16), 32)) && Number(text[2..], 16) < TWO_256
    ensures !IsWordHex(text) ==> HexToBytes(Some(text), 32) == None
  {
    assert !IsHexDigit(text[1]);
    if IsWordHex(text) {
      var digits := Lower(text[2..]);
      NumberOfLower(text[2..], 16);
      NumberOfHexBytes(digits, 32);
      NumberOfBytes(FromHex(digits, 32));
      PowerOfBytes(32);
    }
  }

  /** Every text: the bytes are those of the number it denotes, and there are none otherwise or above 2^256. */
  lemma BytesAreOfDenoted(t: string)
    ensures var n := Denoted(t);
            Uint256TextToBytes32(Some(t)) == if n.Some? && n.value < TWO_256 then Some(BigEndian(n.value, 32)) else None
  {
    var text := Strip(t);
    StripOfStripped(text);
    if StartsWith0(text, 'x') || StartsWith0(text, 'X') {
      assert !IsDigit(text[1]);
      HexTextToBytes(text);
    }
  }

  /** Two texts are stored as the same bytes exactly when they denote the same number in range. */
  lemma SameBytesExactlyWhen(t: string, u: string)
    ensures Uint256TextToBytes32(Some(t)).Some? && Uint256TextToBytes32(Some(t)) == Uint256TextToBytes32(Some(u)) <==>
            Denoted(t).Some? && Denoted(t) == Denoted(u) && Denoted(t).value < TWO_256
  {
    BytesAreOfDenoted(t);
    BytesAreOfDenoted(u);
    PowerOfBytes(32);
    if Uint256TextToBytes32(Some(t)).Some? && Uint256TextToBytes32(Some(t)) == Uint256TextToBytes32(Some(u)) {
      BytesOfNumber(Denoted(t).value, 32);
      BytesOfNumber(Denoted(u).value, 32);
    }
  }

  lemma DecimalDenotes(n: nat)
    ensures Denoted(Decimal(n)) == Some(n)
  {
    NumberOfDecimal(n);
    StripOfStripped(Decimal(n));
  }

  /** Written and read back, whatever the text was, the number comes out as canonical decimal. */
  lemma TextRoundTrip(t: string, shown: string)
    requires Denoted(t).Some? && Denoted(t).value < TWO_256
    ensures Uint256TextToBytes32(Some(t)).Some?
    ensures Uint256StorageToText(Bytes(Uint256TextToBytes32(Some(t)).value, shown)) == Some(Decimal(Denoted(t).value))
  {
    BytesAreOfDenoted(t);
    PowerOfBytes(32);
    BytesOfNumber(Denoted(t).value, 32);
  }

  lemma NumberRoundTrip(n: nat, shown: string)
    requires n < TWO_256
    ensures var b := Uint256TextToBytes32(Some(Decimal(n)));
            b.Some? && Uint256StorageToText(Bytes(b.value, shown)) == Some(Decimal(n))
  {
    DecimalDenotes(n);
    TextRoundTrip(Decimal(n), shown);
  }

  /** Any 32 stored bytes, read as text and stored again, are the same bytes. */
  lemma StorageRoundTrip(raw: seq<byte>, shown: string)
    requires |raw| == 32
    ensures Uint256TextToBytes32(Uint256StorageToText(Bytes(raw, shown))) == Some(raw)
  {
    NumberOfBytes(raw);
    PowerOfBytes(32);
    DecimalDenotes(FromBigEndian(raw));
    BytesAreOfDenoted(Decimal(FromBigEndian(raw)));
  }

  // ----- hex text in storage -----

  lemma {:induction false} DecimalLeads(n: nat)
    ensures n > 0 ==> Decimal(n)[0] != '0'
  {
    if n >= 10 {
      DecimalLeads(n / 10);
    }
  }

  lemma {:induction false} HexReadsLarger(s: string)
    requires AllDigits(s)
    ensures Number(s, 16) >= Number(s, 10)
    ensures s != [] && s[0] != '0' ==> Number(s, 10) > 0
    ensures |s| >= 2 && s[0] != '0' ==> Number(s, 16) > Number(s, 10)
  {
    if s != [] {
      HexReadsLarger(s[..|s| - 1]);
    }
  }

  /** 64 hex digits without a prefix are read as hex exactly when one of them is a letter. */
  lemma BareHexReadsAsHexExactlyWhen(t: string)
    requires |t| == 64 && AllHex(t)
    ensures Uint256StorageToText(Text(t)) == Some(Decimal(Number(t, 16))) <==> !AllDigits(t)
  {
    StripOfStripped(t);
    if AllDigits(t) && t == Decimal(Number(t, 16)) {
      NumberOfDecimal(Number(t, 16));
      DecimalLeads(Number(t, 16));
      HexReadsLarger(t);
      assert false;
    }
  }

  /** An input: 64 digits, every one of them a hex digit, come back as they are. */
  lemma DigitsAreNotReadAsHex()
    ensures var t := seq(64, _ => '1');
            AllHex(t) && |t| == 64 && Uint256StorageToText(Text(t)) == Some(t) && Some(t) != Some(Decimal(Number(t, 16)))
  {
    var t := seq(64, _ => '1');
    BareHexReadsAsHexExactlyWhen(t);
    StripOfStripped(t);
  }

  // ----- spaces around a text -----

  lemma {:induction false} LeftSpacesGo(a: string, t: string)
    requires forall i | 0 <= i < |a| :: a[i] in {' ', '\t', '\n', '\r'}
    ensures StripLeft(a + t) == StripLeft(t)
  {
    if a == [] {
      assert a + t == t;
    } else {
      assert (a + t)[1..] == a[1..] + t;
      LeftSpacesGo(a[1..], t);
    }
  }

  lemma {:induction false} RightSpacesGo(t: string, b: string)
    requires forall i | 0 <= i < |b| :: b[i] in {' ', '\t', '\n', '\r'}
    ensures StripRight(t + b) == StripRight(t)
    decreases |b|
  {
    if b == [] {
      assert t + b == t;
    } else {
      assert (t + b)[..|t + b| - 1] == t + b[..|b| - 1];
      RightSpacesGo(t, b[..|b| - 1]);
    }
  }

  /** Blanks, tabs and line ends around a number do not matter, and nothing inside it is taken away. */
  lemma SpacesDoNotMatter(a: string, t: string, b: string)
    requires forall i | 0 <= i < |a| :: a[i] in {' ', '\t', '\n', '\r'}
    requires forall i | 0 <= i < |b| :: b[i] in {' ', '\t', '\n', '\r'}
    requires t != [] && IsHexDigit(t[0]) && IsHexDigit(t[|t| - 1])
    ensures Strip(a + t + b) == t && Denoted(a + t + b) == Denoted(t)
  {
    assert a + t + b == a + (t + b);
    LeftSpacesGo(a, t + b);
    assert (t + b)[0] == t[0];
    RightSpacesGo(t, b);
  }

  // ----- stored text -----

  /** Reading a stored text keeps the number it denotes: digits stay, 0x and 64 hex digits become canonical decimal. */
  lemma StoredTextDenotes(t: string)
    requires Denoted(t).Some?
    ensures Uint256StorageToText(Text(t)) == Some(if AllDigits(Strip(t)) then Strip(t) else Decimal(Denoted(t).value))
    ensures Denoted(Uint256StorageToText(Text(t)).value) == Denoted(t)
  {
    var text := Strip(t);
    StripOfStripped(text);
    if !AllDigits(text) {
      DecimalDenotes(Number(text[2..], 16));
    }
  }

  /** Blank text and missing values are nothing; a text that is neither decimal nor hex is kept as it is. */
  lemma OtherStoredValues(t: string, raw: seq<byte>)
    requires |raw| != 32
    ensures Uint256StorageToText(Missing) == None
    ensures Strip(t) == "" ==> Uint256StorageToText(Text(t)) == None && Uint256StorageToText(Bytes(raw, t)) == None
    ensures Strip(t) != "" && !AllHex(Strip(t)) && !IsWordHex(Strip(t)) ==>
              Uint256StorageToText(Text(t)) == Some(Strip(t)) == Uint256StorageToText(Bytes(raw, t))
  {
  }

  // ----- hex of any size -----

  /** The hex digits of a text: all of it, or what follows 0x. */
  function HexPart(text: string): Option<string> {
    if |text| > 2 && text[0] == '0' && text[1] == 'x' && AllHex(text[2..]) then Some(text[2..])
    else if text != "" && AllHex(text) then Some(text)
    else None
  }

  lemma HexPartIsNormalized(text: string)
    ensures IsHexText(text) <==> HexPart(text).Some?
    ensures IsHexText(text) ==> HexDigitsOf(text) == Lower(HexPart(text).value)
  {
    if |text| > 1 && text[1] == 'x' {
      assert !IsHexDigit(text[1]);
    }
    if |text| > 1 && text[1] == 'X' {
      assert !IsHexDigit(text[1]);
    }
  }

  /**
    A text becomes bytes exactly when, spaces aside, it is twice as many hex digits as bytes are
    expected, with or without 0x, in either case; the bytes are then those of the number.
  */
  lemma HexBytesExactlyWhen(t: string, size: nat)
    ensures var digits, b := HexPart(Strip(t)), HexToBytes(Some(t), size);
            && (b.Some? <==> digits.Some? && |digits.value| == 2 * size)
            && (b.Some? ==> |b.value| == size && FromBigEndian(b.value) == Number(digits.value, 16))
    ensures HexToBytes(None, size) == None
  {
    var digits := HexPart(Strip(t));
    HexPartIsNormalized(Strip(t));
    if digits.Some? && |digits.value| == 2 * size {
      NumberOfLower(digits.value, 16);
      NumberOfHexBytes(Lower(digits.value), size);
    }
  }

  /** A normalised text has lower-case digits only, of the same number, and the prefix exactly when asked for. */
  lemma NormalizedIsLower(t: string, size: nat)
    ensures var r := NormalizeHex(Some(t), size, false);
            && (r.Some? ==> forall i | 0 <= i < |r.value| :: '0' <= r.value[i] <= '9' || 'a' <= r.value[i] <= 'f')
            && (r.Some? ==> HexPart(Strip(t)).Some? && AllHex(r.value) && Number(r.value, 16) == Number(HexPart(Strip(t)).value, 16))
            && NormalizeHex(Some(t), size, true) == if r.Some? then Some("0x" + r.value) else None
  {
    HexPartIsNormalized(Strip(t));
    if HexPart(Strip(t)).Some? {
      NumberOfLower(HexPart(Strip(t)).value, 16);
      LowerIsLower(HexPart(Strip(t)).value);
    }
  }

  lemma LowerIsLower(s: string)
    requires AllHex(s)
    ensures forall i | 0 <= i < |s| :: '0' <= Lower(s)[i] <= '9' || 'a' <= Lower(s)[i] <= 'f'
  {
    assert forall i | 0 <= i < |s| :: IsHexDigit(s[i]) && Lower(s)[i] == LowerChar(s[i]);
  }

  // ----- what the notations mean -----

  lemma NumberSnoc(s: string, c: char, radix: nat)
    requires AllHex(s) && IsHexDigit(c)
    ensures Number(s + [c], radix) == Number(s, radix) * radix + DigitValue(c)
  {
    assert (s + [c])[..|s|] == s;
  }

  /** The lowest byte comes last, and before it the bytes of the rest. */
  lemma LowestByteLast(n: nat, size: nat)
    requires size > 0
    ensures var b := BigEndian(n, size);
            b[size - 1] == n % 256 && b[..size - 1] == BigEndian(n / 256, size - 1) && (size > 1 ==> b[size - 2] == n / 256 % 256)
  {
  }

  /** The values of the digits, upper and lower case, and of two-digit texts. */
  lemma NotationExamples()
    ensures DigitValue('0') == 0 && DigitValue('9') == 9 && DigitValue('a') == 10 == DigitValue('A') && DigitValue('f') == 15 == DigitValue('F')
    ensures Number("12", 10) == 12 && Number("1f", 16) == 31
  {
    assert "12" == ([] + ['1']) + ['2'] && "1f" == ([] + ['1']) + ['f'];
    NumberSnoc([], '1', 10);
    NumberSnoc([] + ['1'], '2', 10);
    NumberSnoc([], '1', 16);
    NumberSnoc([] + ['1'], 'f', 16);
  }
}

/**
 * The Sparkplug value codecs: boolean arrays, string arrays and signed integers (section 6.4.16 of Sparkplug 3.0.0).
 */
module SparkplugCodecs {
  import opened Wrappers
  import opened Splitting

  /** Python's struct.error, IndexError, and ValueError. */
  datatype CodecError = StructError | ShortData | BadText | OutOfRange

  // ------------------------------------------------------------------- bits of a byte

  function Pow2(w: nat): nat {
    if w == 0 then 1 else 2 * Pow2(w - 1)
  }

  /** The `w` binary digits of a number, most significant first. */
  function ToBits(n: nat, w: nat): (bits: seq<bool>)
    ensures |bits| == w
  {
    if w == 0 then [] else ToBits(n / 2, w - 1) + [n % 2 == 1]
  }

  function FromBits(bits: seq<bool>): nat {
    if bits == [] then 0 else 2 * FromBits(bits[..|bits| - 1]) + if bits[|bits| - 1] then 1 else 0
  }

  lemma {:induction false} FromToBits(n: nat, w: nat)
    requires n < Pow2(w)
    ensures FromBits(ToBits(n, w)) == n
  {
    if w > 0 {
      FromToBits(n / 2, w - 1);
      assert ToBits(n, w)[..w - 1] == ToBits(n / 2, w - 1);
    }
  }

  lemma {:induction false} ToFromBits(bits: seq<bool>)
    ensures FromBits(bits) < Pow2(|bits|)
    ensures ToBits(FromBits(bits), |bits|) == bits
  {
    if bits != [] {
      ToFromBits(bits[..|bits| - 1]);
    }
  }

  /** Whether `b & (1 << (7 - k))` is not zero. */
  predicate Bit(b: byte, k: nat)
    requires k < 8
  {
    ToBits(b, 8)[k]
  }

  function ByteOf(bits: seq<bool>): byte
    requires |bits| == 8
  {
    ToFromBits(bits);
    assert Pow2(8) == 0x100;
    FromBits(bits)
  }

  /** `b | (value << (7 - k))`. */
  function WithBit(b: byte, k: nat, value: bool): byte
    requires k < 8
  {
    ByteOf(ToBits(b, 8)[k := Bit(b, k) || value])
  }

  function Halved(n: nat, times: nat): nat {
    if times == 0 then n else Halved(n, times - 1) / 2
  }

  lemma {:induction false} HalvedFirst(n: nat, times: nat)
    ensures Halved(n / 2, times) == Halved(n, times + 1)
  {
    if times > 0 { HalvedFirst(n, times - 1); }
  }

  lemma {:induction false} DigitOfToBits(n: nat, w: nat, k: nat)
    requires k < w
    ensures ToBits(n, w)[k] <==> Halved(n, w - 1 - k) % 2 == 1
  {
    if k < w - 1 {
      DigitOfToBits(n / 2, w - 1, k);
      HalvedFirst(n, w - 2 - k);
    }
  }

  /** 2^(7 - k) */
  function Place(k: nat): nat
    requires k < 8
  {
    match k
    case 0 => 128 case 1 => 64 case 2 => 32 case 3 => 16 case 4 => 8 case 5 => 4 case 6 => 2 case _ => 1
  }

  lemma HalvedValues(n: nat)
    ensures Halved(n, 0) == n && Halved(n, 1) == n / 2 && Halved(n, 2) == n / 4 && Halved(n, 3) == n / 8
    ensures Halved(n, 4) == n / 16 && Halved(n, 5) == n / 32 && Halved(n, 6) == n / 64 && Halved(n, 7) == n / 128
  {
  }

  lemma HalvedIsQuotient(n: nat, k: nat)
    requires k < 8
    ensures Halved(n, 7 - k) == n / Place(k)
  {
    HalvedValues(n);
    match k
    case 0 => case 1 => case 2 => case 3 => case 4 => case 5 => case 6 => case _ =>
  }

  /** Bit `k` is the digit of 2^(7 - k): the most significant bit comes first. */
  lemma BitIsDigit(b: byte, k: nat)
    requires k < 8
    ensures Bit(b, k) <==> b / Place(k) % 2 == 1
  {
    DigitOfToBits(b, 8, k);
    HalvedIsQuotient(b, k);
  }

  lemma BitOfByteOf(bits: seq<bool>, k: nat)
    requires |bits| == 8 && k < 8
    ensures Bit(ByteOf(bits), k) == bits[k]
  {
    ToFromBits(bits);
  }

  /** A byte is its bits. */
  lemma SameBits(b: byte, c: byte)
    requires forall k :: 0 <= k < 8 ==> Bit(b, k) == Bit(c, k)
    ensures b == c
  {
    assert Pow2(8) == 0x100;
    FromToBits(b, 8);
    FromToBits(c, 8);
    assert forall k :: 0 <= k < 8 ==> Bit(b, k) == ToBits(b, 8)[k] && Bit(c, k) == ToBits(c, 8)[k];
    assert ToBits(b, 8) == ToBits(c, 8);
  }

  // -------------------------------------------------------------------- element count

  const COUNT_LIMIT := 0x1_0000_0000

  function Pow256(k: nat): nat {
    if k == 0 then 1 else 0x100 * Pow256(k - 1)
  }

  /** The number in `k` bytes, least significant first. */
  function LittleEndian(n: nat, k: nat): (bytes: Bytes)
    ensures |bytes| == k
  {
    if k == 0 then [] else [n % 0x100] + LittleEndian(n / 0x100, k - 1)
  }

  function ValueOf(bytes: Bytes): nat {
    if bytes == [] then 0 else bytes[0] as nat + 0x100 * ValueOf(bytes[1..])
  }

  lemma {:induction false} ValueOfLittleEndian(n: nat, k: nat)
    requires n < Pow256(k)
    ensures ValueOf(LittleEndian(n, k)) == n
  {
    if k > 0 { ValueOfLittleEndian(n / 0x100, k - 1); }
  }

  lemma LowAndHigh(low: byte, high: nat)
    ensures (low as nat + 0x100 * high) % 0x100 == low && (low as nat + 0x100 * high) / 0x100 == high
  {
  }

  lemma {:induction false} LittleEndianOfValue(bytes: Bytes)
    ensures ValueOf(bytes) < Pow256(|bytes|)
    ensures LittleEndian(ValueOf(bytes), |bytes|) == bytes
  {
    if bytes != [] {
      LittleEndianOfValue(bytes[1..]);
      LowAndHigh(bytes[0], ValueOf(bytes[1..]));
      assert [bytes[0]] + bytes[1..] == bytes;
    }
  }

  /** The sum that four bytes stand for. */
  function FourByteSum(bytes: Bytes): nat
    requires |bytes| >= 4
  {
    bytes[0] as nat + 0x100 * (bytes[1] as nat) + 0x1_0000 * (bytes[2] as nat) + 0x100_0000 * (bytes[3] as nat)
  }

  lemma ValueOfFourBytes(bytes: Bytes)
    requires |bytes| == 4
    ensures ValueOf(bytes) == FourByteSum(bytes)
  {
    assert bytes[1..][1..] == bytes[2..] && bytes[2..][1..] == bytes[3..] && bytes[3..][1..] == [];
    assert ValueOf(bytes[3..]) == bytes[3];
    assert ValueOf(bytes[2..]) == bytes[2] as nat + 0x100 * ValueOf(bytes[3..]);
    assert ValueOf(bytes[1..]) == bytes[1] as nat + 0x100 * ValueOf(bytes[2..]);
  }

  // ------------------------------------------------------------------- boolean arrays

  function At(values: seq<bool>, i: nat): bool {
    i < |values| && values[i]
  }

  function PackedLength(n: nat): nat {
    (n + 7) / 8
  }

  /** Eight values to a byte, most significant bit first, padded with zeros. */
  function Packed(values: seq<bool>): (packed: Bytes)
    ensures |packed| == PackedLength(|values|)
  {
    seq(PackedLength(|values|), b requires 0 <= b < PackedLength(|values|) =>
      ByteOf(seq(8, k requires 0 <= k < 8 => At(values, 8 * b + k))))
  }

  /** The bit of the `i`-th value. */
  predicate BitAt(packed: Bytes, i: nat)
    requires i < 8 * |packed|
  {
    Bit(packed[i / 8], i % 8)
  }

  lemma PackedBits(values: seq<bool>)
    ensures forall i :: 0 <= i < 8 * PackedLength(|values|) ==> BitAt(Packed(values), i) == At(values, i)
  {
    forall i | 0 <= i < 8 * PackedLength(|values|) ensures BitAt(Packed(values), i) == At(values, i) {
      BitOfByteOf(seq(8, k requires 0 <= k < 8 => At(values, 8 * (i / 8) + k)), i % 8);
    }
  }

  /** Packings are equal when they have the same bits. */
  lemma SamePacking(p: Bytes, q: Bytes)
    requires |p| == |q| && forall i :: 0 <= i < 8 * |p| ==> BitAt(p, i) == BitAt(q, i)
    ensures p == q
  {
    forall b | 0 <= b < |p| ensures p[b] == q[b] {
      forall k | 0 <= k < 8 ensures Bit(p[b], k) == Bit(q[b], k) {
        assert (8 * b + k) / 8 == b && (8 * b + k) % 8 == k;
        assert BitAt(p, 8 * b + k) == BitAt(q, 8 * b + k);
      }
      SameBits(p[b], q[b]);
    }
  }

  function EncodeBooleans(values: seq<bool>): Result<Bytes, CodecError> {
    if |values| >= COUNT_LIMIT then Err(StructError) else Ok(LittleEndian(|values|, 4) + Packed(values))
  }

  function DecodeBooleans(bytes: Bytes): Result<seq<bool>, CodecError> {
    if |bytes| < 4 then Err(StructError)
    else
      var count, packed := ValueOf(bytes[..4]), bytes[4..];
      if PackedLength(count) > |packed| then Err(ShortData)
      else Ok(seq(count, i requires 0 <= i < count => BitAt(packed, i)))
  }

  lemma {:induction false} EncodedParts(values: seq<bool>)
    requires |values| < COUNT_LIMIT
    ensures var bytes := EncodeBooleans(values).value;
            bytes[..4] == LittleEndian(|values|, 4) && bytes[4..] == Packed(values) && ValueOf(bytes[..4]) == |values|
  {
    assert Pow256(4) == COUNT_LIMIT;
    ValueOfLittleEndian(|values|, 4);
  }

  /** The bytes are the count, least significant byte first, and one bit per value, padded with zeros. */
  lemma BooleansLayout(values: seq<bool>)
    requires |values| < COUNT_LIMIT
    ensures var bytes := EncodeBooleans(values).value;
            && |bytes| == 4 + (|values| + 7) / 8
            && FourByteSum(bytes) == |values|
            && forall i :: 0 <= i < 8 * (|bytes| - 4) ==> BitAt(bytes[4..], i) == (i < |values| && values[i])
  {
    EncodedParts(values);
    PackedBits(values);
    ValueOfFourBytes(EncodeBooleans(values).value[..4]);
  }

  /** Boolean arrays of every length below 2^32 come back. */
  lemma BooleansRoundTrip(values: seq<bool>)
    ensures EncodeBooleans(values).Ok? <==> |values| < COUNT_LIMIT
    ensures EncodeBooleans(values).Ok? ==> DecodeBooleans(EncodeBooleans(values).value) == Ok(values)
  {
    if |values| < COUNT_LIMIT {
      EncodedParts(values);
      PackedBits(values);
      var decoded := DecodeBooleans(EncodeBooleans(values).value).value;
      assert forall i :: 0 <= i < |values| ==> decoded[i] == values[i];
      assert decoded == values;
    }
  }

  /** No surplus bytes, and zeros in the places after the last value. */
  predicate CanonicalBooleans(bytes: Bytes) {
    && |bytes| >= 4
    && var count, packed := ValueOf(bytes[..4]), bytes[4..];
    && |packed| == PackedLength(count)
    && forall i :: count <= i < 8 * |packed| ==> !BitAt(packed, i)
  }

  /** Decoded bytes are encoded back exactly when they are canonical. */
  lemma EncodingRestoresBytesIff(bytes: Bytes)
    requires DecodeBooleans(bytes).Ok?
    ensures EncodeBooleans(DecodeBooleans(bytes).value) == Ok(bytes) <==> CanonicalBooleans(bytes)
  {
    var values, packed := DecodeBooleans(bytes).value, bytes[4..];
    assert Pow256(4) == COUNT_LIMIT;
    LittleEndianOfValue(bytes[..4]);
    PackedBits(values);
    var again := EncodeBooleans(values).value;
    assert again[..4] == bytes[..4] && again[4..] == Packed(values);
    assert bytes == bytes[..4] + packed && again == again[..4] + again[4..];
    if CanonicalBooleans(bytes) {
      SamePacking(packed, Packed(values));
    }
  }

  // -------------------------------------------------------------------- string arrays

  /** A string by its UTF-8 bytes. */
  type Text = Bytes

  function HexDigit(n: nat): byte
    requires n < 16
  {
    if n < 10 then '0' as int + n else 'a' as int + n - 10
  }

  function Hex(text: Text): Bytes {
    if text == [] then [] else [HexDigit(text[0] / 16), HexDigit(text[0] % 16)] + Hex(text[1..])
  }

  predicate IsHexDigit(c: byte) {
    '0' as int <= c <= '9' as int || 'a' as int <= c <= 'f' as int || 'A' as int <= c <= 'F' as int
  }

  function HexValue(c: byte): (n: nat)
    requires IsHexDigit(c)
    ensures n < 16
  {
    if c <= '9' as int then c - '0' as int else if c <= 'F' as int then c - 'A' as int + 10 else c - 'a' as int + 10
  }

  predicate IsSpace(c: byte) {
    c == ' ' as int || 9 <= c <= 13
  }

  /** `bytes.fromhex`: pairs of digits in either case, with white space allowed between pairs. */
  function FromHex(s: Bytes): Result<Text, CodecError> {
    if s == [] then Ok([])
    else if IsSpace(s[0]) then FromHex(s[1..])
    else if |s| < 2 || !IsHexDigit(s[0]) || !IsHexDigit(s[1]) then Err(BadText)
    else
      match FromHex(s[2..])
      case Err(e) => Err(e)
      case Ok(rest) => Ok([16 * HexValue(s[0]) + HexValue(s[1])] + rest)
  }

  const DIGITS := "0123456789abcdef"
  const UPPER_DIGITS := "0123456789ABCDEF"

  /** A digit is one of sixteen, in either case, and stands for its place; white space is that of ASCII. */
  lemma DigitsIff(c: byte)
    ensures IsHexDigit(c) <==> exists n :: 0 <= n < 16 && (DIGITS[n] as int == c || UPPER_DIGITS[n] as int == c)
    ensures IsHexDigit(c) ==> DIGITS[HexValue(c)] as int == c || UPPER_DIGITS[HexValue(c)] as int == c
    ensures forall n :: 0 <= n < 16 ==> HexDigit(n) == DIGITS[n] as int
    ensures IsSpace(c) <==> c in {9, 10, 11, 12, 13, 32}
  {
    if IsHexDigit(c) {
      var n := HexValue(c);
      assert DIGITS[n] as int == c || UPPER_DIGITS[n] as int == c;
    }
  }

  predicate LowerHex(c: byte) {
    '0' as int <= c <= '9' as int || 'a' as int <= c <= 'f' as int
  }

  ghost predicate AllLowerHex(s: Bytes) {
    forall c :: c in s ==> LowerHex(c)
  }

  lemma {:induction false} FromHexOfHex(text: Text)
    ensures FromHex(Hex(text)) == Ok(text) && AllLowerHex(Hex(text))
  {
    if text != [] {
      FromHexOfHex(text[1..]);
      var high, low := HexDigit(text[0] / 16), HexDigit(text[0] % 16);
      assert HexValue(high) == text[0] / 16 && HexValue(low) == text[0] % 16;
      assert Hex(text)[2..] == Hex(text[1..]);
      assert [text[0]] + text[1..] == text;
    }
  }

  lemma PairOfDigits(high: byte, low: byte)
    requires LowerHex(high) && LowerHex(low)
    ensures var n := 16 * HexValue(high) + HexValue(low);
            n < 0x100 && HexDigit(n / 16) == high && HexDigit(n % 16) == low
    ensures !IsSpace(high)
  {
  }

  lemma {:induction false} HexOfFromHex(s: Bytes)
    requires FromHex(s).Ok? && forall i :: 0 <= i < |s| ==> LowerHex(s[i])
    ensures Hex(FromHex(s).value) == s
  {
    if |s| >= 2 {
      PairOfDigits(s[0], s[1]);
      HexOfFromHex(s[2..]);
      var text := FromHex(s).value;
      assert text == [16 * HexValue(s[0]) + HexValue(s[1])] + FromHex(s[2..]).value;
      assert [s[0], s[1]] + s[2..] == s;
    }
  }

  /** Every string in hex, each closed by a zero byte. */
  function EncodeStrings(values: seq<Text>): Bytes {
    if values == [] then [] else Hex(values[0]) + [0] + EncodeStrings(values[1..])
  }

  function DecodePieces(pieces: seq<Bytes>): Result<seq<Text>, CodecError> {
    if pieces == [] then Ok([])
    else
      match FromHex(pieces[0])
      case Err(e) => Err(e)
      case Ok(text) =>
        match DecodePieces(pieces[1..])
        case Err(e) => Err(e)
        case Ok(rest) => Ok([text] + rest)
  }

  /** What follows the last zero byte is dropped. */
  function DecodeStrings(bytes: Bytes): Result<seq<Text>, CodecError> {
    var pieces := Split(bytes, 0);
    DecodePieces(pieces[..|pieces| - 1])
  }

  function HexPieces(values: seq<Text>): seq<Bytes> {
    seq(|values|, i requires 0 <= i < |values| => Hex(values[i]))
  }

  lemma HexPiecesCons(values: seq<Text>)
    requires values != []
    ensures HexPieces(values) == [Hex(values[0])] + HexPieces(values[1..])
  {
  }

  lemma {:induction false} SplitEncoded(values: seq<Text>)
    ensures Split(EncodeStrings(values), 0) == HexPieces(values) + [[]]
  {
    if values != [] {
      SplitEncoded(values[1..]);
      FromHexOfHex(values[0]);
      SplitAtFirst(Hex(values[0]), 0, EncodeStrings(values[1..]));
      HexPiecesCons(values);
      assert [Hex(values[0])] + (HexPieces(values[1..]) + [[]]) == HexPieces(values) + [[]];
    }
  }

  lemma {:induction false} DecodeHexPieces(values: seq<Text>)
    ensures DecodePieces(HexPieces(values)) == Ok(values)
  {
    if values != [] {
      DecodeHexPieces(values[1..]);
      FromHexOfHex(values[0]);
      HexPiecesCons(values);
      assert HexPieces(values)[1..] == HexPieces(values[1..]);
      assert [values[0]] + values[1..] == values;
    }
  }

  /** Every list of strings comes back: empty lists, empty strings and zero bytes in strings included. */
  lemma StringsRoundTrip(values: seq<Text>)
    ensures DecodeStrings(EncodeStrings(values)) == Ok(values)
  {
    SplitEncoded(values);
    DecodeHexPieces(values);
    assert (HexPieces(values) + [[]])[..|values|] == HexPieces(values);
  }

  /** Lower-case digits and zero bytes only, the last byte zero. */
  ghost predicate CanonicalStrings(bytes: Bytes) {
    && (forall c :: c in bytes ==> LowerHex(c) || c == 0)
    && (bytes == [] || bytes[|bytes| - 1] == 0)
  }

  lemma {:induction false} EncodedIsCanonical(values: seq<Text>)
    ensures CanonicalStrings(EncodeStrings(values))
  {
    if values != [] {
      EncodedIsCanonical(values[1..]);
      FromHexOfHex(values[0]);
    }
  }

  /** The first piece is hexadecimal text, and the rest is canonical again. */
  lemma FirstPiece(bytes: Bytes, pieces: seq<Bytes>) returns (rest: Bytes)
    requires pieces == Split(bytes, 0) && |pieces| > 1 && CanonicalStrings(bytes)
    ensures bytes == pieces[0] + [0] + rest && Split(rest, 0) == pieces[1..] && CanonicalStrings(rest)
    ensures forall i :: 0 <= i < |pieces[0]| ==> LowerHex(pieces[0][i])
  {
    JoinOfSplit(bytes, 0);
    SplitIsSeparatorFree(bytes, 0);
    rest := Join(pieces[1..], 0);
    assert bytes == pieces[0] + [0] + rest;
    SplitAtFirst(pieces[0], 0, rest);
    assert rest != [] ==> rest[|rest| - 1] == bytes[|bytes| - 1];
    forall c | c in rest ensures LowerHex(c) || c == 0 {
      assert c in bytes;
    }
    forall i | 0 <= i < |pieces[0]| ensures LowerHex(pieces[0][i]) {
      assert bytes[i] == pieces[0][i] && bytes[i] in bytes;
    }
  }

  lemma DecodePiecesCons(pieces: seq<Bytes>)
    requires pieces != [] && DecodePieces(pieces).Ok?
    ensures FromHex(pieces[0]).Ok? && DecodePieces(pieces[1..]).Ok?
    ensures EncodeStrings(DecodePieces(pieces).value)
            == Hex(FromHex(pieces[0]).value) + [0] + EncodeStrings(DecodePieces(pieces[1..]).value)
  {
  }

  lemma {:induction false} EncodeDecoded(bytes: Bytes, pieces: seq<Bytes>)
    requires pieces == Split(bytes, 0) && DecodePieces(pieces[..|pieces| - 1]).Ok? && CanonicalStrings(bytes)
    ensures EncodeStrings(DecodePieces(pieces[..|pieces| - 1]).value) == bytes
    decreases |pieces|
  {
    if |pieces| == 1 {
      JoinOfSplit(bytes, 0);
      SplitIsSeparatorFree(bytes, 0);
      assert bytes == pieces[0];
      assert bytes == [];
    } else {
      var rest := FirstPiece(bytes, pieces);
      assert pieces[..|pieces| - 1][1..] == pieces[1..][..|pieces| - 2];
      DecodePiecesCons(pieces[..|pieces| - 1]);
      EncodeDecoded(rest, pieces[1..]);
      HexOfFromHex(pieces[0]);
    }
  }

  /** Decoded bytes are encoded back exactly when they are canonical. */
  lemma EncodingRestoresStringsIff(bytes: Bytes)
    requires DecodeStrings(bytes).Ok?
    ensures EncodeStrings(DecodeStrings(bytes).value) == bytes <==> CanonicalStrings(bytes)
  {
    EncodedIsCanonical(DecodeStrings(bytes).value);
    if CanonicalStrings(bytes) {
      EncodeDecoded(bytes, Split(bytes, 0));
    }
  }

  // ---------------------------------------------------------------- signed integers

  /** The signed types with their width, and the unsigned field of the message that carries them. */
  datatype IntType = Int8 | Int16 | Int32 | Int64 {
    function Modulus(): nat {
      match this
      case Int8 => 0x100
      case Int16 => 0x1_0000
      case Int32 => 0x1_0000_0000
      case Int64 => 0x1_0000_0000_0000_0000
    }

    function Capacity(): nat {
      if Int64? then 0x1_0000_0000_0000_0000 else 0x1_0000_0000
    }
  }

  /** Negative values move up by the modulus; the field refuses what it cannot hold. */
  function Unsigned(t: IntType, value: int): Result<nat, CodecError> {
    var stored := if value < 0 then value + t.Modulus() else value;
    if 0 <= stored < t.Capacity() then Ok(stored) else Err(OutOfRange)
  }

  function Signed(t: IntType, stored: nat): int {
    if stored >= t.Modulus() / 2 then stored - t.Modulus() else stored
  }

  /**
   * A stored value is read back exactly when it is in the range of its type, and a field is restored by what was read
   * from it exactly when it was within the width.
   */
  lemma SignedRoundTripIff(t: IntType, value: int, stored: nat)
    requires stored < if t.Int64? then 0x1_0000_0000_0000_0000 else 0x1_0000_0000
    ensures Unsigned(t, value).Ok? && Signed(t, Unsigned(t, value).value) == value
            <==> match t
                 case Int8 => -0x80 <= value <= 0x7F
                 case Int16 => -0x8000 <= value <= 0x7FFF
                 case Int32 => -0x8000_0000 <= value <= 0x7FFF_FFFF
                 case Int64 => -0x8000_0000_0000_0000 <= value <= 0x7FFF_FFFF_FFFF_FFFF
    ensures Unsigned(t, Signed(t, stored)) == Ok(stored)
            <==> match t
                 case Int8 => stored <= 0xFF
                 case Int16 => stored <= 0xFFFF
                 case Int32 => true
                 case Int64 => true
  {
  }

  /** What a field accepts, and that it holds the value as its two's complement. */
  lemma StoredIff(t: IntType, value: int)
    ensures Unsigned(t, value).Ok?
            <==> match t
                 case Int8 => -0x100 <= value <= 0xFFFF_FFFF
                 case Int16 => -0x1_0000 <= value <= 0xFFFF_FFFF
                 case Int32 => -0x1_0000_0000 <= value <= 0xFFFF_FFFF
                 case Int64 => -0x1_0000_0000_0000_0000 <= value <= 0xFFFF_FFFF_FFFF_FFFF
    ensures Unsigned(t, value).Ok? && value >= 0 ==> Unsigned(t, value).value == value
    ensures Unsigned(t, value).Err? ==> Unsigned(t, value).error == OutOfRange
  {
  }

  // --------------------------------------------------------------- the message object

  /** Setting one bit of a packing leaves the others. */
  lemma WithBitAt(packed: Bytes, i: nat, value: bool)
    requires i < 8 * |packed|
    ensures var packed' := packed[i / 8 := WithBit(packed[i / 8], i % 8, value)];
            forall j :: 0 <= j < 8 * |packed| ==>
                BitAt(packed', j) == if j == i then BitAt(packed, j) || value else BitAt(packed, j)
  {
    var packed' := packed[i / 8 := WithBit(packed[i / 8], i % 8, value)];
    forall j | 0 <= j < 8 * |packed|
      ensures BitAt(packed', j) == if j == i then BitAt(packed, j) || value else BitAt(packed, j)
    {
      if j / 8 == i / 8 {
        BitOfByteOf(ToBits(packed[i / 8], 8)[i % 8 := Bit(packed[i / 8], i % 8) || value], j % 8);
        assert j == i <==> j % 8 == i % 8;
      }
    }
  }

  class SpbObject {
    var intValue: nat
    var longValue: nat
    var bytesValue: Bytes

    method SetSigned(t: IntType, value: int) returns (r: Result<nat, CodecError>)
      modifies this
      ensures r == Unsigned(t, value)
      ensures bytesValue == old(bytesValue)
      ensures intValue == if r.Ok? && !t.Int64? then r.value else old(intValue)
      ensures longValue == if r.Ok? && t.Int64? then r.value else old(longValue)
    {
      var stored := value;
      if value < 0 {
        stored := value + t.Modulus();
      }
      if stored < 0 || stored >= t.Capacity() {
        return Err(OutOfRange);
      }
      if t.Int64? {
        longValue := stored;
      } else {
        intValue := stored;
      }
      r := Ok(stored);
    }

    method GetSigned(t: IntType) returns (value: int)
      ensures value == Signed(t, if t.Int64? then longValue else intValue)
    {
      var unsigned := if t.Int64? then longValue else intValue;
      if unsigned >= t.Modulus() / 2 {
        value := unsigned - t.Modulus();
      } else {
        value := unsigned;
      }
    }

    /** Bits are set one by one in a buffer of zeros. */
    method SetBooleans(values: seq<bool>) returns (r: Result<Bytes, CodecError>)
      modifies this
      ensures r == EncodeBooleans(values)
      ensures intValue == old(intValue) && longValue == old(longValue)
      ensures bytesValue == if r.Ok? then r.value else old(bytesValue)
    {
      var packed := new byte[PackedLength(|values|)](_ => 0);
      for i := 0 to |values|
        invariant fresh(packed) && packed.Length == PackedLength(|values|)
        invariant unchanged(this)
        invariant forall j :: 0 <= j < 8 * packed.Length ==> BitAt(packed[..], j) == (j < i && values[j])
      {
        ghost var before := packed[..];
        packed[i / 8] := WithBit(packed[i / 8], i % 8, values[i]);
        WithBitAt(before, i, values[i]);
        assert packed[..] == before[i / 8 := WithBit(before[i / 8], i % 8, values[i])];
      }
      PackedBits(values);
      SamePacking(packed[..], Packed(values));
      if |values| >= COUNT_LIMIT {
        return Err(StructError);
      }
      bytesValue := LittleEndian(|values|, 4) + packed[..];
      r := Ok(bytesValue);
    }
  }
}

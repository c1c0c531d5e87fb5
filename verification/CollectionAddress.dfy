/** The EVM address of a collection and the way back to its id, with JavaScript's 32-bit shifts. */
module CollectionAddress {
  import opened Common

  const TWO_32 := 0x1_0000_0000

  /** JavaScript's ToInt32: bitwise operators see the low 32 bits as a signed number. */
  function ToInt32(x: int): int {
    var u := x % TWO_32;
    if u >= 0x8000_0000 then u - TWO_32 else u
  }

  /** `x >> bits` for the shifts used here: arithmetic, so a negative number stays negative. */
  function ShiftRight(x: int, bits: nat): int
    requires bits == 8 || bits == 16 || bits == 24
  {
    var divisor := if bits == 8 then 0x100 else if bits == 16 then 0x1_0000 else 0x100_0000;
    ToInt32(x) / divisor
  }

  /** `x & 0xff`. */
  function LowByte(x: int): int {
    ToInt32(x) % 0x100
  }

  /** Storing a number in a buffer keeps it modulo 256. */
  function Stored(x: int): (b: int)
    ensures 0 <= b < 256
  {
    x % 0x100
  }

  const PREFIX: seq<int> :=
    [0x17, 0xc4, 0xe6, 0x45, 0x3c, 0xc4, 0x9a, 0xaa, 0xae, 0xac, 0xa8, 0x94, 0xe6, 0xd9, 0x68, 0x3e]

  /** The four bytes computed from the id. */
  function IdTail(id: int): (r: seq<int>)
    ensures |r| == 4 && forall k :: 0 <= k < 4 ==> 0 <= r[k] < 256
  {
    [Stored(ShiftRight(id, 24)), Stored(LowByte(ShiftRight(id, 16))), Stored(LowByte(ShiftRight(id, 8))),
        Stored(LowByte(id))]
  }

  function AddressBytes(id: int): (r: seq<int>)
    ensures |r| == 20 && r[16..] == IdTail(id)
  {
    PREFIX + IdTail(id)
  }

  const LOWER := "0123456789abcdef"
  const UPPER := "0123456789ABCDEF"

  function HexChar(digit: int, upper: bool): char
    requires 0 <= digit < 16
  {
    if upper then UPPER[digit] else LOWER[digit]
  }

  function Digit(bytes: seq<int>, i: nat): (d: int)
    requires i < 2 * |bytes| && forall k :: 0 <= k < |bytes| ==> 0 <= bytes[k] < 256
    ensures 0 <= d < 16
  {
    if i % 2 == 0 then bytes[i / 2] / 16 else bytes[i / 2] % 16
  }

  /** `collectionIdToAddress`. `upper` stands for the checksum, which chooses the case of each hex digit. */
  function CollectionIdToAddress(id: int, upper: nat -> bool): Result<string> {
    if id >= 0xffff_ffff || id < 0 then Err
    else
      var bytes := AddressBytes(id);
      Ok("0x" + seq(40, i requires 0 <= i < 40 => HexChar(Digit(bytes, i), upper(i))))
  }

  function HexValue(c: char): (v: Option<int>)
    ensures v.Some? ==> 0 <= v.value < 16
  {
    if '0' <= c <= '9' then Some(c as int - '0' as int)
    else if 'a' <= c <= 'f' then Some(c as int - 'a' as int + 10)
    else if 'A' <= c <= 'F' then Some(c as int - 'A' as int + 10)
    else None
  }

  /** `parseInt(s, 16)` continues up to the first character that is no hex digit. */
  function ParseHex(s: string, acc: int): int {
    if s == [] || HexValue(s[0]).None? then acc else ParseHex(s[1..], acc * 16 + HexValue(s[0]).value)
  }

  /** `extractCollectionIdFromAddress`; None is NaN. */
  function ExtractCollectionId(address: string): Result<Option<int>> {
    if |address| != 42 && |address| != 40 then Err
    else
      var tail := address[|address| - 8..];
      Ok(if HexValue(tail[0]).None? then None else Some(ParseHex(tail, 0)))
  }

  // ---------- the round trip ----------

  lemma HexCharValue(digit: int, upper: bool)
    requires 0 <= digit < 16
    ensures HexValue(HexChar(digit, upper)) == Some(digit)
  {}

  lemma SameLowByte(x: int, k: int)
    ensures (x + 0x100 * k) % 0x100 == x % 0x100
  {}

  /** Only multiples of 2^32 separate a number from what the bitwise operators see. */
  lemma LowByteOf(x: int)
    ensures LowByte(x) == x % 0x100
  {
    var k := x / TWO_32 + if x % TWO_32 >= 0x8000_0000 then 1 else 0;
    assert ToInt32(x) == x - k * TWO_32;
    SameLowByte(x, -k * 0x100_0000);
  }

  /** A shift of an id with the sign bit set is the plain quotient less a multiple of 256. */
  lemma ShiftedByte(id: int, bits: nat)
    requires 0 <= id < TWO_32 && (bits == 8 || bits == 16 || bits == 24)
    ensures ShiftRight(id, bits) % 0x100 ==
        (if bits == 8 then id / 0x100 else if bits == 16 then id / 0x1_0000 else id / 0x100_0000) % 0x100
  {
    assert id % TWO_32 == id;
    if id >= 0x8000_0000 {
      if bits == 8 {
        assert (id - TWO_32) / 0x100 == id / 0x100 - 0x100_0000;
        SameLowByte(id / 0x100, -0x1_0000);
      } else if bits == 16 {
        assert (id - TWO_32) / 0x1_0000 == id / 0x1_0000 - 0x1_0000;
        SameLowByte(id / 0x1_0000, -0x100);
      } else {
        assert (id - TWO_32) / 0x100_0000 == id / 0x100_0000 - 0x100;
        SameLowByte(id / 0x100_0000, -1);
      }
    }
  }

  /** Masking a shifted id, as the two middle bytes do, gives the same byte as storing it. */
  lemma MaskedByte(id: int, bits: nat)
    requires 0 <= id < TWO_32 && (bits == 8 || bits == 16)
    ensures Stored(LowByte(ShiftRight(id, bits))) == (if bits == 8 then id / 0x100 else id / 0x1_0000) % 0x100
  {
    var shifted := ShiftRight(id, bits);
    ShiftedByte(id, bits);
    LowByteOf(shifted);
    Remainder(shifted);
  }

  lemma Remainder(x: int)
    ensures x % 0x100 % 0x100 == x % 0x100
  {}

  /** The four stored bytes are the id in base 256, also when the shift sees a negative number. */
  lemma IdBytes(id: int)
    requires 0 <= id < TWO_32
    ensures var b := IdTail(id);
      ((b[0] * 256 + b[1]) * 256 + b[2]) * 256 + b[3] == id
  {
    var b := IdTail(id);
    ShiftedByte(id, 24);
    MaskedByte(id, 16);
    MaskedByte(id, 8);
    LowByteOf(id);
    Remainder(id);
    BaseDigits(id, b[0], b[1], b[2], b[3]);
  }

  lemma BaseDigits(id: int, b3: int, b2: int, b1: int, b0: int)
    requires 0 <= id < TWO_32
    requires b3 == id / 0x100_0000 % 0x100 && b2 == id / 0x1_0000 % 0x100 && b1 == id / 0x100 % 0x100 && b0 == id % 0x100
    ensures ((b3 * 256 + b2) * 256 + b1) * 256 + b0 == id
  {
    assert id / 0x1_0000 == id / 0x100 / 0x100;
    assert id / 0x100_0000 == id / 0x1_0000 / 0x100;
    assert id / 0x100_0000 < 0x100;
  }

  /** The value of hex digits, most significant first. */
  function DigitsValue(ds: seq<int>, acc: int): int {
    if ds == [] then acc else DigitsValue(ds[1..], acc * 16 + ds[0])
  }

  lemma {:induction false} ParseHexDigits(s: string, ds: seq<int>, acc: int)
    requires |s| == |ds| && forall i :: 0 <= i < |s| ==> HexValue(s[i]) == Some(ds[i])
    ensures ParseHex(s, acc) == DigitsValue(ds, acc)
  {
    if s != [] {
      ParseHexDigits(s[1..], ds[1..], acc * 16 + ds[0]);
    }
  }

  lemma ByteDigits(b: int, rest: seq<int>, acc: int)
    requires 0 <= b < 256
    ensures DigitsValue([b / 16, b % 16] + rest, acc) == DigitsValue(rest, acc * 256 + b)
  {
    var ds := [b / 16, b % 16] + rest;
    assert ds[1..] == [b % 16] + rest;
    assert ds[1..][1..] == rest;
    assert (acc * 16 + b / 16) * 16 + b % 16 == acc * 256 + b;
  }

  /** The hex digits of the last four bytes. */
  function TailDigits(b: seq<int>): (ds: seq<int>)
    requires |b| == 20 && forall k :: 0 <= k < 20 ==> 0 <= b[k] < 256
    ensures |ds| == 8
  {
    [b[16] / 16, b[16] % 16] + ([b[17] / 16, b[17] % 16] + ([b[18] / 16, b[18] % 16] + ([b[19] / 16, b[19] % 16] + [])))
  }

  lemma TailValue(b: seq<int>)
    requires |b| == 20 && forall k :: 0 <= k < 20 ==> 0 <= b[k] < 256
    ensures DigitsValue(TailDigits(b), 0) == ((b[16] * 256 + b[17]) * 256 + b[18]) * 256 + b[19]
  {
    ByteDigits(b[16], [b[17] / 16, b[17] % 16] + ([b[18] / 16, b[18] % 16] + ([b[19] / 16, b[19] % 16] + [])), 0);
    ByteDigits(b[17], [b[18] / 16, b[18] % 16] + ([b[19] / 16, b[19] % 16] + []), b[16]);
    ByteDigits(b[18], [b[19] / 16, b[19] % 16] + [], b[16] * 256 + b[17]);
    ByteDigits(b[19], [], (b[16] * 256 + b[17]) * 256 + b[18]);
  }

  lemma TailDigit(b: seq<int>, i: nat)
    requires i < 8 && |b| == 20 && forall k :: 0 <= k < 20 ==> 0 <= b[k] < 256
    ensures TailDigits(b)[i] == Digit(b, 32 + i)
  {
    assert (32 + i) / 2 == 16 + i / 2 && (32 + i) % 2 == i % 2;
  }

  /** The last eight characters of an address are the hex digits of its last four bytes, in either case. */
  lemma TailCharacters(id: int, upper: nat -> bool)
    requires 0 <= id < 0xffff_ffff
    ensures var address, ds := CollectionIdToAddress(id, upper).value, TailDigits(AddressBytes(id));
      |address| == 42 && forall i :: 0 <= i < 8 ==> HexValue(address[34..][i]) == Some(ds[i])
  {
    var b := AddressBytes(id);
    var address := CollectionIdToAddress(id, upper).value;
    forall i | 0 <= i < 8 ensures HexValue(address[34..][i]) == Some(TailDigits(b)[i]) {
      assert address[34..][i] == HexChar(Digit(b, 32 + i), upper(32 + i));
      HexCharValue(Digit(b, 32 + i), upper(32 + i));
      TailDigit(b, i);
    }
  }

  /**
   * Extracting the id from a collection's address gives the id back, for every id that has an address and
   * whatever case the checksum gives to the digits.
   */
  lemma AddressRoundTrip(id: int, upper: nat -> bool)
    requires 0 <= id < 0xffff_ffff
    ensures var address := CollectionIdToAddress(id, upper);
      address.Ok? && |address.value| == 42 && ExtractCollectionId(address.value) == Ok(Some(id))
  {
    var b := AddressBytes(id);
    TailCharacters(id, upper);
    ParseHexDigits(CollectionIdToAddress(id, upper).value[34..], TailDigits(b), 0);
    TailValue(b);
    IdBytes(id);
    assert forall k :: 0 <= k < 4 ==> b[16 + k] == b[16..][k];
  }

  /** The errors: ids outside the range have no address, and only texts of two lengths are read, with or without "0x". */
  lemma ErrorsExactly(id: int, upper: nat -> bool, text: string)
    ensures CollectionIdToAddress(id, upper).Err? <==> id < 0 || id >= 0xffff_ffff
    ensures ExtractCollectionId(text).Err? <==> |text| != 40 && |text| != 42
    ensures ExtractCollectionId(text) == Ok(None) <==>
      (|text| == 40 || |text| == 42) && HexValue(text[|text| - 8]).None?
  {}

  /** The id also comes back from an address without its "0x". */
  lemma BareRoundTrip(id: int, upper: nat -> bool)
    requires 0 <= id < 0xffff_ffff
    ensures ExtractCollectionId(CollectionIdToAddress(id, upper).value[2..]) == Ok(Some(id))
  {
    var address := CollectionIdToAddress(id, upper).value;
    AddressRoundTrip(id, upper);
    assert address[2..][32..] == address[34..];
  }

  /** The bytes that every collection's address begins with, as text. */
  const COMMON := "17c4e6453cc49aaaaeaca894e6d9683e"

  /** Every collection's address begins with "0x" and the same 32 digits, up to their case. */
  lemma AddressBeginning(id: int, upper: nat -> bool)
    requires 0 <= id < 0xffff_ffff
    ensures var address := CollectionIdToAddress(id, upper).value;
      && |address| == 42 && address[..2] == "0x"
      && forall i :: 0 <= i < 32 ==> HexValue(address[2..][i]) == HexValue(COMMON[i])
  {
    var address := CollectionIdToAddress(id, upper).value;
    forall i | 0 <= i < 32 ensures HexValue(address[2..][i]) == HexValue(COMMON[i]) {
      AddressDigit(id, upper, i);
      assert AddressBytes(id)[i / 2] == PREFIX[i / 2];
      CommonDigit(i);
    }
  }

  lemma AddressDigit(id: int, upper: nat -> bool, i: nat)
    requires 0 <= id < 0xffff_ffff && i < 40
    ensures var address := CollectionIdToAddress(id, upper).value;
      |address| == 42 && HexValue(address[2..][i]) == Some(Digit(AddressBytes(id), i))
  {
    HexCharValue(Digit(AddressBytes(id), i), upper(i));
  }

  lemma DigitWritten(text: string, bytes: seq<int>, i: nat)
    requires i < |text| == 2 * |bytes| && forall k :: 0 <= k < |bytes| ==> 0 <= bytes[k] < 256
    requires WrittenAs(bytes[i / 2], text[i / 2 * 2], text[i / 2 * 2 + 1])
    ensures HexValue(text[i]) == Some(Digit(bytes, i))
  {}

  lemma CommonDigit(i: nat)
    requires i < 32
    ensures HexValue(COMMON[i]) == Some(Digit(PREFIX, i))
  {
    assert WrittenAs(PREFIX[i / 2], COMMON[i / 2 * 2], COMMON[i / 2 * 2 + 1]) by {
      CommonByte(i / 2);
    }
    DigitWritten(COMMON, PREFIX, i);
  }

  lemma CommonByte(k: nat)
    requires k < 16
    ensures WrittenAs(PREFIX[k], COMMON[k * 2], COMMON[k * 2 + 1])
  {
    if k < 8 {
      FirstHalf(k);
    } else {
      SecondHalf(k);
    }
  }

  predicate WrittenAs(b: int, high: char, low: char) {
    HexValue(high) == Some(b / 16) && HexValue(low) == Some(b % 16)
  }

  lemma FirstHalf(k: nat)
    requires k < 8
    ensures WrittenAs(PREFIX[k], COMMON[k * 2], COMMON[k * 2 + 1])
  {}

  lemma SecondHalf(k: nat)
    requires 8 <= k < 16
    ensures WrittenAs(PREFIX[k], COMMON[k * 2], COMMON[k * 2 + 1])
  {}

  /** Different collections never share an address, not even up to the case of its digits. */
  lemma AddressesAreDistinct(id: int, id': int, upper: nat -> bool, upper': nat -> bool)
    requires CollectionIdToAddress(id, upper).Ok? && CollectionIdToAddress(id', upper').Ok?
    requires CollectionIdToAddress(id, upper) == CollectionIdToAddress(id', upper')
    ensures id == id'
  {
    AddressRoundTrip(id, upper);
    AddressRoundTrip(id', upper');
  }
}

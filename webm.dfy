/** The WebM header walker: EBML variable-size integers (element IDs and element
    data sizes, RFC 8794 sections 4 to 6) read from a byte buffer, and the walk over
    the element tree that picks up a video's pixel width and height. */
module Webm {
  import opened Common

  const TwoTo31: int := 0x8000_0000
  const TwoTo32: int := 0x1_0000_0000

  function Pow256(k: nat): (r: nat)
    ensures r >= 1
  {
    if k == 0 then 1 else 256 * Pow256(k - 1)
  }

  /** JavaScript's conversion of a number to a signed 32-bit integer. */
  function ToInt32(x: int): (r: int)
    ensures -TwoTo31 <= r < TwoTo31
    ensures -TwoTo31 <= x < TwoTo31 ==> r == x
  {
    (x + TwoTo31) % TwoTo32 - TwoTo31
  }

  /** `(v << 8) + b`: the shift works on 32-bit integers, the addition does not. */
  function ShiftIn(v: int, b: byte): int {
    ToInt32(v * 256) + b
  }

  /** The accumulation loop of `decodeBytes` and `scanDataValueU`. */
  function ShiftInAll(v: int, bs: seq<byte>): int
    decreases |bs|
  {
    if bs == [] then v else ShiftInAll(ShiftIn(v, bs[0]), bs[1..])
  }

  /** The same accumulation in exact arithmetic: `acc` followed by the bytes, read
      big-endian. */
  function BigEndianFrom(acc: int, bs: seq<byte>): int
    decreases |bs|
  {
    if bs == [] then acc else BigEndianFrom(acc * 256 + bs[0], bs[1..])
  }

  function BigEndian(bs: seq<byte>): int {
    BigEndianFrom(0, bs)
  }

  /** The leading accumulator contributes its value shifted past all the bytes. */
  lemma {:induction false} BigEndianLinear(acc: int, bs: seq<byte>)
    ensures BigEndianFrom(acc, bs) == acc * Pow256(|bs|) + BigEndian(bs)
    decreases |bs|
  {
    if bs != [] {
      BigEndianLinear(acc * 256 + bs[0], bs[1..]);
      BigEndianLinear(bs[0], bs[1..]);
      assert BigEndian(bs) == BigEndianFrom(bs[0], bs[1..]);
      assert (acc * 256 + bs[0]) * Pow256(|bs| - 1) == acc * Pow256(|bs|) + bs[0] * Pow256(|bs| - 1);
    }
  }

  lemma {:induction false} BigEndianBounds(bs: seq<byte>)
    ensures 0 <= BigEndian(bs) < Pow256(|bs|)
    decreases |bs|
  {
    if bs != [] {
      BigEndianLinear(bs[0], bs[1..]);
      BigEndianBounds(bs[1..]);
      assert BigEndian(bs) == bs[0] * Pow256(|bs| - 1) + BigEndian(bs[1..]);
      assert bs[0] * Pow256(|bs| - 1) <= 255 * Pow256(|bs| - 1);
    }
  }

  /** Two numbers that differ by a multiple of 2^32 convert to the same 32-bit integer. */
  lemma {:induction false} ToInt32Shift(x: int, k: int)
    ensures ToInt32(x + k * TwoTo32) == ToInt32(x)
  {
    var a := x + TwoTo31;
    var q := a / TwoTo32;
    var r := a % TwoTo32;
    assert a + k * TwoTo32 == (q + k) * TwoTo32 + r;
    assert (a + k * TwoTo32) / TwoTo32 == q + k;
  }

  /** One step of the 32-bit accumulation is the 32-bit conversion of the exact step,
      and stays within 32 bits. */
  lemma {:induction false} ShiftInExact(v: int, b: byte)
    ensures ShiftIn(v, b) == ToInt32(v * 256 + b)
  {
    var a := v * 256 + TwoTo31;
    var q := a / TwoTo32;
    var r := a % TwoTo32;
    assert a == q * TwoTo32 + r;
    assert r == 256 * (v + 0x80_0000 - q * 0x100_0000);
    assert r <= TwoTo32 - 256;
    var s := ShiftIn(v, b);
    assert s == r - TwoTo31 + b;
    assert v * 256 + b == s + q * TwoTo32;
    ToInt32Shift(s, q);
  }

  /** A number and its 32-bit conversion differ by a multiple of 2^32. */
  lemma {:induction false} ToInt32Diff(x: int)
    ensures x - ToInt32(x) == ((x + TwoTo31) / TwoTo32) * TwoTo32
  {
  }

  /** Offsetting the accumulator by a multiple of 2^32 offsets the exact value by a
      multiple of 2^32. */
  lemma {:induction false} BigEndianCongruent(c: int, k: int, bs: seq<byte>)
    ensures BigEndianFrom(c + k * TwoTo32, bs) == BigEndianFrom(c, bs) + (k * Pow256(|bs|)) * TwoTo32
  {
    BigEndianLinear(c + k * TwoTo32, bs);
    BigEndianLinear(c, bs);
    var p := Pow256(|bs|);
    assert (c + k * TwoTo32) * p == c * p + (k * p) * TwoTo32;
  }

  /** The 32-bit accumulation is the exact value converted to 32 bits: it agrees with
      the exact value whenever that is below 2^31. */
  lemma {:induction false} ShiftInAllExact(v: int, bs: seq<byte>)
    requires -TwoTo31 <= v < TwoTo31
    ensures ShiftInAll(v, bs) == ToInt32(BigEndianFrom(v, bs))
    decreases |bs|
  {
    if bs != [] {
      var x := v * 256 + bs[0];
      var w := ShiftIn(v, bs[0]);
      var rest := bs[1..];
      ShiftInExact(v, bs[0]);
      ShiftInAllExact(w, rest);
      ToInt32Diff(x);
      var k := -((x + TwoTo31) / TwoTo32);
      assert w == x + k * TwoTo32;
      BigEndianCongruent(x, k, rest);
      ToInt32Shift(BigEndianFrom(x, rest), k * Pow256(|rest|));
    }
  }

  /** An upper-case hexadecimal digit: `0`-`9`, then `A`-`F`. */
  function HexDigit(n: nat): char
    requires n < 16
  {
    (if n < 10 then 48 + n else 55 + n) as char
  }

  /** A lower-case hexadecimal digit, as `toString(16)` writes it. */
  function LowerDigit(n: nat): char
    requires n < 16
  {
    (if n < 10 then 48 + n else 87 + n) as char
  }

  /** `n.toString(16)`: lower-case digits, no leading zeros. */
  function LowerHex(n: nat): (s: string)
    ensures |s| >= 1
  {
    if n < 16 then [LowerDigit(n)] else LowerHex(n / 16) + [LowerDigit(n % 16)]
  }

  function UpperChar(c: char): char {
    if 'a' <= c <= 'z' then (c as int - 32) as char else c
  }

  /** `toUpperCase` on the ASCII letters. */
  function ToUpper(s: string): (r: string)
    ensures |r| == |s| && forall i :: 0 <= i < |s| ==> r[i] == UpperChar(s[i])
  {
    seq(|s|, i requires 0 <= i < |s| => UpperChar(s[i]))
  }

  /** A byte's two upper-case hexadecimal digits, zero-padded. */
  function Hex(b: byte): string {
    [HexDigit(b / 16), HexDigit(b % 16)]
  }

  /** `byteToHex`: `'0' + b.toString(16)`, its last two characters, upper-cased. */
  function ByteToHex(b: byte): (r: string)
    ensures r == Hex(b)
  {
    var str := "0" + LowerHex(b);
    assert b < 16 ==> str == ['0', LowerDigit(b)];
    assert b >= 16 ==> LowerHex(b / 16) == [LowerDigit(b / 16)];
    assert b >= 16 ==> str[|str| - 2..] == [LowerDigit(b / 16), LowerDigit(b % 16)];
    ToUpper(str[|str| - 2..])
  }

  /** Different bytes have different spellings. */
  lemma {:induction false} ByteToHexInjective(a: byte, b: byte)
    requires ByteToHex(a) == ByteToHex(b)
    ensures a == b
  {
    assert ByteToHex(a)[0] == ByteToHex(b)[0] && ByteToHex(a)[1] == ByteToHex(b)[1];
    assert a / 16 == b / 16 && a % 16 == b % 16;
  }

  /** The `[HH][HH]…` spelling of a run of bytes. */
  function Spelling(bs: seq<byte>): string
    decreases |bs|
  {
    if bs == [] then "" else "[" + Hex(bs[0]) + "]" + Spelling(bs[1..])
  }

  lemma {:induction false} SpellingSnoc(bs: seq<byte>, b: byte)
    ensures Spelling(bs + [b]) == Spelling(bs) + "[" + Hex(b) + "]"
    decreases |bs|
  {
    if bs == [] {
      assert [b][1..] == [];
    } else {
      assert (bs + [b])[1..] == bs[1..] + [b];
      SpellingSnoc(bs[1..], b);
    }
  }

  /** A scan: the read ran past the buffer (which throws), the first byte has no
      marker bit in the positions the scan accepts, or the decoded integer. */
  datatype Scan = Threw | NoMarker | Scanned(str: string, size: nat, value: int)

  /** The bit of the first byte that marks a width of `w`: 0x80 for one byte down to
      0x01 for eight. The masks of the source are one less (0xff for an ID, whose
      marker is kept). */
  function Marker(w: nat): (m: nat)
    requires 1 <= w <= 8
    ensures 1 <= m <= 0x80
  {
    if w == 1 then 0x80 else if w == 2 then 0x40 else if w == 3 then 0x20 else if w == 4 then 0x10
    else if w == 5 then 0x08 else if w == 6 then 0x04 else if w == 7 then 0x02 else 0x01
  }

  /** `a & m` on non-negative numbers, bit by bit from the lowest. */
  function BitAnd(a: nat, m: nat): (r: nat)
    ensures r <= a
    decreases a
  {
    if a == 0 || m == 0 then 0
    else 2 * BitAnd(a / 2, m / 2) + (if a % 2 == 1 && m % 2 == 1 then 1 else 0)
  }
  function Pow2(k: nat): (r: nat)
    ensures r >= 1
  {
    if k == 0 then 1 else 2 * Pow2(k - 1)
  }
  /** The number formed by the low `k` bits of `a`, and the rest of `a` shifted down
      past them. */
  function LowBits(a: nat, k: nat): nat {
    if k == 0 then 0 else 2 * LowBits(a / 2, k - 1) + a % 2
  }
  function HighBits(a: nat, k: nat): nat {
    if k == 0 then a else HighBits(a / 2, k - 1)
  }
  lemma {:induction false} LowBitsZero(k: nat)
    ensures LowBits(0, k) == 0
  {
    if k > 0 { LowBitsZero(k - 1); }
  }
  /** A mask of `k` one bits keeps the low `k` bits. */
  lemma {:induction false} AndLowMask(a: nat, k: nat)
    ensures BitAnd(a, Pow2(k) - 1) == LowBits(a, k)
  {
    if k > 0 {
      if a == 0 { LowBitsZero(k); }
      else {
        var m := Pow2(k) - 1;
        assert m / 2 == Pow2(k - 1) - 1 && m % 2 == 1;
        AndLowMask(a / 2, k - 1);
      }
    }
  }
  /** A number is its low bits plus its high part shifted back up. */
  lemma {:induction false} LowHigh(a: nat, k: nat)
    ensures LowBits(a, k) + Pow2(k) * HighBits(a, k) == a
  {
    if k > 0 {
      LowHigh(a / 2, k - 1);
      assert Pow2(k) * HighBits(a, k) == 2 * (Pow2(k - 1) * HighBits(a / 2, k - 1));
    }
  }
  lemma {:induction false} HighValue(a: nat, k: nat, h: nat)
    requires h * Pow2(k) <= a < (h + 1) * Pow2(k)
    ensures HighBits(a, k) == h
  {
    if k > 0 {
      assert h * Pow2(k) == 2 * (h * Pow2(k - 1));
      assert (h + 1) * Pow2(k) == 2 * ((h + 1) * Pow2(k - 1));
      HighValue(a / 2, k - 1, h);
    }
  }
  lemma {:induction false} MarkerPow2(w: nat)
    requires 1 <= w <= 8
    ensures Marker(w) == Pow2(8 - w)
  {
    if w == 1 { assert Pow2(7) == 0x80; } else if w == 2 { assert Pow2(6) == 0x40; }
    else if w == 3 { assert Pow2(5) == 0x20; } else if w == 4 { assert Pow2(4) == 0x10; }
    else if w == 5 { assert Pow2(3) == 0x08; } else if w == 6 { assert Pow2(2) == 0x04; }
    else if w == 7 { assert Pow2(1) == 0x02; } else { assert Pow2(0) == 0x01; }
  }
  /** The ID mask 0xff keeps a byte. */
  lemma {:induction false} AndFull(b: byte)
    ensures BitAnd(b, 0xff) == b
  {
    assert Pow2(8) == 256;
    AndLowMask(b, 8);
    LowHigh(b, 8);
    HighValue(b, 8, 0);
  }
  /** Masking off the top bit of a number of `k + 1` bits subtracts it. */
  lemma {:induction false} AndTopBit(b: nat, k: nat)
    requires Pow2(k) <= b < 2 * Pow2(k)
    ensures BitAnd(b, Pow2(k) - 1) == b - Pow2(k)
  {
    AndLowMask(b, k);
    LowHigh(b, k);
    HighValue(b, k, 1);
  }
  /** The data-size mask `Marker(w) - 1` removes the marker bit from a first byte of
      width `w`. */
  lemma {:induction false} AndBelowMarker(b: byte, w: nat)
    requires 1 <= w <= 8 && Marker(w) <= b < 2 * Marker(w)
    ensures BitAnd(b, Marker(w) - 1) == b - Marker(w)
  {
    MarkerPow2(w);
    AndTopBit(b, 8 - w);
  }

  /** `decodeBytes`: the first byte masked (`firstByte & firstMask`) followed by the next `size - 1` bytes, accumulated with
      32-bit shifts; `str` spells every byte, the first one unmasked. */
  function Decoded(buf: seq<byte>, pos: int, size: nat, firstByte: byte, firstMask: nat): (r: Scan)
    ensures r.Scanned? ==> r.size == size && (size > 1 ==> 0 <= pos + 1 && pos + size <= |buf|)
  {
    if size <= 1 then Scanned("[" + Hex(firstByte) + "]", size, BitAnd(firstByte, firstMask))
    else if !(0 <= pos + 1 && pos + size <= |buf|) then Threw
    else Scanned("[" + Hex(firstByte) + "]" + Spelling(buf[pos + 1..pos + size]), size,
                 ShiftInAll(BitAnd(firstByte, firstMask), buf[pos + 1..pos + size]))
  }

  /** The width of an element ID: one more than the number of leading zero bits of its
      first byte, up to four; 0 when there are more. */
  function IdWidth(first: byte): (w: nat)
    ensures w <= 4
    ensures w == 0 <==> first < 0x10
    ensures w > 0 ==> Marker(w) <= first < 2 * Marker(w)
  {
    if first >= 0x80 then 1 else if first >= 0x40 then 2 else if first >= 0x20 then 3
    else if first >= 0x10 then 4 else 0
  }

  /** The width of an element data size: one more than the number of leading zero bits
      of its first byte, up to eight; 0 for a zero byte. */
  function SizeWidth(first: byte): (w: nat)
    ensures w <= 8
    ensures w == 0 <==> first == 0
    ensures w > 0 ==> Marker(w) <= first < 2 * Marker(w)
  {
    if first >= 0x80 then 1 else if first >= 0x40 then 2 else if first >= 0x20 then 3
    else if first >= 0x10 then 4 else if first >= 0x08 then 5 else if first >= 0x04 then 6
    else if first >= 0x02 then 7 else if first >= 0x01 then 8 else 0
  }

  /** `scanWebmTag`: an element ID keeps its marker bit (mask 0xff). */
  function ElementIdAt(buf: seq<byte>, pos: int): (r: Scan)
    ensures r.Scanned? ==> 1 <= r.size <= 4 && 0 <= pos && pos + r.size <= |buf|
  {
    if !(0 <= pos < |buf|) then Threw
    else if IdWidth(buf[pos]) == 0 then NoMarker
    else Decoded(buf, pos, IdWidth(buf[pos]), buf[pos], 0xff)
  }

  /** `scanDataSize`: the marker bit and the zeros before it are masked off. */
  function DataSizeAt(buf: seq<byte>, pos: int): (r: Scan)
    ensures r.Scanned? ==> 1 <= r.size <= 8 && 0 <= pos && pos + r.size <= |buf|
  {
    if !(0 <= pos < |buf|) then Threw
    else if SizeWidth(buf[pos]) == 0 then NoMarker
    else Decoded(buf, pos, SizeWidth(buf[pos]), buf[pos], Marker(SizeWidth(buf[pos])) - 1)
  }

  /** The value of a decode is the exact big-endian value of the masked first byte and
      the bytes after it, converted to 32 bits. */
  lemma {:induction false} DecodedExact(buf: seq<byte>, pos: int, size: nat, firstByte: byte, firstMask: nat)
    requires 1 <= size && 0 <= pos && pos + size <= |buf|
    ensures Decoded(buf, pos, size, firstByte, firstMask).value
         == ToInt32(BigEndianFrom(BitAnd(firstByte, firstMask), buf[pos + 1..pos + size]))
  {
    var v := BitAnd(firstByte, firstMask);
    if size == 1 {
      assert buf[pos + 1..pos + size] == [];
    } else {
      ShiftInAllExact(v, buf[pos + 1..pos + size]);
    }
  }

  /** A leading byte of width `w` (at most four) followed by `w - 1` bytes stays below
      2^29. */
  lemma {:induction false} IdBound(first: byte, w: nat, rest: seq<byte>)
    requires 1 <= w <= 4 && Marker(w) <= first < 2 * Marker(w) && |rest| == w - 1
    ensures 0 <= BigEndianFrom(first, rest) < 0x2000_0000
  {
    BigEndianLinear(first, rest);
    BigEndianBounds(rest);
    if w == 1 {
    } else if w == 2 {
      assert Pow256(1) == 0x100;
    } else if w == 3 {
      assert Pow256(2) == 0x1_0000;
    } else {
      assert Pow256(3) == 0x100_0000;
    }
  }

  /** An element ID is the big-endian number formed by all its bytes, marker bit
      included; it stays below 2^29, so the 32-bit shifts never wrap. Its name is
      `[HH]` for each of its bytes. */
  lemma {:induction false} ElementIdValue(buf: seq<byte>, pos: int)
    requires ElementIdAt(buf, pos).Scanned?
    ensures var r := ElementIdAt(buf, pos);
      r.value == BigEndian(buf[pos..pos + r.size])
    ensures var r := ElementIdAt(buf, pos);
      r.str == Spelling(buf[pos..pos + r.size])
  {
    var first := buf[pos];
    var w := IdWidth(first);
    assert ElementIdAt(buf, pos) == Decoded(buf, pos, w, first, 0xff);
    var rest := buf[pos + 1..pos + w];
    assert buf[pos..pos + w] == [first] + rest;
    assert ([first] + rest)[1..] == rest;
    assert Spelling(buf[pos..pos + w]) == "[" + Hex(first) + "]" + Spelling(rest);
    if w == 1 {
      assert rest == [] && "[" + Hex(first) + "]" + "" == "[" + Hex(first) + "]";
    }
    assert BigEndian(buf[pos..pos + w]) == BigEndianFrom(first, rest);
    AndFull(first);
    DecodedExact(buf, pos, w, first, 0xff);
    IdBound(first, w, rest);
  }

  /** An element data size is the VINT_DATA of RFC 8794 section 4.4 (the value
      without its marker bit), converted to a signed 32-bit integer. */
  lemma {:induction false} DataSizeValue(buf: seq<byte>, pos: int)
    requires DataSizeAt(buf, pos).Scanned?
    ensures var r := DataSizeAt(buf, pos);
      r.value == ToInt32(BigEndian(buf[pos..pos + r.size]) - Marker(r.size) * Pow256(r.size - 1))
  {
    var first := buf[pos];
    var w := SizeWidth(first);
    assert DataSizeAt(buf, pos) == Decoded(buf, pos, w, first, Marker(w) - 1);
    AndBelowMarker(first, w);
    MaskedValue(buf, pos, w, Marker(w) - 1, Marker(w));
  }

  /** A decode whose mask removes `m` from the first byte gives the big-endian value of
      all its bytes less `m` shifted past the rest, converted to 32 bits. */
  lemma {:induction false} MaskedValue(buf: seq<byte>, pos: int, w: nat, mask: nat, m: int)
    requires 1 <= w && 0 <= pos && pos + w <= |buf| && BitAnd(buf[pos], mask) == buf[pos] - m
    ensures Decoded(buf, pos, w, buf[pos], mask).value == ToInt32(BigEndian(buf[pos..pos + w]) - m * Pow256(w - 1))
  {
    BigEndianOffset(buf[pos], buf[pos + 1..pos + w], m);
    BigEndianHead(buf, pos, w);
    DecodedExact(buf, pos, w, buf[pos], mask);
  }

  /** Lowering the accumulator by `m` lowers the value by `m` shifted past the bytes. */
  lemma {:induction false} BigEndianOffset(first: int, rest: seq<byte>, m: int)
    ensures BigEndianFrom(first - m, rest) == BigEndianFrom(first, rest) - m * Pow256(|rest|)
  {
    var p := Pow256(|rest|);
    BigEndianLinear(first, rest);
    BigEndianLinear(first - m, rest);
    assert (first - m) * p == first * p - m * p;
  }

  /** Reading `w` bytes big-endian is reading the rest after the first as accumulator. */
  lemma {:induction false} BigEndianHead(buf: seq<byte>, pos: int, w: nat)
    requires 1 <= w && 0 <= pos && pos + w <= |buf|
    ensures BigEndian(buf[pos..pos + w]) == BigEndianFrom(buf[pos], buf[pos + 1..pos + w])
  {
    assert buf[pos..pos + w][1..] == buf[pos + 1..pos + w];
  }

  /** `w` bytes, big-endian. */
  function BytesBE(x: nat, w: nat): (bs: seq<byte>)
    ensures |bs| == w
  {
    if w == 0 then [] else BytesBE(x / 256, w - 1) + [x % 256]
  }

  lemma {:induction false} BigEndianSnoc(acc: int, bs: seq<byte>, b: byte)
    ensures BigEndianFrom(acc, bs + [b]) == BigEndianFrom(acc, bs) * 256 + b
    decreases |bs|
  {
    if bs == [] {
      assert [] + [b] == [b];
    } else {
      assert (bs + [b])[1..] == bs[1..] + [b];
      BigEndianSnoc(acc * 256 + bs[0], bs[1..], b);
    }
  }

  lemma {:induction false} BytesBERoundTrip(x: nat, w: nat)
    requires x < Pow256(w)
    ensures BigEndian(BytesBE(x, w)) == x
  {
    if w > 0 {
      BytesBERoundTrip(x / 256, w - 1);
      BigEndianSnoc(0, BytesBE(x / 256, w - 1), x % 256);
    }
  }

  /** The encoding of `n` as an element data size of width `w`: the marker bit and the
      high bits of `n` in the first byte, then the remaining bytes of `n`. */
  function SizeOctets(n: nat, w: nat): (bs: seq<byte>)
    requires 1 <= w <= 8 && n / Pow256(w - 1) < Marker(w)
    ensures |bs| == w
  {
    [Marker(w) + n / Pow256(w - 1)] + BytesBE(n % Pow256(w - 1), w - 1)
  }

  /** Decoding a data size gives back the value encoded, at the width encoded,
      whatever follows; values of 2^31 and above come back wrapped to 32 bits. */
  lemma {:induction false} SizeRoundTrip(n: nat, w: nat, rest: seq<byte>)
    requires 1 <= w <= 8 && n / Pow256(w - 1) < Marker(w)
    ensures var r := DataSizeAt(SizeOctets(n, w) + rest, 0);
      r.Scanned? && r.size == w && r.value == ToInt32(n)
      && (n < TwoTo31 ==> r.value == n)
  {
    var enc := SizeOctets(n, w);
    var buf := enc + rest;
    var first := Marker(w) + n / Pow256(w - 1);
    assert buf[0] == first;
    SizeWidthOf(first, w);
    assert DataSizeAt(buf, 0) == Decoded(buf, 0, w, first, Marker(w) - 1);
    assert buf[0..w] == enc;
    DataSizeValue(buf, 0);
    EncodedValue(n, w);
  }

  /** A first byte between a marker and twice it has the marker's width. */
  lemma {:induction false} SizeWidthOf(first: byte, w: nat)
    requires 1 <= w <= 8 && Marker(w) <= first < 2 * Marker(w)
    ensures SizeWidth(first) == w
  {
  }

  /** The encoding read back big-endian is the value with the marker bit on top. */
  lemma {:induction false} EncodedValue(n: nat, w: nat)
    requires 1 <= w <= 8 && n / Pow256(w - 1) < Marker(w)
    ensures BigEndian(SizeOctets(n, w)) == n + Marker(w) * Pow256(w - 1)
  {
    var p := Pow256(w - 1);
    var first := Marker(w) + n / p;
    var tail := BytesBE(n % p, w - 1);
    assert SizeOctets(n, w) == [first] + tail;
    BigEndianCons(first, tail);
    BytesBERoundTrip(n % p, w - 1);
    SplitAt(n, p, Marker(w));
  }

  lemma {:induction false} BigEndianCons(first: byte, tail: seq<byte>)
    ensures BigEndian([first] + tail) == first * Pow256(|tail|) + BigEndian(tail)
  {
    assert ([first] + tail)[1..] == tail;
    BigEndianLinear(first, tail);
  }

  /** The high part of `n` plus `m`, shifted back up, and the low part make `n` plus
      `m` shifted up. */
  lemma {:induction false} SplitAt(n: nat, p: nat, m: int)
    requires p >= 1
    ensures (m + n / p) * p + n % p == n + m * p
  {
    assert (m + n / p) * p == m * p + (n / p) * p;
  }

  /** `scanDataValueU`: `size` bytes read big-endian with 32-bit shifts; nothing is read
      for a size that is zero or negative. */
  function UnsignedAt(buf: seq<byte>, pos: int, size: int): Option<int> {
    if size <= 0 then Some(0)
    else if !(0 <= pos && pos + size <= |buf|) then None
    else Some(ShiftInAll(0, buf[pos..pos + size]))
  }

  /** The names `TAG_DICT` gives (CRC-32 written without its hyphen). */
  datatype ElementName =
    EBML | EBMLVersion | EBMLReadVersion | EBMLMaxIDLength | EBMLMaxSizeLength | DocType |
    DocTypeVersion | DocTypeReadVersion | Void | CRC32 | Cues | Segment | SeekHead | Seek |
    SeekID | SeekPosition | Info | Tracks | TrackEntry | TrackNumber | TrackUID |
    TrackType | DefaultDuration | TrackTimecodeScale | CodecID | CodecPrivate | CodecName |
    Video | PixelWidth | PixelHeight | FrameRate | Audio | SamplingFrequency | Channels |
    Cluster | Timecode | SimpleBlock

  /** `TAG_DICT`: the element names the walker knows, by the spelling of their IDs. */
  function TagName(str: string): Option<ElementName> {
    if str == "[1A][45][DF][A3]" then Some(EBML)
    else if str == "[42][86]" then Some(EBMLVersion)
    else if str == "[42][F7]" then Some(EBMLReadVersion)
    else if str == "[42][F2]" then Some(EBMLMaxIDLength)
    else if str == "[42][F3]" then Some(EBMLMaxSizeLength)
    else if str == "[42][82]" then Some(DocType)
    else if str == "[42][87]" then Some(DocTypeVersion)
    else if str == "[42][85]" then Some(DocTypeReadVersion)
    else if str == "[EC]" then Some(Void)
    else if str == "[BF]" then Some(CRC32)
    else if str == "[1C][53][BB][6B]" then Some(Cues)
    else if str == "[18][53][80][67]" then Some(Segment)
    else if str == "[11][4D][9B][74]" then Some(SeekHead)
    else if str == "[4D][BB]" then Some(Seek)
    else if str == "[53][AB]" then Some(SeekID)
    else if str == "[53][AC]" then Some(SeekPosition)
    else if str == "[15][49][A9][66]" then Some(Info)
    else if str == "[16][54][AE][6B]" then Some(Tracks)
    else if str == "[AE]" then Some(TrackEntry)
    else if str == "[D7]" then Some(TrackNumber)
    else if str == "[73][C5]" then Some(TrackUID)
    else if str == "[83]" then Some(TrackType)
    else if str == "[23][E3][83]" then Some(DefaultDuration)
    else if str == "[23][31][4F]" then Some(TrackTimecodeScale)
    else if str == "[86]" then Some(CodecID)
    else if str == "[63][A2]" then Some(CodecPrivate)
    else if str == "[25][86][88]" then Some(CodecName)
    else if str == "[E0]" then Some(Video)
    else if str == "[B0]" then Some(PixelWidth)
    else if str == "[BA]" then Some(PixelHeight)
    else if str == "[23][83][E3]" then Some(FrameRate)
    else if str == "[E1]" then Some(Audio)
    else if str == "[B5]" then Some(SamplingFrequency)
    else if str == "[9F]" then Some(Channels)
    else if str == "[1F][43][B6][75]" then Some(Cluster)
    else if str == "[E7]" then Some(Timecode)
    else if str == "[A3]" then Some(SimpleBlock)
    else None
  }

  /** What the walker does with an element, by its name: descend into it (the master
      elements EBML, Tracks, TrackEntry, Video, Segment and Cluster), record it as the
      width or the height, or skip it. */
  datatype Role = Descend | Width | Height | Skipped

  function RoleOf(name: Option<ElementName>): Role {
    match name
    case Some(EBML) => Descend
    case Some(Tracks) => Descend
    case Some(TrackEntry) => Descend
    case Some(Video) => Descend
    case Some(Segment) => Descend
    case Some(Cluster) => Descend
    case Some(PixelWidth) => Width
    case Some(PixelHeight) => Height
    case _ => Skipped
  }

  /** The parser's state: the dimensions found, and whether each was found. */
  datatype Dims = Dims(curWidth: int, curHeight: int, hasWidth: bool, hasHeight: bool)

  /** Where a nested walk ends: an end of -1 means the end of the buffer. */
  function RegionEnd(buf: seq<byte>, maxPos: int): int {
    if maxPos == -1 then |buf| else maxPos
  }

  /** An element's header: a read ran past the buffer, a byte had no marker bit, or
      the spelling of the element's ID, where its data starts, and its data size. */
  datatype Header = Broken | Unmarked | Header(id: string, dataStart: int, size: int)

  /** The ID and the data size read at `position`, one after the other. */
  function HeaderAt(buf: seq<byte>, position: int): (h: Header)
    ensures h.Header? ==> 0 <= position && position + 2 <= h.dataStart <= |buf|
  {
    match ElementIdAt(buf, position)
    case Threw => Broken
    case NoMarker => Unmarked
    case Scanned(str, idSize, _) =>
      match DataSizeAt(buf, position + idSize)
      case Threw => Broken
      case NoMarker => Unmarked
      case Scanned(_, sizeSize, value) => Header(str, position + idSize + sizeSize, value)
  }

  /** What an element that is not descended into does to the state: PixelWidth and
      PixelHeight record their unsigned value, everything else nothing. */
  function Leaf(buf: seq<byte>, role: Role, start: int, size: int, d: Dims): Option<Dims> {
    if role == Width then
      match UnsignedAt(buf, start, size)
      case None => None
      case Some(n) => Some(d.(curWidth := n, hasWidth := true))
    else if role == Height then
      match UnsignedAt(buf, start, size)
      case None => None
      case Some(n) => Some(d.(curHeight := n, hasHeight := true))
    else Some(d)
  }

  /** Past an element: its data is skipped, unless the (wrapped) size is negative. */
  function Past(h: Header): int
    requires h.Header?
  {
    if h.size >= 0 then h.dataStart + h.size else h.dataStart
  }

  /** `_internalParseWebm` from `position` up to `maxPosition`: element after element,
      descending into the master elements `RoleOf` names, recording PixelWidth
      and PixelHeight, and skipping over the data of everything else. It stops at or
      past `maxPosition` or at a byte with no marker bit; `None` when a read runs past
      the buffer. Every element moves the position on by at least two bytes. */
  function WalkFrom(buf: seq<byte>, position: int, maxPosition: int, d: Dims): Option<Dims>
    decreases |buf| - position, 1
  {
    if position >= maxPosition then Some(d)
    else
      match HeaderAt(buf, position)
      case Broken => None
      case Unmarked => Some(d)
      case Header(_, _, _) =>
        var h := HeaderAt(buf, position);
        var after := Visit(buf, h, d);
        if after.None? then None
        else if Past(h) >= maxPosition then after
        else WalkFrom(buf, Past(h), maxPosition, after.value)
  }

  /** `parseWebm` clears the state first. */
  const Cleared: Dims := Dims(-1, -1, false, false)

  /** The webm branch of `getDimensions`: the dimensions only when both were found and
      the walk did not throw, otherwise (-1, -1). */
  function WebmDimensions(buf: seq<byte>): (int, int) {
    match WalkFrom(buf, 0, |buf|, Cleared)
    case None => (-1, -1)
    case Some(d) => if d.hasHeight && d.hasWidth then (d.curWidth, d.curHeight) else (-1, -1)
  }

  /** Flags are only ever set, and a value changes only with its flag. */
  predicate Extends(d: Dims, e: Dims) {
    (d.hasWidth ==> e.hasWidth) && (d.hasHeight ==> e.hasHeight)
    && (!e.hasWidth ==> e.curWidth == d.curWidth) && (!e.hasHeight ==> e.curHeight == d.curHeight)
  }

  /** What one element does in a walk: descend into it or act on it as a leaf. */
  function Visit(buf: seq<byte>, h: Header, d: Dims): Option<Dims>
    requires h.Header? && h.dataStart <= |buf|
    decreases |buf| - h.dataStart + 1, 0
  {
    if RoleOf(TagName(h.id)) == Descend then WalkFrom(buf, h.dataStart, RegionEnd(buf, h.dataStart + h.size), d)
    else Leaf(buf, RoleOf(TagName(h.id)), h.dataStart, h.size, d)
  }

  /** A master element's data is walked as a region of its own. */
  lemma {:induction false} VisitDescends(buf: seq<byte>, h: Header, d: Dims)
    requires h.Header? && h.dataStart <= |buf| && RoleOf(TagName(h.id)) == Descend
    ensures Visit(buf, h, d) == WalkFrom(buf, h.dataStart, RegionEnd(buf, h.dataStart + h.size), d)
  {
  }

  /** One round of the walk: the element at `position`, then the rest of the region. */
  lemma {:induction false} WalkStep(buf: seq<byte>, position: int, maxPosition: int, d: Dims)
    requires position < maxPosition && HeaderAt(buf, position).Header?
    ensures var h := HeaderAt(buf, position);
      var after := Visit(buf, h, d);
      WalkFrom(buf, position, maxPosition, d)
      == if after.None? then None else if Past(h) >= maxPosition then after else WalkFrom(buf, Past(h), maxPosition, after.value)
  {
  }

  /** A leaf sets at most the flag of the dimension it records. */
  lemma {:induction false} LeafKeepsFlags(buf: seq<byte>, role: Role, start: int, size: int, d: Dims)
    requires Leaf(buf, role, start, size, d).Some?
    ensures Extends(d, Leaf(buf, role, start, size, d).value)
  {
  }

  /** A walk never clears a flag, and leaves a dimension it did not find as it was. */
  lemma {:induction false} WalkKeepsFlags(buf: seq<byte>, position: int, maxPosition: int, d: Dims)
    requires WalkFrom(buf, position, maxPosition, d).Some?
    ensures Extends(d, WalkFrom(buf, position, maxPosition, d).value)
    decreases |buf| - position, 1
  {
    if position < maxPosition {
      var h := HeaderAt(buf, position);
      if h.Header? {
        WalkStep(buf, position, maxPosition, d);
        var after := Visit(buf, h, d);
        if after.Some? {
          VisitKeepsFlags(buf, h, d);
          if Past(h) < maxPosition {
            WalkKeepsFlags(buf, Past(h), maxPosition, after.value);
          }
        }
      }
    }
  }

  lemma {:induction false} VisitKeepsFlags(buf: seq<byte>, h: Header, d: Dims)
    requires h.Header? && h.dataStart <= |buf| && Visit(buf, h, d).Some?
    ensures Extends(d, Visit(buf, h, d).value)
    decreases |buf| - h.dataStart + 1, 0
  {
    if RoleOf(TagName(h.id)) == Descend {
      WalkKeepsFlags(buf, h.dataStart, RegionEnd(buf, h.dataStart + h.size), d);
    } else {
      LeafKeepsFlags(buf, RoleOf(TagName(h.id)), h.dataStart, h.size, d);
    }
  }

  /** A buffer that does not start with an element ID has no dimensions. */
  lemma {:induction false} NoLeadingElement(buf: seq<byte>)
    requires buf == [] || buf[0] < 0x10
    ensures WebmDimensions(buf) == (-1, -1)
  {
  }

  /** A one-byte element ID (marker bit 0x80) is its own byte. */
  lemma {:induction false} OneByteId(buf: seq<byte>, pos: int)
    requires 0 <= pos < |buf| && 0x80 <= buf[pos]
    ensures ElementIdAt(buf, pos) == Scanned("[" + Hex(buf[pos]) + "]", 1, buf[pos])
  {
    AndFull(buf[pos]);
  }

  /** A one-byte data size is its byte less the marker bit 0x80. */
  lemma {:induction false} OneByteSize(buf: seq<byte>, pos: int)
    requires 0 <= pos < |buf| && 0x80 <= buf[pos]
    ensures DataSizeAt(buf, pos) == Scanned("[" + Hex(buf[pos]) + "]", 1, buf[pos] - 0x80)
  {
    AndBelowMarker(buf[pos], 1);
  }

  /** An element whose ID and data size take one byte each. */
  lemma {:induction false} OneByteHeader(buf: seq<byte>, pos: int)
    requires 0 <= pos && pos + 1 < |buf| && 0x80 <= buf[pos] && 0x80 <= buf[pos + 1]
    ensures HeaderAt(buf, pos) == Header("[" + Hex(buf[pos]) + "]", pos + 2, buf[pos + 1] - 0x80)
  {
    OneByteId(buf, pos);
    OneByteSize(buf, pos + 1);
  }

  /** A Video element holding PixelWidth 320 (two bytes) and PixelHeight 240. */
  const VideoSample: seq<byte> := [0xE0, 0x87, 0xB0, 0x82, 0x01, 0x40, 0xBA, 0x81, 0xF0]

  lemma {:induction false} VideoSampleVideo()
    ensures HeaderAt(VideoSample, 0) == Header("[E0]", 2, 7)
  {
    OneByteHeader(VideoSample, 0);
    assert "[" + Hex(0xE0) + "]" == "[E0]";
  }

  lemma {:induction false} VideoSampleWidth()
    ensures HeaderAt(VideoSample, 2) == Header("[B0]", 4, 2)
  {
    OneByteHeader(VideoSample, 2);
    assert "[" + Hex(0xB0) + "]" == "[B0]";
  }

  lemma {:induction false} VideoSampleWidthValue()
    ensures Visit(VideoSample, Header("[B0]", 4, 2), Cleared) == Some(Dims(320, -1, true, false))
  {
    assert TagName("[B0]") == Some(PixelWidth);
    assert RoleOf(TagName("[B0]")) == Width;
    assert VideoSample[4..6] == [0x01, 0x40];
    assert ShiftInAll(0, [0x01, 0x40]) == ShiftInAll(ShiftIn(0, 0x01), [0x40]);
    assert ShiftInAll(1, [0x40]) == ShiftInAll(ShiftIn(1, 0x40), []);
    assert UnsignedAt(VideoSample, 4, 2) == Some(320);
  }

  lemma {:induction false} VideoSampleHeight()
    ensures HeaderAt(VideoSample, 6) == Header("[BA]", 8, 1)
  {
    OneByteHeader(VideoSample, 6);
    assert "[" + Hex(0xBA) + "]" == "[BA]";
  }

  lemma {:induction false} VideoSampleHeightValue()
    ensures Visit(VideoSample, Header("[BA]", 8, 1), Dims(320, -1, true, false)) == Some(Dims(320, 240, true, true))
  {
    assert TagName("[BA]") == Some(PixelHeight);
    assert RoleOf(TagName("[BA]")) == Height;
    assert VideoSample[8..9] == [0xF0];
    assert ShiftInAll(0, [0xF0]) == ShiftInAll(ShiftIn(0, 0xF0), []);
    assert UnsignedAt(VideoSample, 8, 1) == Some(240);
  }

  lemma {:induction false} VideoSampleLastElement()
    ensures WalkFrom(VideoSample, 6, 9, Dims(320, -1, true, false)) == Some(Dims(320, 240, true, true))
  {
    VideoSampleHeight();
    VideoSampleHeightValue();
    WalkStep(VideoSample, 6, 9, Dims(320, -1, true, false));
  }

  lemma {:induction false} VideoSampleContents()
    ensures WalkFrom(VideoSample, 2, 9, Cleared) == Some(Dims(320, 240, true, true))
  {
    VideoSampleWidth();
    VideoSampleWidthValue();
    VideoSampleLastElement();
    WalkStep(VideoSample, 2, 9, Cleared);
  }

  lemma {:induction false} VideoName()
    ensures RoleOf(TagName("[E0]")) == Descend
  {
  }

  lemma {:induction false} VideoSampleDescends()
    ensures Visit(VideoSample, Header("[E0]", 2, 7), Cleared) == Some(Dims(320, 240, true, true))
  {
    VideoName();
    VisitDescends(VideoSample, Header("[E0]", 2, 7), Cleared);
    VideoSampleContents();
  }

  lemma {:induction false} VideoSampleWalk()
    ensures WalkFrom(VideoSample, 0, 9, Cleared) == Some(Dims(320, 240, true, true))
  {
    VideoSampleVideo();
    VideoSampleDescends();
    WalkStep(VideoSample, 0, 9, Cleared);
  }

  /** The walk finds the sample's width and height. */
  lemma {:induction false} VideoExample()
    ensures WebmDimensions(VideoSample) == (320, 240)
  {
    VideoSampleWalk();
  }

  /** `MIME_TYPE_TO_FILE_EXTENSION`. */
  const MimeToExtension: map<string, string> := map[
    "image/png" := "png", "image/apng" := "png", "image/jpeg" := "jpg", "image/gif" := "gif",
    "video/webm" := "webm"]

  /** One round of the accumulation loop of `decodeBytes`: shifting in the byte at `i`
      leaves the same value to come from the bytes after it. */
  lemma {:induction false} DecodeStep(buf: seq<byte>, lo: nat, i: nat, hi: nat, value: int)
    requires lo <= i < hi <= |buf|
    ensures ShiftInAll(ShiftIn(value, buf[i]), buf[i + 1..hi]) == ShiftInAll(value, buf[i..hi])
  {
    assert buf[i..hi][1..] == buf[i + 1..hi];
  }

  /** One round of the spelling loop of `decodeBytes`: the byte at `i` is appended. */
  lemma {:induction false} SpellStep(buf: seq<byte>, lo: nat, i: nat, head: string)
    requires lo <= i < |buf|
    ensures head + Spelling(buf[lo..i]) + "[" + Hex(buf[i]) + "]" == head + Spelling(buf[lo..i + 1])
  {
    assert buf[lo..i + 1] == buf[lo..i] + [buf[i]];
    SpellingSnoc(buf[lo..i], buf[i]);
  }

  /** The `WebmParser`'s static state. */
  class WebmParser {
    var curWidth: int
    var curHeight: int
    var hasWidth: bool
    var hasHeight: bool

    function State(): Dims
      reads this
    {
      Dims(curWidth, curHeight, hasWidth, hasHeight)
    }

    constructor()
      ensures State() == Dims(0, 0, false, false)
    {
      curWidth, curHeight, hasWidth, hasHeight := 0, 0, false, false;
    }

    /** `decodeBytes`. */
    static method DecodeBytes(buf: seq<byte>, pos: int, size: nat, firstByte: byte, firstMask: nat) returns (r: Scan)
      ensures r == Decoded(buf, pos, size, firstByte, firstMask)
    {
      var value := BitAnd(firstByte, firstMask);
      var str := "[" + ByteToHex(firstByte) + "]";
      if size <= 1 {
        return Scanned(str, size, value);
      }
      if !(0 <= pos + 1 && pos + size <= |buf|) {
        return Threw;
      }
      ghost var bytes := buf[pos + 1..pos + size];
      var i := 1;
      while i < size
        invariant 1 <= i <= size
        invariant ShiftInAll(value, buf[pos + i..pos + size]) == ShiftInAll(BitAnd(firstByte, firstMask), bytes)
        invariant str == "[" + Hex(firstByte) + "]" + Spelling(buf[pos + 1..pos + i])
      {
        var followByte := buf[pos + i];
        var hex := ByteToHex(followByte);
        DecodeStep(buf, pos + 1, pos + i, pos + size, value);
        SpellStep(buf, pos + 1, pos + i, "[" + Hex(firstByte) + "]");
        str := str + "[" + hex + "]";
        value := ShiftIn(value, followByte);
        i := i + 1;
      }
      assert buf[pos + size..pos + size] == [];
      r := Scanned(str, size, value);
    }

    /** `scanWebmTag`. */
    static method ScanWebmTag(buf: seq<byte>, pos: int) returns (r: Scan)
      ensures r == ElementIdAt(buf, pos)
    {
      if !(0 <= pos < |buf|) {
        return Threw;
      }
      var firstByte := buf[pos];
      var tagSize := IdWidth(firstByte);
      if tagSize == 0 {
        return NoMarker;
      }
      r := DecodeBytes(buf, pos, tagSize, firstByte, 0xff);
    }

    /** `scanDataSize`. */
    static method ScanDataSize(buf: seq<byte>, pos: int) returns (r: Scan)
      ensures r == DataSizeAt(buf, pos)
    {
      if !(0 <= pos < |buf|) {
        return Threw;
      }
      var firstByte := buf[pos];
      var dataSizeSize := SizeWidth(firstByte);
      if dataSizeSize == 0 {
        return NoMarker;
      }
      r := DecodeBytes(buf, pos, dataSizeSize, firstByte, Marker(dataSizeSize) - 1);
    }

    /** `scanDataValueU`; `None` when a read runs past the buffer. */
    static method ScanDataValueU(buf: seq<byte>, pos: int, size: int) returns (r: Option<int>)
      ensures r == UnsignedAt(buf, pos, size)
    {
      if size <= 0 {
        return Some(0);
      }
      if !(0 <= pos && pos + size <= |buf|) {
        return None;
      }
      var uVal := 0;
      var i := 0;
      while i < size
        invariant 0 <= i <= size
        invariant ShiftInAll(uVal, buf[pos + i..pos + size]) == ShiftInAll(0, buf[pos..pos + size])
      {
        assert buf[pos + i..pos + size][1..] == buf[pos + i + 1..pos + size];
        uVal := ShiftIn(uVal, buf[pos + i]);
        i := i + 1;
      }
      assert buf[pos + size..pos + size] == [];
      r := Some(uVal);
    }

    /** The two scans at the head of each round of `_internalParseWebm`. */
    static method ScanHeader(buf: seq<byte>, position: int) returns (h: Header)
      ensures h == HeaderAt(buf, position)
    {
      var result := ScanWebmTag(buf, position);
      if result.Threw? {
        return Broken;
      }
      if result.NoMarker? {
        return Unmarked;
      }
      var id := result.str;
      var dataAt := position + result.size;
      result := ScanDataSize(buf, dataAt);
      if result.Threw? {
        return Broken;
      }
      if result.NoMarker? {
        return Unmarked;
      }
      h := Header(id, dataAt + result.size, result.value);
    }

    /** `_internalParseWebm`: a position or end of -1 stands for the buffer's start or
        end. Returns false when a read ran past the buffer (the exception). */
    method InternalParseWebm(buf: seq<byte>, pos: int, maxPos: int) returns (ok: bool)
      modifies this
      ensures var r := WalkFrom(buf, if pos == -1 then 0 else pos, RegionEnd(buf, maxPos), old(State()));
        ok == r.Some? && (ok ==> State() == r.value)
      decreases |buf| - pos, 1
    {
      var position := if pos == -1 then 0 else pos;
      var maxPosition := RegionEnd(buf, maxPos);
      ghost var goal := WalkFrom(buf, position, maxPosition, State());
      while position < maxPosition
        invariant position >= pos
        invariant WalkFrom(buf, position, maxPosition, State()) == goal
        decreases |buf| - position
      {
        var h := ScanHeader(buf, position);
        if h.Broken? {
          return false;
        }
        if h.Unmarked? {
          break;
        }
        WalkStep(buf, position, maxPosition, State());
        var visited := VisitElement(buf, h);
        if !visited {
          return false;
        }
        position := Past(h);
        if position == maxPosition {
          break;
        } else if position > maxPosition {
          break;
        }
      }
      ok := true;
    }

    /** The data part of a round of `_internalParseWebm`: a nested walk over the master
        elements, the unsigned value of PixelWidth and PixelHeight; false when a read
        ran past the buffer. */
    method VisitElement(buf: seq<byte>, h: Header) returns (ok: bool)
      requires h.Header? && 2 <= h.dataStart <= |buf|
      modifies this
      ensures var r := Visit(buf, h, old(State()));
        ok == r.Some? && (ok ==> State() == r.value)
      decreases |buf| - h.dataStart + 1, 0
    {
      var tagName := TagName(h.id);
      if RoleOf(tagName) == Descend {
        ok := InternalParseWebm(buf, h.dataStart, h.dataStart + h.size);
      } else if tagName == Some(PixelWidth) {
        var w := ScanDataValueU(buf, h.dataStart, h.size);
        if w.None? {
          return false;
        }
        curWidth := w.value;
        hasWidth := true;
        ok := true;
      } else if tagName == Some(PixelHeight) {
        var ht := ScanDataValueU(buf, h.dataStart, h.size);
        if ht.None? {
          return false;
        }
        curHeight := ht.value;
        hasHeight := true;
        ok := true;
      } else {
        ok := true;
      }
    }

    /** `parseWebm`. */
    method ParseWebm(buf: seq<byte>) returns (ok: bool)
      modifies this
      ensures var r := WalkFrom(buf, 0, |buf|, Cleared);
        ok == r.Some? && (ok ==> State() == r.value)
    {
      hasWidth := false;
      hasHeight := false;
      curWidth := -1;
      curHeight := -1;
      ok := InternalParseWebm(buf, -1, -1);
    }

    /** `getDimensions`: other types go to the image-size library (`None` when it
        throws); a webm goes through the walker. */
    method GetDimensions(mime: string, buf: seq<byte>, imageSize: seq<byte> -> Option<(int, int)>)
      returns (dims: (int, int))
      modifies this
      ensures dims == if mime != "video/webm" then imageSize(buf).GetOr((-1, -1)) else WebmDimensions(buf)
    {
      if mime != "video/webm" {
        var sized := imageSize(buf);
        if sized.Some? {
          return sized.value;
        }
      } else {
        var ok := ParseWebm(buf);
        if ok && hasHeight && hasWidth {
          return (curWidth, curHeight);
        }
      }
      dims := (-1, -1);
    }
  }
}

/**
A reader of gzip members made of stored deflate blocks: section 2.3 of RFC 1952 for the member,
sections 3.1.1 and 3.2.4 of RFC 1951 for the bit order and the blocks. It knows nothing of the
encoder whose output it reads.
*/
module Gzip {
  import opened Wrappers
  import opened Base64

  // ---- Bits, least significant first ----

  function Pow2(n: nat): nat {
    if n == 0 then 1 else 2 * Pow2(n - 1)
  }

  function ShiftRight(b: nat, n: nat): nat {
    if n == 0 then b else ShiftRight(b, n - 1) / 2
  }

  /** Bit `j` of byte `k`, counting from the least significant. */
  function Bit(s: seq<Byte>, k: nat, j: nat): nat
    requires k < |s| && j < 8
  {
    ShiftRight(s[k], j) % 2
  }

  /**
  An unsigned number of `n` bits, least significant bit first, from bit `j` of byte `k` on: a stream
  is its bytes in order, each from its least significant bit up.
  */
  function Bits(s: seq<Byte>, k: nat, j: nat, n: nat): nat
    requires j < 8 && 8 * k + j + n <= 8 * |s|
    decreases 8 * |s| - 8 * k - j
  {
    if n == 0 then 0
    else Bit(s, k, j) + 2 * (if j == 7 then Bits(s, k + 1, 0, n - 1) else Bits(s, k, j + 1, n - 1))
  }

  // ---- CRC-32 (section 8 of RFC 1952) ----

  function CrcBit(crc: bv32): bv32 {
    if crc & 1 == 1 then (crc >> 1) ^ 0xEDB88320 else crc >> 1
  }

  function CrcShift(crc: bv32, bits: nat): bv32
    decreases bits, crc
  {
    if bits == 0 then crc
    else CrcShift(CrcBit(crc), bits - 1)
  }

  function CrcUpdate(crc: bv32, data: seq<Byte>): bv32
    decreases |data|
  {
    if data == [] then crc else CrcUpdate(CrcShift(crc ^ (data[0] as bv32), 8), data[1..])
  }

  function Crc32(data: seq<Byte>): nat {
    (CrcUpdate(0xFFFFFFFF, data) ^ 0xFFFFFFFF) as nat
  }

  lemma EightBits(crc: bv32, next: bv32)
    requires next == CrcBit(CrcBit(CrcBit(CrcBit(CrcBit(CrcBit(CrcBit(CrcBit(crc))))))))
    ensures CrcShift(crc, 8) == next
  {
    hide CrcBit;
    assert CrcShift(crc, 8) == CrcShift(CrcBit(crc), 7) == CrcShift(CrcBit(CrcBit(crc)), 6);
    var four := CrcBit(CrcBit(CrcBit(CrcBit(crc))));
    assert CrcShift(CrcBit(CrcBit(crc)), 6) == CrcShift(CrcBit(CrcBit(CrcBit(crc))), 5) == CrcShift(four, 4);
    assert CrcShift(four, 4) == CrcShift(CrcBit(four), 3) == CrcShift(CrcBit(CrcBit(four)), 2);
    assert CrcShift(CrcBit(CrcBit(four)), 2) == CrcShift(CrcBit(CrcBit(CrcBit(four))), 1) == CrcShift(next, 0);
  }

  lemma OneByte(crc: bv32, b: Byte, rest: seq<Byte>)
    ensures CrcUpdate(crc, [b] + rest) == CrcUpdate(CrcShift(crc ^ (b as bv32), 8), rest)
  {
    hide CrcShift;
    assert ([b] + rest)[1..] == rest && ([b] + rest)[0] == b;
  }

  lemma Shifts1To3()
    ensures CrcShift(0xFFFFFFCE, 8) == 0x7C231048
    ensures CrcShift(0x7C23107A, 8) == 0xB0ACBB32
    ensures CrcShift(0xB0ACBB01, 8) == 0x77B79C2D
  {
    EightBits(0xFFFFFFCE, 0x7C231048);
    EightBits(0x7C23107A, 0xB0ACBB32);
    EightBits(0xB0ACBB01, 0x77B79C2D);
  }

  lemma Shifts4To6()
    ensures CrcShift(0x77B79C19, 8) == 0x641C1F5C
    ensures CrcShift(0x641C1F69, 8) == 0x340AC5E3
    ensures CrcShift(0x340AC5D5, 8) == 0xF68D2C9E
  {
    EightBits(0x77B79C19, 0x641C1F5C);
    EightBits(0x641C1F69, 0x340AC5E3);
    EightBits(0x340AC5D5, 0xF68D2C9E);
  }

  lemma Shifts7To9()
    ensures CrcShift(0xF68D2CA9, 8) == 0xAFFC9660
    ensures CrcShift(0xAFFC9658, 8) == 0x651F2550
    ensures CrcShift(0x651F2569, 8) == 0x340BC6D9
  {
    EightBits(0xF68D2CA9, 0xAFFC9660);
    EightBits(0xAFFC9658, 0x651F2550);
    EightBits(0x651F2569, 0x340BC6D9);
  }

  lemma Digits1To3()
    ensures CrcUpdate(0xFFFFFFFF, [49, 50, 51, 52, 53, 54, 55, 56, 57]) == CrcUpdate(0x77B79C2D, [52, 53, 54, 55, 56, 57])
  {
    hide CrcShift, CrcUpdate;
    Shifts1To3();
    OneByte(0xFFFFFFFF, 49, [50, 51, 52, 53, 54, 55, 56, 57]);
    assert 0xFFFFFFFF ^ (49 as bv32) == 0xFFFFFFCE;
    assert [49] + [50, 51, 52, 53, 54, 55, 56, 57] == [49, 50, 51, 52, 53, 54, 55, 56, 57];
    OneByte(0x7C231048, 50, [51, 52, 53, 54, 55, 56, 57]);
    assert 0x7C231048 ^ (50 as bv32) == 0x7C23107A;
    assert [50] + [51, 52, 53, 54, 55, 56, 57] == [50, 51, 52, 53, 54, 55, 56, 57];
    OneByte(0xB0ACBB32, 51, [52, 53, 54, 55, 56, 57]);
    assert 0xB0ACBB32 ^ (51 as bv32) == 0xB0ACBB01;
    assert [51] + [52, 53, 54, 55, 56, 57] == [51, 52, 53, 54, 55, 56, 57];
  }

  lemma Digits4To6()
    ensures CrcUpdate(0x77B79C2D, [52, 53, 54, 55, 56, 57]) == CrcUpdate(0xF68D2C9E, [55, 56, 57])
  {
    hide CrcShift, CrcUpdate;
    Shifts4To6();
    OneByte(0x77B79C2D, 52, [53, 54, 55, 56, 57]);
    assert 0x77B79C2D ^ (52 as bv32) == 0x77B79C19;
    assert [52] + [53, 54, 55, 56, 57] == [52, 53, 54, 55, 56, 57];
    OneByte(0x641C1F5C, 53, [54, 55, 56, 57]);
    assert 0x641C1F5C ^ (53 as bv32) == 0x641C1F69;
    assert [53] + [54, 55, 56, 57] == [53, 54, 55, 56, 57];
    OneByte(0x340AC5E3, 54, [55, 56, 57]);
    assert 0x340AC5E3 ^ (54 as bv32) == 0x340AC5D5;
    assert [54] + [55, 56, 57] == [54, 55, 56, 57];
  }

  lemma Digits7To9()
    ensures CrcUpdate(0xF68D2C9E, [55, 56, 57]) == CrcUpdate(0x340BC6D9, [])
  {
    hide CrcShift, CrcUpdate;
    Shifts7To9();
    OneByte(0xF68D2C9E, 55, [56, 57]);
    assert 0xF68D2C9E ^ (55 as bv32) == 0xF68D2CA9;
    assert [55] + [56, 57] == [55, 56, 57];
    OneByte(0xAFFC9660, 56, [57]);
    assert 0xAFFC9660 ^ (56 as bv32) == 0xAFFC9658;
    assert [56] + [57] == [56, 57];
    OneByte(0x651F2550, 57, []);
    assert 0x651F2550 ^ (57 as bv32) == 0x651F2569;
    assert [57] + [] == [57];
  }

  /** The check value of the CRC, over the digits 1 to 9. */
  lemma CheckValue()
    ensures Crc32([49, 50, 51, 52, 53, 54, 55, 56, 57]) == 0xCBF43926
  {
    hide CrcShift;
    Digits1To3();
    Digits4To6();
    Digits7To9();
  }

  // ---- The member ----

  /** A stored block as read: whether it said it was the last, and its bytes. */
  datatype Stored = Stored(last: bool, data: seq<Byte>)

  /** The blocks read so far and the byte after them. */
  datatype Inflated = Inflated(blocks: seq<Stored>, next: nat)

  /** Reads stored blocks from the start of byte `at` until one says it is the last. */
  function Inflate(s: seq<Byte>, at: nat): Option<Inflated>
    requires at <= |s|
    decreases |s| - at
  {
    if |s| - at < 5 then None
    else
      var last, kind := Bits(s, at, 0, 1), Bits(s, at, 1, 2);
      // The rest of the first byte is skipped: LEN starts at the next byte boundary.
      var len, nlen := Bits(s, at + 1, 0, 16), Bits(s, at + 3, 0, 16);
      var next := at + 5 + len;
      if kind != 0 || nlen != 0xFFFF - len || next > |s| then None
      else
        var block := Stored(last == 1, s[at + 5..next]);
        if last == 1 then Some(Inflated([block], next))
        else
          var rest := Inflate(s, next);
          if rest.None? then None else Some(Inflated([block] + rest.value.blocks, rest.value.next))
  }

  function Concat(blocks: seq<Stored>): seq<Byte> {
    if blocks == [] then [] else blocks[0].data + Concat(blocks[1..])
  }

  /** The blocks of a member with no optional header fields, if it is whole and nothing follows it. */
  function ReadMember(s: seq<Byte>): Option<seq<Stored>> {
    if |s| < 18 || s[0] != 0x1f || s[1] != 0x8b || s[2] != 8 || s[3] != 0 then None
    else
      var body := Inflate(s, 10);
      if body.None? || body.value.next + 8 != |s| then None
      else
        var data, tail := Concat(body.value.blocks), body.value.next;
        if Bits(s, tail, 0, 32) != Crc32(data) || Bits(s, tail + 4, 0, 32) != |data| % 0x1_0000_0000 then None
        else Some(body.value.blocks)
  }

  function Gunzip(s: seq<Byte>): Option<seq<Byte>> {
    var blocks := ReadMember(s);
    if blocks.None? then None else Some(Concat(blocks.value))
  }

  // ---- Reading whole bytes ----

  lemma Doubled(p: nat, x: nat)
    ensures 2 * (p * x) == (2 * p) * x
  {
  }

  lemma ShiftedOut(b: Byte)
    ensures ShiftRight(b, 7) < 2
  {
    assert ShiftRight(b, 1) == ShiftRight(b, 0) / 2 < 128;
    assert ShiftRight(b, 2) == ShiftRight(b, 1) / 2 < 64;
    assert ShiftRight(b, 3) == ShiftRight(b, 2) / 2 < 32;
    assert ShiftRight(b, 4) == ShiftRight(b, 3) / 2 < 16;
    assert ShiftRight(b, 5) == ShiftRight(b, 4) / 2 < 8;
    assert ShiftRight(b, 6) == ShiftRight(b, 5) / 2 < 4;
    assert ShiftRight(b, 7) == ShiftRight(b, 6) / 2 < 2;
  }

  /** A number that starts at bit `j` of a byte: the byte shifted right, then the bytes after it. */
  lemma {:induction false} RestOfByte(s: seq<Byte>, k: nat, j: nat, n: nat)
    requires j < 8 && 8 * (k + 1) + n <= 8 * |s|
    ensures Bits(s, k, j, 8 - j + n) == ShiftRight(s[k], j) + Pow2(8 - j) * Bits(s, k + 1, 0, n)
    decreases 8 - j
  {
    var after := Bits(s, k + 1, 0, n);
    if j == 7 {
      ShiftedOut(s[k]);
      assert Pow2(1) == 2;
    } else {
      RestOfByte(s, k, j + 1, n);
      assert 8 - j + n - 1 == 8 - (j + 1) + n;
      Doubled(Pow2(8 - (j + 1)), after);
    }
  }

  lemma ByteThenBits(s: seq<Byte>, k: nat, n: nat)
    requires 8 * (k + 1) + n <= 8 * |s|
    ensures Bits(s, k, 0, 8 + n) == s[k] as nat + 0x100 * Bits(s, k + 1, 0, n)
  {
    RestOfByte(s, k, 0, n);
    assert Pow2(4) == 16 && Pow2(8) == 16 * Pow2(4);
  }

  /** A number of two bytes, the less significant first. */
  function TwoBytes(s: seq<Byte>, k: nat): nat
    requires k + 2 <= |s|
  {
    var low: nat, high: nat := s[k], s[k + 1];
    low + 0x100 * high
  }

  lemma SixteenBitsAreTwoBytes(s: seq<Byte>, k: nat)
    requires k + 2 <= |s|
    ensures Bits(s, k, 0, 16) == TwoBytes(s, k)
  {
    ByteThenBits(s, k, 8);
    ByteThenBits(s, k + 1, 0);
    assert k + 2 < |s| ==> Bits(s, k + 2, 0, 0) == 0;
  }

  lemma ThirtyTwoBitsAreFourBytes(s: seq<Byte>, k: nat)
    requires k + 4 <= |s|
    ensures Bits(s, k, 0, 32) == TwoBytes(s, k) + 0x1_0000 * TwoBytes(s, k + 2)
  {
    ByteThenBits(s, k, 24);
    ByteThenBits(s, k + 1, 16);
    SixteenBitsAreTwoBytes(s, k + 2);
  }
}

/** Base64 with the standard alphabet and padding: section 4 of RFC 4648. */
module Base64 {
  import opened Wrappers

  type Byte = b: int | 0 <= b < 256

  /** A value of six bits. */
  type Sextet = v: int | 0 <= v < 64

  function Symbol(v: Sextet): char {
    if v < 26 then ('A' as int + v) as char
    else if v < 52 then ('a' as int + (v - 26)) as char
    else if v < 62 then ('0' as int + (v - 52)) as char
    else if v == 62 then '+'
    else '/'
  }

  function SextetOf(c: char): Option<Sextet> {
    if 'A' <= c <= 'Z' then Some(c as int - 'A' as int)
    else if 'a' <= c <= 'z' then Some(c as int - 'a' as int + 26)
    else if '0' <= c <= '9' then Some(c as int - '0' as int + 52)
    else if c == '+' then Some(62)
    else if c == '/' then Some(63)
    else None
  }

  /** Up to three bytes as four symbols, padded when there are fewer. */
  function EncodeGroup(bytes: seq<Byte>): (group: string)
    requires 1 <= |bytes| <= 3
    ensures |group| == 4
  {
    if |bytes| == 1 then
      [Symbol(bytes[0] / 4), Symbol(bytes[0] % 4 * 16), '=', '=']
    else if |bytes| == 2 then
      [Symbol(bytes[0] / 4), Symbol(bytes[0] % 4 * 16 + bytes[1] / 16), Symbol(bytes[1] % 16 * 4), '=']
    else
      [Symbol(bytes[0] / 4), Symbol(bytes[0] % 4 * 16 + bytes[1] / 16),
       Symbol(bytes[1] % 16 * 4 + bytes[2] / 64), Symbol(bytes[2] % 64)]
  }

  function Encode(bytes: seq<Byte>): string
    decreases |bytes|
  {
    if bytes == [] then ""
    else
      var n := if |bytes| < 3 then |bytes| else 3;
      EncodeGroup(bytes[..n]) + Encode(bytes[n..])
  }

  /** The bytes of one group of four symbols; the padding says how many, and only the last group has any. */
  function DecodeGroup(group: string, last: bool): Option<seq<Byte>>
    requires |group| == 4
  {
    var a, b, c, d := SextetOf(group[0]), SextetOf(group[1]), SextetOf(group[2]), SextetOf(group[3]);
    if a.None? || b.None? then None
    else if last && group[2] == '=' && group[3] == '=' then
      if b.value % 16 != 0 then None else Some([a.value * 4 + b.value / 16])
    else if c.None? then None
    else if last && group[3] == '=' then
      if c.value % 4 != 0 then None
      else Some([a.value * 4 + b.value / 16, b.value % 16 * 16 + c.value / 4])
    else if d.None? then None
    else Some([a.value * 4 + b.value / 16, b.value % 16 * 16 + c.value / 4, c.value % 4 * 64 + d.value])
  }

  /** Decoding refuses a length that is not whole groups, a foreign symbol, and padding bits that are not zero. */
  function Decode(text: string): Option<seq<Byte>>
    decreases |text|
  {
    if |text| == 0 then Some([])
    else if |text| < 4 then None
    else
      var group := DecodeGroup(text[..4], |text| == 4);
      var rest := Decode(text[4..]);
      if group.None? || rest.None? then None else Some(group.value + rest.value)
  }

  /** The standard alphabet, table 1 of RFC 4648: A to Z, a to z, 0 to 9, + and /, each run in order. */
  lemma SymbolsAreTheAlphabet(v: Sextet)
    ensures Symbol(0) == 'A' && Symbol(25) == 'Z' && Symbol(26) == 'a' && Symbol(51) == 'z'
    ensures Symbol(52) == '0' && Symbol(61) == '9' && Symbol(62) == '+' && Symbol(63) == '/'
    ensures v !in {25, 51, 61, 62, 63} ==> Symbol(v + 1) as int == Symbol(v) as int + 1
  {
  }

  /** Some of the test vectors in section 10 of RFC 4648: "f", "fo", "foo" and "foobar". */
  lemma TestVectors()
    ensures Encode([102]) == "Zg==" && Encode([102, 111]) == "Zm8=" && Encode([102, 111, 111]) == "Zm9v"
    ensures Encode([102, 111, 111, 98, 97, 114]) == "Zm9vYmFy"
  {
    var whole := [102, 111, 111, 98, 97, 114];
    assert whole[..3] == [102, 111, 111] && whole[3..] == [98, 97, 114];
    assert Encode([98, 97, 114]) == "YmFy";
    assert [102][1..] == [] && [102, 111][2..] == [] && [102, 111, 111][3..] == [];
  }

  lemma SymbolIsRead(v: Sextet)
    ensures SextetOf(Symbol(v)) == Some(v) && Symbol(v) != '='
  {
  }

  lemma Joined(x: nat, y: nat, n: nat)
    requires n in {4, 16, 64} && y < n
    ensures (x * n + y) / n == x && (x * n + y) % n == y
  {
  }

  lemma OneByteIsRead(b: Byte)
    ensures DecodeGroup(EncodeGroup([b]), true) == Some([b])
  {
    SymbolIsRead(b / 4);
    SymbolIsRead(b % 4 * 16);
    Joined(b % 4, 0, 16);
  }

  lemma TwoBytesAreRead(b0: Byte, b1: Byte)
    ensures DecodeGroup(EncodeGroup([b0, b1]), true) == Some([b0, b1])
  {
    SymbolIsRead(b0 / 4);
    SymbolIsRead(b0 % 4 * 16 + b1 / 16);
    SymbolIsRead(b1 % 16 * 4);
    Joined(b0 % 4, b1 / 16, 16);
    Joined(b1 % 16, 0, 4);
  }

  lemma ThreeBytesAreRead(b0: Byte, b1: Byte, b2: Byte, last: bool)
    ensures DecodeGroup(EncodeGroup([b0, b1, b2]), last) == Some([b0, b1, b2])
  {
    SymbolIsRead(b0 / 4);
    SymbolIsRead(b0 % 4 * 16 + b1 / 16);
    SymbolIsRead(b1 % 16 * 4 + b2 / 64);
    SymbolIsRead(b2 % 64);
    Joined(b0 % 4, b1 / 16, 16);
    Joined(b1 % 16, b2 / 64, 4);
  }

  lemma GroupIsRead(bytes: seq<Byte>, last: bool)
    requires 1 <= |bytes| <= 3 && (last || |bytes| == 3)
    ensures DecodeGroup(EncodeGroup(bytes), last) == Some(bytes)
  {
    if |bytes| == 1 {
      assert bytes == [bytes[0]];
      OneByteIsRead(bytes[0]);
    } else if |bytes| == 2 {
      assert bytes == [bytes[0], bytes[1]];
      TwoBytesAreRead(bytes[0], bytes[1]);
    } else {
      assert bytes == [bytes[0], bytes[1], bytes[2]];
      ThreeBytesAreRead(bytes[0], bytes[1], bytes[2], last);
    }
  }

  lemma DecodeGroupwise(group: string, bytes: seq<Byte>, text: string, rest: seq<Byte>)
    requires |group| == 4 && DecodeGroup(group, text == "") == Some(bytes) && Decode(text) == Some(rest)
    ensures Decode(group + text) == Some(bytes + rest)
  {
    assert (group + text)[..4] == group && (group + text)[4..] == text;
  }

  /** Decoding undoes encoding, for every byte string. */
  lemma {:induction false} DecodeUndoesEncode(bytes: seq<Byte>)
    ensures Decode(Encode(bytes)) == Some(bytes)
    decreases |bytes|
  {
    if bytes != [] {
      var n := if |bytes| < 3 then |bytes| else 3;
      GroupIsRead(bytes[..n], Encode(bytes[n..]) == "");
      DecodeUndoesEncode(bytes[n..]);
      DecodeGroupwise(EncodeGroup(bytes[..n]), bytes[..n], Encode(bytes[n..]), bytes[n..]);
      assert bytes[..n] + bytes[n..] == bytes;
    }
  }
}

/**
EncodeInitData: a confidential guest's init-data as a gzip member written by hand, in base64. One
document encodes one way whatever the compiler, and a reader written from the RFCs gets every
document back.
*/
module InitData {
  import opened Wrappers
  import opened Base64
  import opened Gzip

  /** ID1, ID2, deflate, no flags, no time, no extra flags, unknown OS. */
  const HEADER: seq<Byte> := [0x1f, 0x8b, 8, 0, 0, 0, 0, 0, 0, 0xff]

  const MAX_STORED := 0xffff

  function Le16(n: nat): seq<Byte>
    requires n < 0x1_0000
  {
    [n % 0x100, n / 0x100]
  }

  function Le32(n: nat): seq<Byte>
    requires n < 0x1_0000_0000
  {
    Le16(n % 0x1_0000) + Le16(n / 0x1_0000)
  }

  /** One stored block: BFINAL and BTYPE 00 in a byte, LEN, its complement, the bytes. */
  function Block(data: seq<Byte>, last: bool): seq<Byte>
    requires |data| <= MAX_STORED
  {
    [if last then 1 else 0] + Le16(|data|) + Le16(MAX_STORED - |data|) + data
  }

  function Deflate(data: seq<Byte>): seq<Byte>
    decreases |data|
  {
    if |data| <= MAX_STORED then Block(data, true)
    else Block(data[..MAX_STORED], false) + Deflate(data[MAX_STORED..])
  }

  function Member(document: seq<Byte>): seq<Byte> {
    HEADER + Deflate(document) + Le32(Crc32(document)) + Le32(|document| % 0x1_0000_0000)
  }

  /** The blocks a reader should find. */
  function Blocks(data: seq<Byte>): seq<Stored>
    decreases |data|
  {
    if |data| <= MAX_STORED then [Stored(true, data)]
    else [Stored(false, data[..MAX_STORED])] + Blocks(data[MAX_STORED..])
  }

  /** What is still to be written: nothing once the last block has been. */
  function Remaining(first: bool, data: seq<Byte>): seq<Byte> {
    if first || |data| > 0 then Deflate(data) else []
  }

  lemma DeflateStep(first: bool, data: seq<Byte>, n: nat)
    requires (first || |data| > 0) && n == if |data| < MAX_STORED then |data| else MAX_STORED
    ensures Remaining(first, data) == Block(data[..n], n == |data|) + Remaining(false, data[n..])
  {
    if n == |data| {
      assert data[..n] == data && data[n..] == [];
    }
  }

  lemma Regrouped<T>(a: seq<T>, b: seq<T>, c: seq<T>)
    ensures (a + b) + c == a + (b + c)
  {
  }

  method WriteBlock(written: seq<Byte>, data: seq<Byte>, last: bool) returns (buf: seq<Byte>)
    requires |data| <= MAX_STORED
    ensures buf == written + Block(data, last)
  {
    var bfinal := 0;
    if last {
      bfinal := 1;
    }
    buf := written + [bfinal];
    buf := buf + Le16(|data|);
    buf := buf + Le16(MAX_STORED - |data|);
    buf := buf + data;
  }

  /** What a reader of the annotation makes of it: base64, then a gzip member, checked to its last byte. */
  function DecodeInitData(text: string): Option<seq<Byte>> {
    var member := Base64.Decode(text);
    if member.None? then None else Gunzip(member.value)
  }

  /** The annotation: what the reader gets back from it is the document, whatever its bytes. */
  method EncodeInitData(document: seq<Byte>) returns (text: string)
    ensures text == Base64.Encode(Member(document))
    ensures DecodeInitData(text) == Some(document)
  {
    var data := document;
    var buf := HEADER;
    var first := true;
    while first || |data| > 0
      invariant first ==> data == document
      invariant buf + Remaining(first, data) == HEADER + Deflate(document)
      decreases |data|, first
    {
      var n := if |data| < MAX_STORED then |data| else MAX_STORED;
      DeflateStep(first, data, n);
      Regrouped(buf, Block(data[..n], n == |data|), Remaining(false, data[n..]));
      buf := WriteBlock(buf, data[..n], n == |data|);
      data := data[n..];
      first := false;
    }
    assert buf == buf + Remaining(first, data);
    buf := buf + Le32(Crc32(document));
    buf := buf + Le32(|document| % 0x1_0000_0000);
    text := Base64.Encode(buf);
    Base64.DecodeUndoesEncode(buf);
    MemberIsRead(document);
  }

  // ---- What the reader finds ----

  lemma Le16IsRead(s: seq<Byte>, k: nat, n: nat)
    requires n < 0x1_0000 && k + 2 <= |s| && s[k..k + 2] == Le16(n)
    ensures Bits(s, k, 0, 16) == n
  {
    SixteenBitsAreTwoBytes(s, k);
    assert s[k] == s[k..k + 2][0] && s[k + 1] == s[k..k + 2][1];
  }

  lemma Le32IsRead(s: seq<Byte>, k: nat, n: nat)
    requires n < 0x1_0000_0000 && k + 4 <= |s| && s[k..k + 4] == Le32(n)
    ensures Bits(s, k, 0, 32) == n
  {
    ThirtyTwoBitsAreFourBytes(s, k);
    assert s[k..k + 2] == s[k..k + 4][..2] == Le16(n % 0x1_0000);
    assert s[k + 2..k + 4] == s[k..k + 4][2..] == Le16(n / 0x1_0000);
    Le16IsRead(s, k, n % 0x1_0000);
    Le16IsRead(s, k + 2, n / 0x1_0000);
    SixteenBitsAreTwoBytes(s, k);
    SixteenBitsAreTwoBytes(s, k + 2);
  }

  lemma BlockTypeIsRead(s: seq<Byte>, at: nat)
    requires at < |s| && s[at] <= 1
    ensures Bits(s, at, 0, 1) == s[at] && Bits(s, at, 1, 2) == 0
  {
    assert ShiftRight(s[at], 1) == ShiftRight(s[at], 0) / 2 == 0;
    assert ShiftRight(s[at], 2) == ShiftRight(s[at], 1) / 2 == 0;
    assert Bits(s, at, 1, 2) == Bit(s, at, 1) + 2 * Bits(s, at, 2, 1);
  }

  lemma SlicedInFour<T>(a: seq<T>, b: seq<T>, c: seq<T>, d: seq<T>)
    ensures var s := a + b + c + d; var i, j := |a| + |b|, |a| + |b| + |c|;
      s[..|a|] == a && s[|a|..i] == b && s[i..j] == c && s[j..j + |d|] == d
  {
  }

  lemma SliceOfSlice<T>(s: seq<T>, at: nat, end: nat, i: nat, j: nat)
    requires at <= end <= |s| && i <= j <= end - at
    ensures s[at..end][i..j] == s[at + i..at + j]
  {
    forall k | 0 <= k < j - i ensures s[at..end][i..j][k] == s[at + i..at + j][k] {
      assert s[at..end][i..j][k] == s[at..end][i + k] == s[at + i + k];
    }
  }

  lemma BlockIsRead(s: seq<Byte>, at: nat, data: seq<Byte>, last: bool)
    requires |data| <= MAX_STORED && at + 5 + |data| <= |s|
    requires s[at..at + 5 + |data|] == Block(data, last)
    ensures Bits(s, at, 0, 1) == (if last then 1 else 0) && Bits(s, at, 1, 2) == 0
    ensures Bits(s, at + 1, 0, 16) == |data| && Bits(s, at + 3, 0, 16) == MAX_STORED - |data|
    ensures s[at + 5..at + 5 + |data|] == data
  {
    var final, len, nlen := [if last then 1 else 0], Le16(|data|), Le16(MAX_STORED - |data|);
    var b := s[at..at + 5 + |data|];
    SlicedInFour(final, len, nlen, data);
    assert s[at] == b[0] == final[0];
    BlockTypeIsRead(s, at);
    SliceOfSlice(s, at, at + 5 + |data|, 1, 3);
    SliceOfSlice(s, at, at + 5 + |data|, 3, 5);
    SliceOfSlice(s, at, at + 5 + |data|, 5, 5 + |data|);
    Le16IsRead(s, at + 1, |data|);
    Le16IsRead(s, at + 3, MAX_STORED - |data|);
  }

  lemma LastBlockIsRead(s: seq<Byte>, at: nat, data: seq<Byte>)
    requires |data| <= MAX_STORED && at + 5 + |data| <= |s|
    requires s[at..at + 5 + |data|] == Block(data, true)
    ensures Inflate(s, at) == Some(Inflated([Stored(true, data)], at + 5 + |data|))
  {
    BlockIsRead(s, at, data, true);
  }

  lemma FurtherBlockIsRead(s: seq<Byte>, at: nat, data: seq<Byte>, rest: Inflated)
    requires |data| <= MAX_STORED && at + 5 + |data| <= |s|
    requires s[at..at + 5 + |data|] == Block(data, false)
    requires Inflate(s, at + 5 + |data|) == Some(rest)
    ensures Inflate(s, at) == Some(Inflated([Stored(false, data)] + rest.blocks, rest.next))
  {
    BlockIsRead(s, at, data, false);
  }

  lemma SlicedInTwo<T>(s: seq<T>, at: nat, a: seq<T>, b: seq<T>)
    requires at + |a| + |b| <= |s| && s[at..at + |a| + |b|] == a + b
    ensures s[at..at + |a|] == a && s[at + |a|..at + |a| + |b|] == b
  {
    assert s[at..at + |a|] == s[at..at + |a| + |b|][..|a|];
    assert s[at + |a|..at + |a| + |b|] == s[at..at + |a| + |b|][|a|..];
  }

  /** Wherever the deflate stream stands in a member, the reader finds its blocks and its end. */
  lemma {:induction false} DeflateIsRead(s: seq<Byte>, at: nat, data: seq<Byte>)
    requires at + |Deflate(data)| <= |s| && s[at..at + |Deflate(data)|] == Deflate(data)
    ensures Inflate(s, at) == Some(Inflated(Blocks(data), at + |Deflate(data)|))
    decreases |data|
  {
    if |data| <= MAX_STORED {
      LastBlockIsRead(s, at, data);
    } else {
      var first, rest := data[..MAX_STORED], data[MAX_STORED..];
      var next, end := at + 5 + |first|, at + |Deflate(data)|;
      assert |Block(first, false)| == next - at && |Deflate(rest)| == end - next;
      SlicedInTwo(s, at, Block(first, false), Deflate(rest));
      var found := Inflated(Blocks(rest), end);
      assert Inflate(s, next) == Some(found) by {
        DeflateIsRead(s, next, rest);
      }
      FurtherBlockIsRead(s, at, first, found);
    }
  }

  lemma {:induction false} BlocksHoldTheData(data: seq<Byte>)
    ensures Concat(Blocks(data)) == data
    decreases |data|
  {
    if |data| > MAX_STORED {
      BlocksHoldTheData(data[MAX_STORED..]);
      assert Blocks(data)[1..] == Blocks(data[MAX_STORED..]);
    } else {
      assert Blocks(data)[1..] == [];
      assert data + [] == data;
    }
  }

  lemma TrailerIsRead(s: seq<Byte>, document: seq<Byte>)
    requires |s| == 18 + |Deflate(document)| && s[..10] == HEADER
    requires var tail := 10 + |Deflate(document)|;
      && s[10..tail] == Deflate(document) && s[tail..tail + 4] == Le32(Crc32(document))
      && s[tail + 4..tail + 8] == Le32(|document| % 0x1_0000_0000)
    ensures ReadMember(s) == Some(Blocks(document)) && Gunzip(s) == Some(document)
  {
    var tail := 10 + |Deflate(document)|;
    assert s[0] == s[..10][0] && s[1] == s[..10][1] && s[2] == s[..10][2] && s[3] == s[..10][3];
    DeflateIsRead(s, 10, document);
    BlocksHoldTheData(document);
    Le32IsRead(s, tail, Crc32(document));
    Le32IsRead(s, tail + 4, |document| % 0x1_0000_0000);
  }

  /** The reader accepts the member, finds the blocks in it, and the document in the blocks. */
  lemma MemberIsRead(document: seq<Byte>)
    ensures ReadMember(Member(document)) == Some(Blocks(document))
    ensures Gunzip(Member(document)) == Some(document)
  {
    var body, crc, size := Deflate(document), Le32(Crc32(document)), Le32(|document| % 0x1_0000_0000);
    SlicedInFour(HEADER, body, crc, size);
    TrailerIsRead(Member(document), document);
  }

  /** Byte for byte, the empty document: header, one empty last block, a CRC of zero, a size of zero. */
  lemma EmptyMember()
    ensures Member([]) == [0x1f, 0x8b, 8, 0, 0, 0, 0, 0, 0, 0xff, 1, 0, 0, 0xff, 0xff, 0, 0, 0, 0, 0, 0, 0, 0]
  {
    assert Crc32([]) == 0 by {
      assert CrcUpdate(0xFFFFFFFF, []) == 0xFFFFFFFF;
    }
    assert Block([], true) == [1, 0, 0, 0xff, 0xff];
  }

  /** Every member starts with that header. */
  lemma MemberStarts(document: seq<Byte>)
    ensures Member(document)[..10] == [0x1f, 0x8b, 8, 0, 0, 0, 0, 0, 0, 0xff]
  {
    assert Member(document)[..10] == HEADER;
  }

  /** Two documents never share an annotation. */
  lemma EncodingIsInjective(a: seq<Byte>, b: seq<Byte>)
    ensures Base64.Encode(Member(a)) == Base64.Encode(Member(b)) ==> a == b
  {
    Base64.DecodeUndoesEncode(Member(a));
    Base64.DecodeUndoesEncode(Member(b));
    MemberIsRead(a);
    MemberIsRead(b);
  }

  /** How many blocks a document of `n` bytes takes: an empty one still takes a block. */
  function BlockCount(n: nat): nat {
    if n == 0 then 1 else (n + MAX_STORED - 1) / MAX_STORED
  }

  /**
  The reader finds ceil(n / 65535) blocks, and one for the empty document: the last one and no other
  says it is the last, every other one is full, and the member is 18 + n bytes and five for each block.
  */
  lemma {:induction false} BlocksAreCounted(data: seq<Byte>)
    ensures var blocks := Blocks(data);
      && |blocks| == BlockCount(|data|)
      && (forall i :: 0 <= i < |blocks| ==> (blocks[i].last <==> i == |blocks| - 1))
      && (forall i :: 0 <= i < |blocks| - 1 ==> |blocks[i].data| == MAX_STORED)
      && |Deflate(data)| == |data| + 5 * |blocks|
    decreases |data|
  {
    if |data| > MAX_STORED {
      BlocksAreCounted(data[MAX_STORED..]);
      var rest := Blocks(data[MAX_STORED..]);
      assert forall i :: 1 <= i < |Blocks(data)| ==> Blocks(data)[i] == rest[i - 1];
      assert |data| + MAX_STORED - 1 == (|data| - MAX_STORED + MAX_STORED - 1) + MAX_STORED;
    }
  }

  lemma MemberLength(document: seq<Byte>)
    ensures |Member(document)| == 18 + |document| + 5 * BlockCount(|document|)
  {
    BlocksAreCounted(document);
  }
}

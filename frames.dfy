/** The relay's wire format on the named pipe: a 4-byte unsigned length,
    little-endian as BinaryWriter/BinaryReader write and read it, then the
    payload. Outbound payloads are ASCII-encoded (every character outside
    ASCII becomes '?'); inbound payloads are read back as characters, the
    length counting characters. */
module Frames {

  type byte = x: int | 0 <= x < 0x100

  const MaxInt := 0x7FFF_FFFF

  /** A .NET string: at most int.MaxValue characters. */
  type NetString = s: string | |s| <= MaxInt witness ""
  const Question: byte := 0x3F

  /** The byte ASCIIEncoding writes for one character. */
  function AsciiByte(c: char): (b: byte)
    ensures c as int < 0x80 ==> b == c as int
    ensures c as int >= 0x80 ==> b == Question
  {
    if c as int < 0x80 then c as int else Question
  }

  /** Encoding.ASCII.GetBytes: one byte per character. */
  function AsciiBytes(s: string): (bs: seq<byte>)
    ensures |bs| == |s|
    ensures forall i :: 0 <= i < |s| ==> bs[i] == AsciiByte(s[i])
  {
    if s == [] then [] else [AsciiByte(s[0])] + AsciiBytes(s[1..])
  }

  predicate IsAscii(s: string)
  {
    forall i :: 0 <= i < |s| ==> s[i] as int < 0x80
  }

  /** The character one payload byte is read back as: an ASCII byte is that
      character, any other byte the replacement character. */
  function CharOf(b: byte): (c: char)
    ensures b < 0x80 ==> c as int == b
  {
    if b < 0x80 then b as char else '\U{FFFD}'
  }

  function Chars(bs: seq<byte>): (s: string)
    ensures |s| == |bs|
    ensures forall i :: 0 <= i < |bs| ==> s[i] == CharOf(bs[i])
  {
    if bs == [] then [] else [CharOf(bs[0])] + Chars(bs[1..])
  }

  /** Decoding two runs of bytes decodes each in turn. */
  lemma CharsAppend(a: seq<byte>, b: seq<byte>)
    ensures Chars(a + b) == Chars(a) + Chars(b)
  {
    var s, t := Chars(a + b), Chars(a) + Chars(b);
    assert forall i :: 0 <= i < |s| ==> s[i] == t[i];
  }

  /** BinaryWriter.Write(uint): the four bytes, least significant first. */
  function Le32(n: nat): (bs: seq<byte>)
    requires n < 0x1_0000_0000
    ensures |bs| == 4
  {
    var a := n / 0x100;
    var b := a / 0x100;
    [n % 0x100, a % 0x100, b % 0x100, b / 0x100]
  }

  /** BinaryReader.ReadUInt32 on four bytes. */
  function U32(bs: seq<byte>): (n: nat)
    requires |bs| == 4
    ensures n < 0x1_0000_0000
  {
    bs[0] as int + 0x100 * bs[1] as int + 0x1_0000 * bs[2] as int + 0x100_0000 * bs[3] as int
  }

  /** Splitting a number into a low byte and the rest, and back. */
  lemma DivModByte(n: nat)
    ensures n == n % 0x100 + 0x100 * (n / 0x100)
  {
  }

  /** A low byte and a higher part, put together, split back into both. */
  lemma ByteSplit(low: int, high: nat)
    requires 0 <= low < 0x100
    ensures (low + 0x100 * high) % 0x100 == low && (low + 0x100 * high) / 0x100 == high
  {
  }

  /** Reading the four bytes of a written uint gives the uint back. */
  lemma U32OfLe32(n: nat)
    requires n < 0x1_0000_0000
    ensures U32(Le32(n)) == n
  {
    var a := n / 0x100;
    var b := a / 0x100;
    DivModByte(n);
    DivModByte(a);
    DivModByte(b);
    calc {
      U32(Le32(n));
      n % 0x100 + 0x100 * (a % 0x100) + 0x1_0000 * (b % 0x100) + 0x100_0000 * (b / 0x100);
      n % 0x100 + 0x100 * (a % 0x100 + 0x100 * (b % 0x100 + 0x100 * (b / 0x100)));
      n % 0x100 + 0x100 * (a % 0x100 + 0x100 * b);
      n % 0x100 + 0x100 * a;
      n;
    }
  }

  /** Writing the uint read from four bytes gives the same four bytes. */
  lemma Le32OfU32(bs: seq<byte>)
    requires |bs| == 4
    ensures Le32(U32(bs)) == bs
  {
    var r2: nat := bs[2] as int + 0x100 * bs[3] as int;
    var r1: nat := bs[1] as int + 0x100 * r2;
    assert U32(bs) == bs[0] as int + 0x100 * r1;
    ByteSplit(bs[0] as int, r1);
    ByteSplit(bs[1] as int, r2);
    ByteSplit(bs[2] as int, bs[3] as int);
  }

  /** The frame written for one outbound message (SmbServer.Start): the
      ASCII byte count, then the ASCII bytes. */
  function Frame(message: NetString): (bs: seq<byte>)
    ensures |bs| == 4 + |message|
  {
    Le32(|message|) + AsciiBytes(message)
  }

  /** A frame is the little-endian length, which reads back as the ASCII
      byte count, followed by exactly those bytes. */
  lemma FrameLayout(message: NetString)
    ensures Frame(message)[..4] == Le32(|AsciiBytes(message)|)
    ensures U32(Frame(message)[..4]) == |AsciiBytes(message)|
    ensures Frame(message)[4..] == AsciiBytes(message)
  {
    U32OfLe32(|message|);
  }

  /** What reading one frame from the bytes the peer sent does. */
  datatype FrameRead =
    | EndOfStream                          // fewer than four bytes: ReadUInt32 throws EndOfStreamException
    | NegativeCount                        // the (int) cast of the length is negative: ReadChars throws
    | Read(text: string, rest: seq<byte>)  // the characters read, and the bytes left in the pipe

  /** ReadUInt32, then ReadChars((int)len): a length above int.MaxValue is
      negative once cast; fewer payload bytes than the length yield the
      characters up to the end of the stream. */
  function ReadFrame(input: seq<byte>): (r: FrameRead)
    ensures |input| < 4 <==> r.EndOfStream?
    ensures r.NegativeCount? <==> |input| >= 4 && U32(input[..4]) > MaxInt
    ensures r.Read? ==> |r.text| == if U32(input[..4]) <= |input| - 4 then U32(input[..4]) else |input| - 4
    ensures r.Read? ==> r.text + Chars(r.rest) == Chars(input[4..])
    ensures r.Read? ==> 4 + |r.text| + |r.rest| == |input| && r.rest == input[4 + |r.text|..]
  {
    if |input| < 4 then EndOfStream
    else
      var len := U32(input[..4]);
      if len > MaxInt then NegativeCount
      else
        var k := if len <= |input| - 4 then len else |input| - 4;
        var text := Chars(input[4..4 + k]);
        assert |text| == k;
        assert input[4..4 + k] + input[4 + k..] == input[4..];
        CharsAppend(input[4..4 + k], input[4 + k..]);
        Read(text, input[4 + k..])
  }

  /** Frame round trip: reading back a written frame, followed by any further
      bytes, yields the message as ASCII-encoded (exactly the message when it
      is ASCII, including the empty message) and leaves the further bytes. */
  lemma {:induction false} ReadWrittenFrame(message: NetString, rest: seq<byte>)
    ensures ReadFrame(Frame(message) + rest) == Read(Chars(AsciiBytes(message)), rest)
    ensures IsAscii(message) ==> ReadFrame(Frame(message) + rest) == Read(message, rest)
  {
    var input := Frame(message) + rest;
    assert input[..4] == Le32(|message|);
    U32OfLe32(|message|);
    assert input[4..4 + |message|] == AsciiBytes(message);
    assert input[4 + |message|..] == rest;
    if IsAscii(message) {
      AsciiRoundTrip(message);
    }
  }

  /** ASCII text survives encoding and decoding unchanged. */
  lemma AsciiRoundTrip(s: string)
    requires IsAscii(s)
    ensures Chars(AsciiBytes(s)) == s
  {
    var t := Chars(AsciiBytes(s));
    assert forall i :: 0 <= i < |s| ==> t[i] == s[i];
  }

  /** Non-ASCII text does not survive: every character outside ASCII comes
      back as '?'. */
  lemma NonAsciiReplaced(s: string, i: int)
    requires 0 <= i < |s| && s[i] as int >= 0x80
    ensures Chars(AsciiBytes(s))[i] == '?'
  {
  }
}

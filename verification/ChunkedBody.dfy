/**
 The request body on its way to the backend: OnSendingRequest re-chunks what it reads from the client in
 place, and a reader of the chunked coding of section 4.1 of RFC 7230 gets the body back.
 */
module ChunkedBody {
  import opened Bytes

  /** The largest read, and the entity buffer with room for the frame around it. */
  const BUFFER_SIZE: nat := 8192
  const ENTITY_BUFFER_SIZE: nat := 6 + BUFFER_SIZE + 2

  /** HEX_TO_ASCII. */
  function HexDigit(d: nat): byte
    requires d < 16
  {
    if d < 10 then d + 48 else d + 97 - 10
  }

  function Hex(n: nat): (s: seq<byte>)
    ensures |s| > 0
  {
    if n < 16 then [HexDigit(n)] else Hex(n / 16) + [HexDigit(n % 16)]
  }

  const LAST_CHUNK: seq<byte> := [48, CR, LF, CR, LF]

  /** One chunk on the wire. */
  function Frame(data: seq<byte>): seq<byte> {
    Hex(|data|) + [CR, LF] + data + [CR, LF]
  }

  /** What is written for a body read in these pieces. */
  function Wire(pieces: seq<seq<byte>>): seq<byte> {
    if pieces == [] then [] else Frame(pieces[0]) + Wire(pieces[1..])
  }

  lemma {:induction false} WireAppend(pieces: seq<seq<byte>>, last: seq<byte>)
    ensures Wire(pieces + [last]) == Wire(pieces) + Frame(last)
  {
    if pieces == [] {
      assert pieces + [last] == [last];
    } else {
      WireAppend(pieces[1..], last);
      assert (pieces + [last])[1..] == pieces[1..] + [last];
    }
  }

  // ----- The framing in place -----

  /** The hexadecimal digits of a 16-bit number, as the four branches write them. */
  lemma HexBySize(n: nat)
    requires n < 0x10000
    ensures n < 0x10 ==> Hex(n) == [HexDigit(n)]
    ensures 0x10 <= n < 0x100 ==> Hex(n) == [HexDigit(n / 16), HexDigit(n % 16)]
    ensures 0x100 <= n < 0x1000 ==> Hex(n) == [HexDigit(n / 256), HexDigit(n / 16 % 16), HexDigit(n % 16)]
    ensures 0x1000 <= n ==>
      Hex(n) == [HexDigit(n / 4096), HexDigit(n / 256 % 16), HexDigit(n / 16 % 16), HexDigit(n % 16)]
  {
    assert n / 16 / 16 == n / 256 && n / 256 / 16 == n / 4096;
    if n >= 0x10 { assert Hex(n) == Hex(n / 16) + [HexDigit(n % 16)]; }
    if n >= 0x100 { assert Hex(n / 16) == Hex(n / 256) + [HexDigit(n / 16 % 16)]; }
    if n >= 0x1000 { assert Hex(n / 256) == Hex(n / 4096) + [HexDigit(n / 256 % 16)]; }
  }

  /** The size in hexadecimal, right-aligned in front of offset 4. */
  method WriteSize(buffer: array<byte>, n: nat) returns (offset: nat)
    requires buffer.Length == ENTITY_BUFFER_SIZE && n < 0x10000
    modifies buffer
    ensures offset <= 3 && buffer[offset..4] == Hex(n) && buffer[4..] == old(buffer[4..])
  {
    HexBySize(n);
    ghost var tail := buffer[4..];
    if n < 0x10 {
      offset := 3;
      buffer[3] := HexDigit(n);
    } else if n < 0x100 {
      offset := 2;
      buffer[2] := HexDigit(n / 16);
      buffer[3] := HexDigit(n % 16);
    } else if n < 0x1000 {
      offset := 1;
      buffer[1] := HexDigit(n / 256);
      buffer[2] := HexDigit(n / 16 % 16);
      buffer[3] := HexDigit(n % 16);
    } else {
      offset := 0;
      buffer[0] := HexDigit(n / 4096);
      buffer[1] := HexDigit(n / 256 % 16);
      buffer[2] := HexDigit(n / 16 % 16);
      buffer[3] := HexDigit(n % 16);
    }
    assert buffer[4..] == tail;
  }

  lemma Slices(b: seq<byte>, offset: nat, n: nat)
    requires offset <= 4 && 8 + n <= |b|
    ensures b[offset..8 + n] == b[offset..4] + b[4..6] + b[6..6 + n] + b[6 + n..8 + n]
  {
  }

  /** Re-chunks the n bytes read at offset 6: the frame is written around them, and what is to be sent is
      buffer[offset..offset + count]. */
  method FrameInPlace(buffer: array<byte>, n: nat) returns (offset: nat, count: nat)
    requires buffer.Length == ENTITY_BUFFER_SIZE && n <= BUFFER_SIZE
    modifies buffer
    ensures offset + count <= buffer.Length
    ensures buffer[offset..offset + count] == Frame(old(buffer[6..6 + n]))
  {
    ghost var data := buffer[6..6 + n];
    buffer[4] := CR;
    buffer[5] := LF;
    buffer[n + 6] := CR;
    buffer[n + 7] := LF;
    ghost var tail := buffer[4..];
    assert tail[..2] == [CR, LF] && tail[2..2 + n] == data && tail[2 + n..4 + n] == [CR, LF];
    offset := WriteSize(buffer, n);
    count := n + 8 - offset;
    Slices(buffer[..], offset, n);
    assert buffer[4..][..2] == buffer[4..6] && buffer[4..][2..2 + n] == buffer[6..6 + n] &&
      buffer[4..][2 + n..4 + n] == buffer[6 + n..8 + n];
  }

  // ----- Reading the chunked coding -----

  predicate IsHexDigit(b: byte) { 48 <= b <= 57 || 65 <= b <= 70 || 97 <= b <= 102 }

  function HexValue(b: byte): nat
    requires IsHexDigit(b)
  {
    if b <= 57 then b - 48 else if b <= 70 then b - 55 else b - 87
  }

  /** The longest run of hexadecimal digits at the front. */
  function HexRun(s: seq<byte>): (k: nat)
    ensures k <= |s|
  {
    if s == [] || !IsHexDigit(s[0]) then 0 else 1 + HexRun(s[1..])
  }

  function HexNumber(s: seq<byte>): nat
    requires forall i | 0 <= i < |s| :: IsHexDigit(s[i])
  {
    if s == [] then 0 else HexNumber(s[..|s| - 1]) * 16 + HexValue(s[|s| - 1])
  }

  lemma {:induction false} HexRunDigits(s: seq<byte>)
    ensures forall i | 0 <= i < HexRun(s) :: IsHexDigit(s[i])
  {
    if s != [] && IsHexDigit(s[0]) {
      HexRunDigits(s[1..]);
      forall i | 0 <= i < HexRun(s) ensures IsHexDigit(s[i]) {
        if i > 0 { assert s[i] == s[1..][i - 1]; }
      }
    }
  }

  datatype Decoded = Malformed | Body(data: seq<byte>, rest: seq<byte>)

  predicate StartsLine(s: seq<byte>) { |s| >= 2 && s[0] == CR && s[1] == LF }

  datatype Header = NoHeader | Size(n: nat, after: seq<byte>)

  /** chunk-size CRLF. */
  function ReadSize(s: seq<byte>): (h: Header)
    ensures h.Size? ==> |h.after| < |s|
  {
    var k := HexRun(s);
    HexRunDigits(s);
    if k == 0 || !StartsLine(s[k..]) then NoHeader else Size(HexNumber(s[..k]), s[k + 2..])
  }

  /** chunked-body = *chunk last-chunk CRLF: the data of the chunks and what follows the body.  Neither
      extensions nor trailers are read. */
  function Decode(s: seq<byte>): Decoded
    decreases |s|
  {
    match ReadSize(s)
    case NoHeader => Malformed
    case Size(n, after) =>
      if n == 0 then
        if StartsLine(after) then Body([], after[2..]) else Malformed
      else if n + 2 <= |after| && StartsLine(after[n..]) then
        match Decode(after[n + 2..])
        case Malformed => Malformed
        case Body(data, rest) => Body(after[..n] + data, rest)
      else Malformed
  }

  lemma {:induction false} HexIsDigits(n: nat)
    ensures forall i | 0 <= i < |Hex(n)| :: IsHexDigit(Hex(n)[i])
  {
    if n >= 16 { HexIsDigits(n / 16); }
  }

  lemma {:induction false} HexNumberOfHex(n: nat)
    ensures (forall i | 0 <= i < |Hex(n)| :: IsHexDigit(Hex(n)[i])) && HexNumber(Hex(n)) == n
  {
    HexIsDigits(n);
    if n >= 16 {
      HexNumberOfHex(n / 16);
      var h := Hex(n / 16);
      assert Hex(n)[..|h|] == h;
    } else {
      assert Hex(n)[..0] == [];
    }
  }

  lemma {:induction false} HexRunStops(s: seq<byte>, t: seq<byte>)
    requires forall i | 0 <= i < |s| :: IsHexDigit(s[i])
    requires t == [] || !IsHexDigit(t[0])
    ensures HexRun(s + t) == |s|
  {
    if s == [] {
      assert s + t == t;
    } else {
      assert (s + t)[1..] == s[1..] + t;
      HexRunStops(s[1..], t);
    }
  }

  lemma ReadSizeOfHex(n: nat, after: seq<byte>)
    ensures ReadSize(Hex(n) + [CR, LF] + after) == Size(n, after)
  {
    var h, tail := Hex(n), [CR, LF] + after;
    var s := h + [CR, LF] + after;
    assert s == h + tail;
    HexNumberOfHex(n);
    HexRunStops(h, tail);
    assert s[..|h|] == h && s[|h|..] == tail && s[|h| + 2..] == after;
  }

  /** A frame in front: its data comes out, unless it is empty, which reads as the end of the body. */
  lemma DecodeFrame(data: seq<byte>, s: seq<byte>)
    ensures Decode(Frame(data) + s) ==
      if data == [] then Body([], s)
      else match Decode(s) case Malformed => Malformed case Body(more, rest) => Body(data + more, rest)
  {
    var n, after := |data|, data + [CR, LF] + s;
    FrameParts(data, s);
    ReadSizeOfHex(n, after);
    if n == 0 {
      assert after[n..] == after;
    }
  }

  lemma FrameParts(data: seq<byte>, s: seq<byte>)
    ensures Frame(data) + s == Hex(|data|) + [CR, LF] + (data + [CR, LF] + s)
    ensures var after := data + [CR, LF] + s;
      |data| + 2 <= |after| && StartsLine(after[|data|..]) && after[|data| + 2..] == s && after[..|data|] == data
  {
    var after := data + [CR, LF] + s;
    assert after[|data|..] == [CR, LF] + s;
  }

  lemma LastChunkIsEmptyFrame()
    ensures Frame([]) == LAST_CHUNK
  {
  }

  /** The digits, and a chunk, as section 4.1 of RFC 7230 writes them. */
  lemma DigitsOnTheWire(d: nat, b: byte)
    requires d < 16
    ensures IsHexDigit(b) <==> b as char in "0123456789abcdefABCDEF"
    ensures HexDigit(d) as char == "0123456789abcdef"[d]
    ensures HexValue("0123456789abcdef"[d] as byte) == d && HexValue("0123456789ABCDEF"[d] as byte) == d
    ensures Frame([65, 66]) == [50, CR, LF, 65, 66, CR, LF]
  {
  }

  lemma WireSplit(pieces: seq<seq<byte>>, tail: seq<byte>)
    requires pieces != []
    ensures Wire(pieces) + tail == Frame(pieces[0]) + (Wire(pieces[1..]) + tail)
  {
  }

  /** However the body was read, as long as no read was empty, what was written decodes to the body. */
  lemma {:induction false} DecodeWire(pieces: seq<seq<byte>>)
    requires [] !in pieces
    ensures Decode(Wire(pieces) + LAST_CHUNK) == Body(Concat(pieces), [])
  {
    if pieces == [] {
      LastChunkIsEmptyFrame();
      DecodeFrame([], []);
      assert Wire(pieces) + LAST_CHUNK == Frame([]) + [];
    } else {
      DecodeWire(pieces[1..]);
      WireSplit(pieces, LAST_CHUNK);
      DecodeFrame(pieces[0], Wire(pieces[1..]) + LAST_CHUNK);
    }
  }

  /** A read of no bytes would end the body for the backend, whatever is written after it. */
  lemma {:induction false} EmptyReadEndsBody(before: seq<seq<byte>>, after: seq<seq<byte>>)
    requires [] !in before
    ensures Decode(Wire(before + [[]] + after) + LAST_CHUNK) == Body(Concat(before), Wire(after) + LAST_CHUNK)
  {
    var pieces := before + [[]] + after;
    WireSplit(pieces, LAST_CHUNK);
    if before == [] {
      assert pieces[0] == [] && pieces[1..] == after;
      DecodeFrame([], Wire(after) + LAST_CHUNK);
    } else {
      assert pieces[0] == before[0] && pieces[1..] == before[1..] + [[]] + after;
      EmptyReadEndsBody(before[1..], after);
      DecodeFrame(before[0], Wire(pieces[1..]) + LAST_CHUNK);
    }
  }

  /** The backend reads exactly the body if and only if no read was empty. */
  lemma BodyArrivesIff(pieces: seq<seq<byte>>)
    ensures Decode(Wire(pieces) + LAST_CHUNK) == Body(Concat(pieces), []) <==> [] !in pieces
  {
    if [] !in pieces {
      DecodeWire(pieces);
    } else {
      var k := FirstEmpty(pieces);
      assert pieces == pieces[..k] + [[]] + pieces[k + 1..];
      EmptyReadEndsBody(pieces[..k], pieces[k + 1..]);
    }
  }

  lemma {:induction false} FirstEmpty(pieces: seq<seq<byte>>) returns (k: nat)
    requires [] in pieces
    ensures k < |pieces| && pieces[k] == [] && [] !in pieces[..k]
  {
    if pieces[0] == [] {
      k := 0;
    } else {
      var j := FirstEmpty(pieces[1..]);
      k := j + 1;
      assert pieces[..k] == [pieces[0]] + pieces[1..][..j];
    }
  }
}

/**
 Base64Encode and Base64Decode.  Shifts and masks of disjoint bits are written as the divisions and
 remainders they are; sizes are 32-bit.
 */
module Base64 {
  import opened Bytes
  import opened Opening
  import opened Words

  datatype Status = Success | InsufficientBuffer | BufferOverflow | InvalidParameter

  // ----- The coding of section 4 of RFC 4648 -----

  /** rgchEncodeTable: A-Z, a-z, 0-9, '+', '/'. */
  function EncodeTable(v: nat): char
    requires v < 64
  {
    if v < 26 then (v + 65) as char
    else if v < 52 then (v - 26 + 97) as char
    else if v < 62 then (v - 52 + 48) as char
    else if v == 62 then '+'
    else '/'
  }

  /** Three bytes as four characters. */
  function Cluster(b0: byte, b1: byte, b2: byte): string {
    Symbols(b0 / 4, b0 % 4 * 16 + b1 / 16, b1 % 16 * 4 + b2 / 64, b2 % 64)
  }

  function Symbols(v0: nat, v1: nat, v2: nat, v3: nat): (c: string)
    requires v0 < 64 && v1 < 64 && v2 < 64 && v3 < 64
    ensures |c| == 4
  {
    [EncodeTable(v0), EncodeTable(v1), EncodeTable(v2), EncodeTable(v3)]
  }

  function Encode(s: seq<byte>): string {
    if s == [] then ""
    else if |s| == 1 then Cluster(s[0], 0, 0)[..2] + "=="
    else if |s| == 2 then Cluster(s[0], s[1], 0)[..3] + "="
    else Cluster(s[0], s[1], s[2]) + Encode(s[3..])
  }

  const NA: nat := 255

  /** DECODE with rgbDecodeTable; '=' decodes to 0 wherever it stands. */
  function DecodeTable(c: char): nat {
    if 'A' <= c <= 'Z' then c as int - 65
    else if 'a' <= c <= 'z' then c as int - 97 + 26
    else if '0' <= c <= '9' then c as int - 48 + 52
    else if c == '+' then 62
    else if c == '/' then 63
    else if c == '=' then 0
    else NA
  }

  /** Table 1 of RFC 4648. */
  const ALPHABET: string := UPPER + LOWER + DIGITS + "+/"

  /** The two tables are this one; no other character than these and '=' has a value. */
  lemma TablesAreTheAlphabet(v: nat, c: char)
    ensures |ALPHABET| == 64
    ensures v < 64 ==> EncodeTable(v) == ALPHABET[v] && DecodeTable(ALPHABET[v]) == v
    ensures DecodeTable(c) == NA <==> c !in ALPHABET && c != '='
    ensures DecodeTable('=') == 0
  {
    hide UPPER, LOWER, DIGITS;
    Uppers(c);
    Lowers(c);
    Digits(c);
  }

  /** The test vectors of section 10 of RFC 4648, those that show every padding. */
  lemma TestVectors()
    ensures Encode([102, 111, 111, 98, 97, 114]) == "Zm9vYmFy"
    ensures Encode([102, 111, 111, 98, 97]) == "Zm9vYmE="
    ensures Encode([102, 111, 111, 98]) == "Zm9vYg=="
  {
  }

  lemma TableBack(v: nat)
    requires v < 64
    ensures DecodeTable(EncodeTable(v)) == v && EncodeTable(v) != '='
  {
  }

  /** The upper bits of b after bits of another byte, and its lower bits before those of c. */
  lemma BitsBack(a: byte, b: byte, c: byte)
    ensures (a % 4 * 16 + b / 16) % 16 == b / 16 && (a % 4 * 16 + b / 16) / 16 == a % 4 && a % 4 * 16 + b / 16 < 64
    ensures (b % 16 * 4 + c / 64) / 4 == b % 16 && (b % 16 * 4 + c / 64) % 4 == c / 64 && b % 16 * 4 + c / 64 < 64
  {
  }

  lemma BytesBack(b0: byte, b1: byte, b2: byte)
    ensures b0 == b0 / 4 * 4 + (b0 % 4 * 16 + b1 / 16) / 16
    ensures b1 == (b0 % 4 * 16 + b1 / 16) % 16 * 16 + (b1 % 16 * 4 + b2 / 64) / 4
    ensures b2 == (b1 % 16 * 4 + b2 / 64) % 4 * 64 + b2 % 64
  {
    BitsBack(b0, b1, b2);
  }

  lemma ClusterBack(b0: byte, b1: byte, b2: byte)
    ensures Values(Cluster(b0, b1, b2)) && Triple(Cluster(b0, b1, b2)) == [b0, b1, b2]
    ensures '=' !in Cluster(b0, b1, b2)
  {
    BytesBack(b0, b1, b2);
    SixBitsBack(b0 / 4, b0 % 4 * 16 + b1 / 16, b1 % 16 * 4 + b2 / 64, b2 % 64, b0, b1, b2);
  }

  lemma SixBitsBack(v0: nat, v1: nat, v2: nat, v3: nat, b0: byte, b1: byte, b2: byte)
    requires v0 < 64 && v1 < 64 && v2 < 64 && v3 < 64
    requires b0 == v0 * 4 + v1 / 16 && b1 == v1 % 16 * 16 + v2 / 4 && b2 == v2 % 4 * 64 + v3
    ensures var c := Symbols(v0, v1, v2, v3); Values(c) && Triple(c) == [b0, b1, b2] && '=' !in c
  {
    TableBack(v0);
    TableBack(v1);
    TableBack(v2);
    TableBack(v3);
  }

  /** All characters have a value. */
  predicate Values(text: string) {
    forall i | 0 <= i < |text| :: DecodeTable(text[i]) != NA
  }

  /** The value of a character that has one. */
  function Value(c: char): (v: nat)
    ensures v < 64
  {
    if DecodeTable(c) == NA then 0 else DecodeTable(c)
  }

  /** The three bytes of four characters. */
  function Triple(c: string): (r: seq<byte>)
    requires |c| == 4
    ensures |r| == 3
  {
    var b0, b1, b2, b3 := Value(c[0]), Value(c[1]), Value(c[2]), Value(c[3]);
    [b0 * 4 + b1 / 16, b1 % 16 * 16 + b2 / 4, b2 % 4 * 64 + b3]
  }

  /** The bytes of every four characters. */
  function Triples(text: string): seq<byte>
    requires |text| % 4 == 0
  {
    if text == "" then [] else Triple(text[..4]) + Triples(text[4..])
  }

  /** How many bytes an encoded string stands for. */
  function DecodedSize(text: string): (n: nat)
    requires text != "" && |text| % 4 == 0
  {
    |text| / 4 * 3 - if text[|text| - 1] != '=' then 0 else if text[|text| - 2] != '=' then 1 else 2
  }

  lemma {:induction false} TriplesSize(text: string)
    requires |text| % 4 == 0
    ensures |Triples(text)| == |text| / 4 * 3
  {
    if text != "" { TriplesSize(text[4..]); }
  }

  /** Decode: the bytes of the clusters, without those the padding stands for. */
  function Decode(text: string): seq<byte>
    requires text != "" && |text| % 4 == 0
  {
    TriplesSize(text);
    Triples(text)[..DecodedSize(text)]
  }

  // ----- Round trip -----

  function Clusters(n: nat): nat { (n + 2) / 3 }

  lemma OneMoreCluster(n: nat)
    requires n > 2
    ensures Clusters(n) == Clusters(n - 3) + 1
  {
  }

  lemma {:induction false} EncodeSize(s: seq<byte>)
    ensures |Encode(s)| == 4 * Clusters(|s|)
  {
    if |s| > 2 {
      OneMoreCluster(|s|);
      EncodeSize(s[3..]);
      assert |Encode(s)| == 4 + |Encode(s[3..])|;
    }
  }

  lemma DecodeJoins(c: string, rest: string)
    requires |c| == 4 && Values(c) && rest != "" && |rest| % 4 == 0 && Values(rest)
    ensures Values(c + rest) && Decode(c + rest) == Triple(c) + Decode(rest)
    ensures DecodedSize(c + rest) == 3 + DecodedSize(rest)
  {
    hide Triple, Value, DecodeTable, NA;
    var t := c + rest;
    assert t[..4] == c && t[4..] == rest;
    assert t[|t| - 1] == rest[|rest| - 1] && t[|t| - 2] == rest[|rest| - 2];
    TriplesSize(rest);
  }

  lemma DecodeLast(c: string)
    requires |c| == 4 && Values(c)
    ensures Decode(c) == Triple(c)[..DecodedSize(c)]
  {
    assert c[..4] == c && c[4..] == "";
    assert Triples(c) == Triple(c) + [];
  }

  lemma PaddedBack(b0: byte, b1: byte)
    ensures var c := Cluster(b0, 0, 0)[..2] + "=="; |c| == 4 && Values(c) && Triple(c)[0] == b0 && c[1] != '='
    ensures var c := Cluster(b0, b1, 0)[..3] + "="; |c| == 4 && Values(c) && Triple(c)[..2] == [b0, b1] && c[2] != '='
  {
    ClusterBack(b0, 0, 0);
    ClusterBack(b0, b1, 0);
    TableBack(b0 / 4);
    TableBack(b0 % 4 * 16);
    TableBack(b0 % 4 * 16 + b1 / 16);
    TableBack(b1 % 16 * 4);
  }

  /** The text is base64 for exactly these bytes.  Closed. */
  ghost predicate Decodes(text: string, s: seq<byte>) {
    forall key: nat {:trigger Opened(key)} :: Opened(key) ==>
      text != "" && |text| % 4 == 0 && Values(text) && DecodedSize(text) == |s| && Decode(text) == s
  }

  lemma OneByte(b0: byte)
    ensures Decodes(Cluster(b0, 0, 0)[..2] + "==", [b0])
  {
    PaddedBack(b0, 0);
    DecodeLast(Cluster(b0, 0, 0)[..2] + "==");
  }

  lemma TwoBytes(b0: byte, b1: byte)
    ensures Decodes(Cluster(b0, b1, 0)[..3] + "=", [b0, b1])
  {
    PaddedBack(b0, b1);
    DecodeLast(Cluster(b0, b1, 0)[..3] + "=");
  }

  lemma ThreeBytes(b0: byte, b1: byte, b2: byte)
    ensures Decodes(Cluster(b0, b1, b2), [b0, b1, b2])
  {
    ClusterBack(b0, b1, b2);
    DecodeLast(Cluster(b0, b1, b2));
  }

  lemma MoreBytes(b0: byte, b1: byte, b2: byte, rest: string, s: seq<byte>)
    requires Decodes(rest, s)
    ensures Decodes(Cluster(b0, b1, b2) + rest, [b0, b1, b2] + s)
  {
    assert Opened(0);
    ClusterBack(b0, b1, b2);
    DecodeJoins(Cluster(b0, b1, b2), rest);
  }

  lemma {:induction false} EncodedDecodes(s: seq<byte>)
    requires s != []
    ensures Decodes(Encode(s), s)
  {
    if |s| == 1 {
      OneByte(s[0]);
      assert s == [s[0]];
    } else if |s| == 2 {
      TwoBytes(s[0], s[1]);
      assert s == [s[0], s[1]];
    } else if |s| == 3 {
      ThreeBytes(s[0], s[1], s[2]);
      assert s == [s[0], s[1], s[2]] && Encode(s) == Cluster(s[0], s[1], s[2]) + "";
      assert Encode(s) == Cluster(s[0], s[1], s[2]);
    } else {
      EncodedDecodes(s[3..]);
      MoreBytes(s[0], s[1], s[2], Encode(s[3..]), s[3..]);
      assert s == [s[0], s[1], s[2]] + s[3..];
    }
  }

  /** The encoding of any bytes decodes to them, with exactly their size. */
  lemma RoundTrip(s: seq<byte>)
    requires s != []
    ensures Encode(s) != "" && |Encode(s)| % 4 == 0 && Values(Encode(s))
    ensures DecodedSize(Encode(s)) == |s| && Decode(Encode(s)) == s
  {
    EncodedDecodes(s);
    assert Opened(0);
  }

  // ----- The encoder -----

  /** The largest size whose encoded size, with the terminator, fits 32 bits. */
  const MAX_ENCODED: nat := 3221225469

  /** cchEncoded, in 32-bit arithmetic. */
  function EncodedSize(n: dword): dword {
    (1 + (n + 2) % TWO_32 / 3 * 4 % TWO_32) % TWO_32
  }

  lemma EncodedSizeIff(n: dword)
    ensures EncodedSize(n) == 1 + 4 * Clusters(n) <==> n <= MAX_ENCODED
  {
    ClustersBound(n);
  }

  lemma ClustersBound(n: dword)
    ensures n <= MAX_ENCODED ==> (n + 2) / 3 <= 1073741823
    ensures n > MAX_ENCODED ==> (n + 2) / 3 > 1073741823
  {
  }

  function ByteOrZero(s: seq<byte>, i: nat): byte { if i < |s| then s[i] else 0 }

  /** The clusters from position i on, before the padding is put in: missing bytes are read as 0. */
  function FilledFrom(s: seq<byte>, i: nat): string
    decreases |s| - i
  {
    if i >= |s| then "" else Cluster(s[i], ByteOrZero(s, i + 1), ByteOrZero(s, i + 2)) + FilledFrom(s, i + 3)
  }

  /** The last characters of the last cluster replaced. */
  function Pad(t: string, r: nat): string {
    if r == 0 || |t| < 2 then t else if r == 1 then t[..|t| - 2] + "==" else t[..|t| - 1] + "="
  }

  lemma PadJoins(c: string, rest: string, r: nat)
    requires |rest| >= 2
    ensures Pad(c + rest, r) == c + Pad(rest, r)
  {
    var t := c + rest;
    if r == 1 {
      assert t[..|t| - 2] == c + rest[..|rest| - 2];
    } else if r > 1 {
      assert t[..|t| - 1] == c + rest[..|rest| - 1];
    }
  }

  lemma {:induction false} FilledSize(s: seq<byte>, i: nat)
    requires i <= |s|
    ensures |FilledFrom(s, i)| == 4 * Clusters(|s| - i)
    decreases |s| - i
  {
    if |s| - i > 2 {
      OneMoreCluster(|s| - i);
      FilledSize(s, i + 3);
      FilledStep(s, i);
    } else if i < |s| {
      assert FilledFrom(s, i + 3) == "";
    }
  }

  lemma FilledStep(s: seq<byte>, i: nat)
    requires i < |s|
    ensures FilledFrom(s, i) == Cluster(s[i], ByteOrZero(s, i + 1), ByteOrZero(s, i + 2)) + FilledFrom(s, i + 3)
  {
  }

  lemma EncodeStep(s: seq<byte>)
    requires |s| > 2
    ensures Encode(s) == Cluster(s[0], s[1], s[2]) + Encode(s[3..])
  {
    if |s| == 3 { assert s[3..] == []; }
  }

  /** Padding the filled clusters gives the encoding. */
  lemma {:induction false} PaddedIsEncode(s: seq<byte>, i: nat)
    requires i <= |s|
    ensures Pad(FilledFrom(s, i), (|s| - i) % 3) == Encode(s[i..])
    decreases |s| - i
  {
    if |s| - i > 3 {
      PaddedIsEncode(s, i + 3);
      EncodeStep(s[i..]);
      FilledStep(s, i);
      FilledSize(s, i + 3);
      SliceAgain(s, i);
      PadJoins(Cluster(s[i], s[i + 1], s[i + 2]), FilledFrom(s, i + 3), (|s| - i) % 3);
    } else if i < |s| {
      LastCluster(s, i);
    }
  }

  lemma SliceAgain(s: seq<byte>, i: nat)
    requires i + 3 <= |s|
    ensures s[i..][3..] == s[i + 3..] && (|s| - i) % 3 == (|s| - (i + 3)) % 3
  {
  }

  lemma LastCluster(s: seq<byte>, i: nat)
    requires i < |s| <= i + 3
    ensures Pad(FilledFrom(s, i), (|s| - i) % 3) == Encode(s[i..])
  {
    var c := Cluster(s[i], ByteOrZero(s, i + 1), ByteOrZero(s, i + 2));
    assert FilledFrom(s, i) == c + "" == c;
    if |s| == i + 3 {
      assert Encode(s[i..]) == c + Encode([]);
    }
  }

  /** One character, with the check that is made after it. */
  method Put(out: array<char>, ich: nat, c: char) returns (full: bool)
    requires ich < out.Length
    modifies out
    ensures out[..] == old(out[..])[ich := c] && (full <==> ich + 1 >= out.Length)
  {
    out[ich] := c;
    full := ich + 1 >= out.Length;
  }

  /** Four characters. */
  method PutCluster(out: array<char>, ich: nat, c: string) returns (full: bool)
    requires ich < out.Length && |c| == 4
    modifies out
    ensures full <==> ich + 4 >= out.Length
    ensures out[..ich] == old(out[..ich])
    ensures (!full ==> out[..ich + 4] == old(out[..ich]) + c && out[ich + 4..] == old(out[ich + 4..]))
  {
    full := Put(out, ich, c[0]);
    if !full { full := Put(out, ich + 1, c[1]); }
    else { return; }
    if !full { full := Put(out, ich + 2, c[2]); }
    else { return; }
    if !full { full := Put(out, ich + 3, c[3]); }
  }

  lemma ShiftedSlice<T>(c: seq<T>, rest: seq<T>, lo: nat, hi: nat)
    requires |c| <= lo <= hi <= |c| + |rest|
    ensures (c + rest)[lo..hi] == rest[lo - |c|..hi - |c|]
  {
  }

  /** Where a cluster is among the filled ones. */
  lemma {:induction false} FilledAt(s: seq<byte>, i: nat, g: nat)
    requires i + 3 * g < |s|
    ensures 4 * g + 4 <= |FilledFrom(s, i)|
    ensures FilledFrom(s, i)[4 * g..4 * g + 4] == Cluster(s[i + 3 * g], ByteOrZero(s, i + 3 * g + 1),
      ByteOrZero(s, i + 3 * g + 2))
    decreases g
  {
    FilledStep(s, i);
    if g > 0 {
      FilledAt(s, i + 3, g - 1);
      var c, rest := Cluster(s[i], ByteOrZero(s, i + 1), ByteOrZero(s, i + 2)), FilledFrom(s, i + 3);
      ShiftedSlice(c, rest, 4 * g, 4 * g + 4);
    }
  }

  /** The loop over byte triplets. */
  method EncodeClusters(data: seq<byte>, out: array<char>) returns (full: bool, ich: nat)
    requires out.Length > 0
    modifies out
    ensures full <==> out.Length <= 4 * Clusters(|data|)
    ensures !full ==> ich == 4 * Clusters(|data|) && out[..ich] == FilledFrom(data, 0) && out[ich..] == old(out[ich..])
  {
    hide Cluster, FilledFrom;
    FilledSize(data, 0);
    ghost var f, was, g := FilledFrom(data, 0), out[..], 0;
    var ib := 0;
    ich, full := 0, false;
    while ib < |data|
      invariant ich < out.Length && ich == 4 * g <= |f| && ib == 3 * g && (ib >= |data| ==> ich == |f|)
      invariant out[..ich] == f[..ich] && out[ich..] == was[ich..]
      decreases |data| - ib
    {
      FilledAt(data, 0, g);
      ClusterCount(|data|, g);
      full := PutCluster(out, ich, Cluster(data[ib], ByteOrZero(data, ib + 1), ByteOrZero(data, ib + 2)));
      if full {
        return;
      }
      Extended(f, out[..], was, ich);
      ib, ich, g := ib + 3, ich + 4, g + 1;
    }
    assert f[..ich] == f;
  }

  lemma ClusterCount(n: nat, g: nat)
    requires 3 * g < n
    ensures 4 * g + 4 <= 4 * Clusters(n) && (3 * g + 3 >= n ==> 4 * g + 4 == 4 * Clusters(n))
  {
  }

  lemma Extended(f: string, b: string, was: string, ich: nat)
    requires ich + 4 <= |f| && ich + 4 <= |b| == |was|
    requires b[..ich + 4] == f[..ich] + f[ich..ich + 4] && b[ich + 4..] == was[ich..][4..]
    ensures b[..ich + 4] == f[..ich + 4] && b[ich + 4..] == was[ich + 4..]
  {
  }

  /** The padding of the last cluster, and the terminator. */
  method PadLast(out: array<char>, ich: nat, r: nat)
    requires ich < out.Length && r < 3 && (r > 0 ==> ich >= 2)
    modifies out
    ensures out[..] == Pad(old(out[..ich]), r) + ['\0'] + old(out[ich + 1..])
  {
    if r == 1 {
      out[ich - 2] := '=';
    }
    if r != 0 {
      out[ich - 1] := '=';
    }
    out[ich] := '\0';
  }

  /** Base64Encode; null asks only for the size.  For all sizes up to MAX_ENCODED the checks inside the loop
      never fail; for larger ones the size wraps around and nothing is encoded. */
  method Base64Encode(data: seq<byte>, out: array?<char>) returns (status: Status, cchEncoded: dword)
    requires |data| < TWO_32 && (out != null ==> out.Length < TWO_32)
    modifies out
    ensures cchEncoded == EncodedSize(|data|) && (|data| <= MAX_ENCODED ==> status in {Success, InsufficientBuffer})
    ensures |data| <= MAX_ENCODED ==> (status == Success <==> out == null || out.Length >= cchEncoded)
    ensures |data| <= MAX_ENCODED && out != null && status == Success ==>
      cchEncoded == |Encode(data)| + 1 && out[..] == Encode(data) + ['\0'] + old(out[cchEncoded..])
    ensures |data| > MAX_ENCODED && out != null ==> status != Success
  {
    hide FilledFrom, Encode;
    EncodedSizeIff(|data|);
    EncodeSize(data);
    cchEncoded := EncodedSize(|data|);
    if out == null {
      return Success, cchEncoded;
    }
    if out.Length < cchEncoded {
      return InsufficientBuffer, cchEncoded;
    }
    var full, ich := EncodeClusters(data, out);
    if full {
      return BufferOverflow, cchEncoded;
    }
    FilledSize(data, 0);
    PaddedIsEncode(data, 0);
    assert data[0..] == data && out[ich + 1..] == old(out[ich + 1..]);
    PadLast(out, ich, |data| % 3);
    return Success, cchEncoded;
  }

  // ----- The decoder -----

  /** Where a triple is among all. */
  lemma {:induction false} TripleAt(text: string, g: nat)
    requires |text| % 4 == 0 && 4 * g + 4 <= |text|
    ensures 3 * g + 3 <= |Triples(text)| && Triples(text)[3 * g..3 * g + 3] == Triple(text[4 * g..4 * g + 4])
    decreases g
  {
    TriplesSize(text);
    if g > 0 {
      TripleAt(text[4..], g - 1);
      ShiftedSlice(text[..4], text[4..], 4 * g, 4 * g + 4);
      assert text[..4] + text[4..] == text;
      ShiftedSlice(Triple(text[..4]), Triples(text[4..]), 3 * g, 3 * g + 3);
    }
  }

  /** The bytes of one cluster, as many as belong to the result. */
  method PutTriple(out: array<byte>, ib: nat, cbDecoded: nat, c: string) returns (ib': nat)
    requires |c| == 4 && Values(c) && ib < cbDecoded <= out.Length
    modifies out
    ensures ib' == if ib + 3 <= cbDecoded then ib + 3 else cbDecoded
    ensures out[..ib'] == old(out[..ib]) + Triple(c)[..ib' - ib] && out[cbDecoded..] == old(out[cbDecoded..])
  {
    var b0, b1, b2, b3 := DecodeTable(c[0]), DecodeTable(c[1]), DecodeTable(c[2]), DecodeTable(c[3]);
    out[ib] := b0 * 4 + b1 / 16;
    ib' := ib + 1;
    if ib' < cbDecoded {
      out[ib'] := b1 % 16 * 16 + b2 / 4;
      ib' := ib' + 1;
      if ib' < cbDecoded {
        out[ib'] := b2 % 4 * 64 + b3;
        ib' := ib' + 1;
      }
    }
  }

  /** The loop over clusters.  All writes stay below cbDecoded. */
  method DecodeClusters(text: string, out: array<byte>, cbDecoded: nat) returns (status: Status)
    requires text != "" && |text| % 4 == 0 && cbDecoded == DecodedSize(text) <= out.Length
    modifies out
    ensures status == if Values(text) then Success else InvalidParameter
    ensures status == Success ==> out[..cbDecoded] == Decode(text)
    ensures out[cbDecoded..] == old(out[cbDecoded..])
  {
    hide Triples, Triple;
    TriplesSize(text);
    ghost var t, g := Triples(text), 0;
    var ich, ib := 0, 0;
    while ich < |text|
      invariant ich <= |text| && ich == 4 * g && ib == (if 3 * g <= cbDecoded then 3 * g else cbDecoded)
      invariant Values(text[..ich]) && out[..ib] == t[..ib]
      invariant out[cbDecoded..] == old(out[cbDecoded..])
    {
      var c := text[ich..ich + 4];
      if DecodeTable(c[0]) == NA || DecodeTable(c[1]) == NA || DecodeTable(c[2]) == NA || DecodeTable(c[3]) == NA {
        BadCharacter(text, ich);
        return InvalidParameter;
      }
      TripleAt(text, g);
      var ib' := PutTriple(out, ib, cbDecoded, c);
      NextPart(t, 3 * g, ib, ib');
      ich, ib, g := ich + 4, ib', g + 1;
    }
    assert text[..|text|] == text;
    return Success;
  }

  lemma NextPart(t: seq<byte>, i: nat, ib: nat, ib': nat)
    requires i + 3 <= |t| && ib <= i + 3 && ib <= ib' <= i + 3 && (ib == i || ib == ib')
    ensures t[..ib'] == t[..ib] + t[i..i + 3][..ib' - ib]
  {
  }

  lemma BadCharacter(text: string, ich: nat)
    requires ich + 4 <= |text|
    requires DecodeTable(text[ich]) == NA || DecodeTable(text[ich + 1]) == NA || DecodeTable(text[ich + 2]) == NA ||
      DecodeTable(text[ich + 3]) == NA
    ensures !Values(text)
  {
  }

  /** Base64Decode; null asks only for the size. */
  method Base64Decode(text: string, out: array?<byte>) returns (status: Status, cbDecoded: nat)
    requires |text| < TWO_32
    modifies out
    ensures text == "" || |text| % 4 != 0 ==> status == InvalidParameter && cbDecoded == 0
    ensures text != "" && |text| % 4 == 0 ==> cbDecoded == DecodedSize(text)
    ensures text != "" && |text| % 4 == 0 ==>
      status == if out == null then Success else if out.Length < cbDecoded then InsufficientBuffer
                else if Values(text) then Success else InvalidParameter
    ensures text != "" && status == Success && out != null ==>
      out[..cbDecoded] == Decode(text) && out[cbDecoded..] == old(out[cbDecoded..])
  {
    if text == "" || |text| % 4 != 0 {
      return InvalidParameter, 0;
    }
    cbDecoded := (|text| + 3) / 4 * 3;
    if text[|text| - 1] == '=' {
      if text[|text| - 2] == '=' {
        cbDecoded := cbDecoded - 2;
      } else {
        cbDecoded := cbDecoded - 1;
      }
    }
    if out == null {
      return Success, cbDecoded;
    }
    if cbDecoded > out.Length {
      return InsufficientBuffer, cbDecoded;
    }
    status := DecodeClusters(text, out, cbDecoded);
  }
}

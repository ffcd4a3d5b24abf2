/**
 STRA::Escape and the in-place STRA::Unescape, on strings of bytes without NUL.

 WideCharToMultiByte, which a %u escape goes through, depends on the system's code page: it is a parameter
 that gives at most 6 bytes for each 16-bit character.
 */
module Escaping {
  import opened Bytes
  import opened Opening

  const PERCENT: byte := 37

  datatype CodePage = CodePage(convert: int -> seq<byte>)
  {
    /** WideCharToMultiByte into 6 bytes; nothing is written if that is not enough. */
    function ToBytes(w: int): (r: seq<byte>)
      ensures |r| <= 6
    {
      if |convert(w)| <= 6 then convert(w) else []
    }

    /** No 16-bit character has a code of 6 bytes, as in every code page there is. */
    ghost predicate IsNarrow() {
      forall w :: |ToBytes(w)| < 6
    }
  }

  // ----- One escape -----

  /** SAFEIsXDigit. */
  predicate IsXDigit(b: byte) { 48 <= b <= 57 || 65 <= b <= 70 || 97 <= b <= 102 }

  /** TOHEX. */
  function ToHex(b: byte): nat
    requires IsXDigit(b)
  {
    if b > 57 then (if b >= 97 then b - 97 + 10 else b - 65 + 10) else b - 48
  }

  /** TODIGIT. */
  function ToDigit(d: nat): byte
    requires d < 16
  {
    if d > 9 then d - 10 + 65 else d + 48
  }

  /** Digits in either case. */
  lemma DigitsInEitherCase(d: nat, b: byte)
    requires d < 16
    ensures IsXDigit(b) <==> b as char in "0123456789abcdefABCDEF"
    ensures ToDigit(d) as char == "0123456789ABCDEF"[d]
    ensures IsXDigit("0123456789abcdef"[d] as byte) && ToHex("0123456789abcdef"[d] as byte) == d
    ensures IsXDigit("0123456789ABCDEF"[d] as byte) && ToHex("0123456789ABCDEF"[d] as byte) == d
  {
  }

  predicate HexAt(s: seq<byte>, i: nat) { i < |s| && IsXDigit(s[i]) }

  /** %uxxxx */
  predicate WideAt(s: seq<byte>, i: nat) {
    i + 1 < |s| && s[i] == PERCENT && (s[i + 1] == 117 || s[i + 1] == 85) && HexAt(s, i + 2) && HexAt(s, i + 3) &&
      HexAt(s, i + 4) && HexAt(s, i + 5)
  }

  /** %xx */
  predicate ByteAt(s: seq<byte>, i: nat) {
    i < |s| && s[i] == PERCENT && HexAt(s, i + 1) && HexAt(s, i + 2)
  }

  predicate EscapeAt(s: seq<byte>, i: nat) { WideAt(s, i) || ByteAt(s, i) }

  function EscapeLength(s: seq<byte>, i: nat): (n: nat)
    requires EscapeAt(s, i)
    ensures 3 <= n <= 6 && i + n <= |s|
  {
    if WideAt(s, i) then 6 else 3
  }

  function Unescaped(s: seq<byte>, i: nat, page: CodePage): (r: seq<byte>)
    requires EscapeAt(s, i)
    ensures |r| <= EscapeLength(s, i)
  {
    if WideAt(s, i) then
      page.ToBytes(ToHex(s[i + 2]) * 4096 + ToHex(s[i + 3]) * 256 + ToHex(s[i + 4]) * 16 + ToHex(s[i + 5]))
    else [ToHex(s[i + 1]) * 16 + ToHex(s[i + 2])]
  }

  // ----- The reference: escapes are replaced from left to right -----

  function DecodeFrom(s: seq<byte>, i: nat, page: CodePage): seq<byte>
    requires i <= |s|
    decreases |s| - i
  {
    if i == |s| then []
    else if EscapeAt(s, i) then Unescaped(s, i, page) + DecodeFrom(s, i + EscapeLength(s, i), page)
    else [s[i]] + DecodeFrom(s, i + 1, page)
  }

  function Decode(s: seq<byte>, page: CodePage): seq<byte> { DecodeFrom(s, 0, page) }

  /** Where the first escape from i on starts; |s| if there is none. */
  function EscapeFrom(s: seq<byte>, i: nat): (k: nat)
    requires i <= |s|
    ensures i <= k <= |s| && (k < |s| ==> EscapeAt(s, k)) && forall j | i <= j < k :: !EscapeAt(s, j)
    decreases |s| - i
  {
    if i == |s| || EscapeAt(s, i) then i else EscapeFrom(s, i + 1)
  }

  function FirstEscape(s: seq<byte>): nat { EscapeFrom(s, 0) }

  function FirstPercent(s: seq<byte>): (k: nat)
    ensures k <= |s| && (k < |s| ==> s[k] == PERCENT) && forall i | 0 <= i < k :: s[i] != PERCENT
  {
    if s == [] || s[0] == PERCENT then 0 else 1 + FirstPercent(s[1..])
  }

  function Percents(s: seq<byte>): (n: nat)
    ensures n <= |s|
  {
    if s == [] then 0 else (if s[|s| - 1] == PERCENT then 1 else 0) + Percents(s[..|s| - 1])
  }

  lemma DecodeEnd(s: seq<byte>, page: CodePage)
    ensures DecodeFrom(s, |s|, page) == []
  {
  }

  lemma DecodeOne(s: seq<byte>, i: nat, page: CodePage)
    requires i < |s| && !EscapeAt(s, i)
    ensures DecodeFrom(s, i, page) == [s[i]] + DecodeFrom(s, i + 1, page)
  {
  }

  lemma DecodeNext(s: seq<byte>, i: nat, page: CodePage)
    requires EscapeAt(s, i)
    ensures DecodeFrom(s, i, page) == Unescaped(s, i, page) + DecodeFrom(s, i + EscapeLength(s, i), page)
  {
  }

  /** Bytes without an escape in front are copied. */
  lemma {:induction false} DecodeCopies(s: seq<byte>, i: nat, k: nat, page: CodePage)
    requires i <= k <= |s| && forall j | i <= j < k :: !EscapeAt(s, j)
    ensures DecodeFrom(s, i, page) == s[i..k] + DecodeFrom(s, k, page)
    decreases k - i
  {
    if i < k {
      DecodeOne(s, i, page);
      DecodeCopies(s, i + 1, k, page);
      assert s[i..k] == [s[i]] + s[i + 1..k];
      Regroup([s[i]], s[i + 1..k], DecodeFrom(s, k, page));
    }
  }

  // ----- What the code computes -----

  /** Up to the first NUL. */
  function UpToNul(s: seq<byte>): seq<byte> {
    if s == [] || s[0] == 0 then [] else [s[0]] + UpToNul(s[1..])
  }

  /** The write pointer starts at the first '%' and moves by one for every '%' that starts no escape, but not
      over the text between them, until an escape has been found. */
  function Rewritten(s: seq<byte>, page: CodePage): seq<byte> {
    var v := FirstEscape(s);
    if v == |s| then s else s[..WriteStart(s, v)] + DecodeFrom(s, v, page)
  }

  function WriteStart(s: seq<byte>, v: nat): (d: nat)
    requires v < |s| && EscapeAt(s, v)
    ensures d <= v
  {
    CountUpTo(s, FirstPercent(s), v);
    FirstPercent(s) + Percents(s[..v])
  }

  lemma {:induction false} CountUpTo(s: seq<byte>, f: nat, v: nat)
    requires f <= v <= |s| && forall i | 0 <= i < f :: s[i] != PERCENT
    ensures f + Percents(s[..v]) <= v
    ensures f + Percents(s[..v]) == v <==> forall i | f <= i < v :: s[i] == PERCENT
    decreases v
  {
    if v > f {
      CountUpTo(s, f, v - 1);
      assert s[..v][..v - 1] == s[..v - 1];
    } else if v > 0 {
      CountUpTo(s, f - 1, v - 1);
      assert s[..v][..v - 1] == s[..v - 1];
      NonePercent(s[..v]);
    }
  }

  lemma {:induction false} NonePercent(s: seq<byte>)
    requires forall i | 0 <= i < |s| :: s[i] != PERCENT
    ensures Percents(s) == 0
  {
    if s != [] { NonePercent(s[..|s| - 1]); }
  }

  // ----- The walk in place -----

  /** strchr: the first b at or after i, or the end of the string. */
  method Strchr(buffer: array<byte>, i: nat, end: nat, b: byte) returns (k: nat)
    requires i <= end < buffer.Length && b != 0 && buffer[end] == 0 && forall j | i <= j < end :: buffer[j] != 0
    ensures i <= k <= end && (k < end ==> buffer[k] == b) && forall j | i <= j < k :: buffer[j] != b
  {
    k := i;
    while buffer[k] != 0 && buffer[k] != b
      invariant i <= k <= end && forall j | i <= j < k :: buffer[j] != b
      decreases end - k
    {
      k := k + 1;
    }
  }

  /** memmove towards the front. */
  method MoveDown(buffer: array<byte>, dest: nat, src: nat, n: nat)
    requires dest <= src && src + n <= buffer.Length
    modifies buffer
    ensures forall j | 0 <= j < buffer.Length ::
      buffer[j] == old(buffer[if dest <= j < dest + n then j - dest + src else j])
  {
    forall k | 0 <= k < n {
      buffer[dest + k] := buffer[src + k];
    }
  }

  /** strlen. */
  method Strlen(buffer: array<byte>, end: nat) returns (n: nat)
    requires end < buffer.Length && buffer[end] == 0
    ensures n <= end && buffer[n] == 0 && buffer[..n] == UpToNul(buffer[..end])
  {
    n := 0;
    while buffer[n] != 0
      invariant n <= end && forall j | 0 <= j < n :: buffer[j] != 0
      decreases end - n
    {
      n := n + 1;
    }
    CutAtFirst(buffer[..end], n);
    assert buffer[..end][..n] == buffer[..n];
  }

  lemma {:induction false} CutAtFirst(s: seq<byte>, n: nat)
    requires n <= |s| && (n < |s| ==> s[n] == 0) && forall j | 0 <= j < n :: s[j] != 0
    ensures UpToNul(s) == s[..n]
  {
    if n > 0 {
      CutAtFirst(s[1..], n - 1);
      assert s[..n] == [s[0]] + s[1..][..n - 1];
    }
  }

  /** With `front` written and everything before i read, decoding the rest completes the result.  Closed. */
  ghost predicate DecodedTo(front: seq<byte>, s: seq<byte>, i: nat, page: CodePage, result: seq<byte>)
    requires i <= |s|
  {
    forall key: nat {:trigger Opened(key)} :: Opened(key) ==> front + DecodeFrom(s, i, page) == result
  }

  lemma Regroup(a: seq<byte>, b: seq<byte>, c: seq<byte>)
    ensures a + (b + c) == (a + b) + c
  {
  }

  lemma DecodedAtFirst(s: seq<byte>, page: CodePage)
    requires FirstEscape(s) < |s|
    ensures DecodedTo(s[..WriteStart(s, FirstEscape(s))], s, FirstEscape(s), page, Rewritten(s, page))
  {
  }

  lemma DecodedEscape(front: seq<byte>, s: seq<byte>, i: nat, page: CodePage, result: seq<byte>)
    requires i < |s| && DecodedTo(front, s, i, page, result) && EscapeAt(s, i)
    ensures DecodedTo(front + Unescaped(s, i, page), s, i + EscapeLength(s, i), page, result)
  {
    assert Opened(0);
    Regroup(front, Unescaped(s, i, page), DecodeFrom(s, i + EscapeLength(s, i), page));
  }

  lemma DecodedText(front: seq<byte>, s: seq<byte>, i: nat, k: nat, page: CodePage, result: seq<byte>)
    requires i <= k <= |s| && DecodedTo(front, s, i, page, result) && forall j | i <= j < k :: !EscapeAt(s, j)
    ensures DecodedTo(front + s[i..k], s, k, page, result)
  {
    assert Opened(0);
    DecodeCopies(s, i, k, page);
    Regroup(front, s[i..k], DecodeFrom(s, k, page));
  }

  lemma DecodedAll(front: seq<byte>, s: seq<byte>, page: CodePage, result: seq<byte>)
    requires DecodedTo(front, s, |s|, page, result)
    ensures front == result
  {
    assert Opened(0);
    assert front + [] == front;
  }

  /** From i on the buffer still holds the string. */
  ghost predicate Unread(b: seq<byte>, s: seq<byte>, i: nat) {
    |b| > |s| && b[|s|] == 0 && forall j | i <= j < |s| :: b[j] == s[j]
  }

  /** What the buffer holds when the read pointer is at i and the write pointer at d. */
  ghost predicate Scanning(
      b: seq<byte>, s: seq<byte>, i: nat, d: nat, changed: bool, page: CodePage, result: seq<byte>) {
    && d <= i <= |s| && Unread(b, s, if changed then i else 0)
    && (if changed then DecodedTo(b[..d], s, i, page, result)
        else i <= FirstEscape(s) && d == FirstPercent(s) + Percents(s[..i]))
  }

  lemma ScanStart(b: seq<byte>, s: seq<byte>, page: CodePage, result: seq<byte>)
    requires Unread(b, s, 0)
    ensures Scanning(b, s, FirstPercent(s), FirstPercent(s), false, page, result)
  {
    NonePercent(s[..FirstPercent(s)]);
  }

  /** The escape that is met first. */
  lemma FirstMet(b: seq<byte>, s: seq<byte>, i: nat, d: nat, page: CodePage, result: seq<byte>)
    requires Scanning(b, s, i, d, false, page, result) && EscapeAt(s, i)
    ensures i == FirstEscape(s) && d == WriteStart(s, i) && b[..d] == s[..d]
  {
  }

  /** At an escape, what is in front of the write pointer is right, whether or not it is the first. */
  lemma AtEscape(b: seq<byte>, s: seq<byte>, i: nat, d: nat, changed: bool, page: CodePage, result: seq<byte>)
    requires Scanning(b, s, i, d, changed, page, result) && EscapeAt(s, i) && result == Rewritten(s, page)
    ensures DecodedTo(b[..d], s, i, page, result)
  {
    if !changed {
      FirstMet(b, s, i, d, page, result);
      DecodedAtFirst(s, page);
    }
  }

  lemma EscapeStep(b: seq<byte>, s: seq<byte>, i: nat, d: nat, changed: bool, page: CodePage, result: seq<byte>)
    requires Scanning(b, s, i, d, changed, page, result) && EscapeAt(s, i) && result == Rewritten(s, page)
    ensures DecodedTo(b[..d] + Unescaped(s, i, page), s, i + EscapeLength(s, i), page, result)
  {
    AtEscape(b, s, i, d, changed, page, result);
    DecodedEscape(b[..d], s, i, page, result);
  }

  /** A '%' that starts no escape is passed. */
  lemma ScanPercent(
      b: seq<byte>, b': seq<byte>, s: seq<byte>, i: nat, d: nat, changed: bool, page: CodePage, result: seq<byte>)
    requires Scanning(b, s, i, d, changed, page, result) && i < |s| && s[i] == PERCENT && !EscapeAt(s, i)
    requires b' == if changed then b[d := s[i]] else b
    ensures Scanning(b', s, i + 1, d + 1, changed, page, result)
  {
    if changed {
      DecodedText(b[..d], s, i, i + 1, page, result);
      assert b'[..d + 1] == b[..d] + s[i..i + 1];
    } else {
      assert s[..i + 1][..i] == s[..i];
      CountUpTo(s, FirstPercent(s), i + 1);
    }
  }

  /** The text up to the next '%', or to the end, is passed. */
  lemma TextPassed(b: seq<byte>, s: seq<byte>, i: nat, k: nat, d: nat, page: CodePage, result: seq<byte>)
    requires Scanning(b, s, i, d, false, page, result) && i <= k <= |s| && forall j | i <= j < k :: s[j] != PERCENT
    ensures Scanning(b, s, k, d, false, page, result)
  {
    PercentsStay(s, i, k);
  }

  lemma {:induction false} PercentsStay(s: seq<byte>, i: nat, k: nat)
    requires i <= k <= |s| && forall j | i <= j < k :: s[j] != PERCENT
    ensures Percents(s[..k]) == Percents(s[..i])
    decreases k
  {
    if i < k {
      PercentsStay(s, i, k - 1);
      assert s[..k][..k - 1] == s[..k - 1];
    }
  }

  /** The bytes an escape stands for are written. */
  method WriteBytes(buffer: array<byte>, d: nat, bytes: seq<byte>)
    requires d + |bytes| <= buffer.Length
    modifies buffer
    ensures buffer[..][..d + |bytes|] == old(buffer[..][..d]) + bytes
    ensures forall j | d + |bytes| <= j < buffer.Length :: buffer[j] == old(buffer[j])
  {
    forall k | 0 <= k < |bytes| {
      buffer[d + k] := bytes[k];
    }
  }

  /** Looking past the terminator finds no more escapes: NUL is not a digit. */
  lemma Peek(b: seq<byte>, s: seq<byte>, i: nat)
    requires Unread(b, s, i) && i < |s|
    ensures WideAt(b, i) == WideAt(s, i) && ByteAt(b, i) == ByteAt(s, i)
    ensures EscapeAt(s, i) ==>
      forall page: CodePage {:trigger Unescaped(b, i, page)} :: Unescaped(b, i, page) == Unescaped(s, i, page)
  {
  }

  lemma MovedText(b: seq<byte>, b': seq<byte>, s: seq<byte>, i: nat, k: nat, d: nat, n: nat)
    requires Unread(b, s, i) && d <= i <= k <= |s| && |b'| == |b| && k - i <= n <= k - i + 1 && (n > k - i ==> k == |s|)
    requires forall j | 0 <= j < |b| :: b'[j] == b[if d <= j < d + n then j - d + i else j]
    ensures b'[..d + (k - i)] == b[..d] + s[i..k]
    ensures Unread(b', s, k) && (n > k - i ==> b'[d + (k - i)] == 0)
  {
  }

  /** The text up to the next '%', and at the end the terminator too, is moved down. */
  method MoveText(
      buffer: array<byte>, ghost s: seq<byte>, i: nat, k: nat, d: nat, ghost page: CodePage, ghost result: seq<byte>)
    returns (d': nat)
    requires Scanning(buffer[..], s, i, d, true, page, result) && i <= k <= |s|
    requires (forall j | i <= j < k :: s[j] != PERCENT) && 0 !in s
    modifies buffer
    ensures Scanning(buffer[..], s, k, d', true, page, result)
    ensures k == |s| ==> buffer[d'] == 0
  {
    ghost var b := buffer[..];
    DecodedText(b[..d], s, i, k, page, result);
    var n := if buffer[k] == 0 then k - i + 1 else k - i;
    MoveDown(buffer, d, i, n);
    d' := d + (k - i);
    MovedText(b, buffer[..], s, i, k, d, n);
    assert buffer[..][..d'] == b[..d] + s[i..k];
  }

  /** The escape at i is read, and what it stands for is written. */
  method PassEscape(
      buffer: array<byte>, ghost s: seq<byte>, i: nat, d: nat, ghost changed: bool, page: CodePage,
      ghost result: seq<byte>)
    returns (i': nat, d': nat)
    requires Scanning(buffer[..], s, i, d, changed, page, result) && EscapeAt(s, i) && result == Rewritten(s, page)
    modifies buffer
    ensures Scanning(buffer[..], s, i', d', true, page, result) && i < i'
  {
    Peek(buffer[..], s, i);
    EscapeStep(buffer[..], s, i, d, changed, page, result);
    var bytes := Unescaped(buffer[..], i, page);
    i', d' := i + EscapeLength(buffer[..], i), d + |bytes|;
    ghost var b := buffer[..];
    WriteBytes(buffer, d, bytes);
    Written(b, buffer[..], s, i, i', d, bytes, page, result);
  }

  lemma Written(
      b: seq<byte>, b': seq<byte>, s: seq<byte>, i: nat, i': nat, d: nat, bytes: seq<byte>, page: CodePage,
      result: seq<byte>)
    requires Unread(b, s, i) && d + |bytes| <= i' <= |s| && d <= i <= i'
    requires DecodedTo(b[..d] + bytes, s, i', page, result)
    requires |b'| == |b| && b'[..d + |bytes|] == b[..d] + bytes && forall j | d + |bytes| <= j < |b| :: b'[j] == b[j]
    ensures Scanning(b', s, i', d + |bytes|, true, page, result)
  {
  }

  /** The escape or lone '%' at i. */
  method PassPercent(
      buffer: array<byte>, ghost s: seq<byte>, i: nat, d: nat, changed: bool, page: CodePage,
      ghost result: seq<byte>)
    returns (i': nat, d': nat, changed': bool)
    requires Scanning(buffer[..], s, i, d, changed, page, result) && i < |s| && s[i] == PERCENT && 0 !in s
    requires result == Rewritten(s, page)
    modifies buffer
    ensures Scanning(buffer[..], s, i', d', changed', page, result) && i < i'
  {
    ghost var b := buffer[..];
    Peek(b, s, i);
    if EscapeAt(buffer[..], i) {
      i', d' := PassEscape(buffer, s, i, d, changed, page, result);
      changed' := true;
    } else {
      if changed {
        buffer[d] := buffer[i];
      }
      ScanPercent(b, buffer[..], s, i, d, changed, page, result);
      i', d', changed' := i + 1, d + 1, changed;
    }
  }

  /** STRA::Unescape on the first len bytes of the buffer, which a NUL follows. */
  method Unescape(buffer: array<byte>, len: nat, page: CodePage) returns (len': nat)
    requires len < buffer.Length && buffer[len] == 0 && 0 !in buffer[..len]
    modifies buffer
    ensures len' <= len && buffer[len'] == 0
    ensures buffer[..len'] == UpToNul(Rewritten(old(buffer[..len]), page))
  {
    hide Unescaped;
    ghost var s := buffer[..len];
    ghost var result := Rewritten(s, page);
    assert forall j | 0 <= j < len :: buffer[j] == s[j] && s[j] in s;
    ScanStart(buffer[..], s, page, result);
    var scan := Strchr(buffer, 0, len, PERCENT);
    FirstPercentIs(s, scan);
    var dest: nat, changed := scan, false;
    while scan < len
      invariant Scanning(buffer[..], s, scan, dest, changed, page, result)
      invariant scan < len ==> s[scan] == PERCENT
      invariant changed && scan == len ==> buffer[dest] == 0
      decreases len - scan
    {
      var at;
      at, dest, changed := PassPercent(buffer, s, scan, dest, changed, page, result);
      assert forall j | at <= j < len :: buffer[j] == s[j] && s[j] in s;
      scan := Strchr(buffer, at, len, PERCENT);
      if changed {
        dest := MoveText(buffer, s, at, scan, dest, page, result);
      } else {
        TextPassed(buffer[..], s, at, scan, dest, page, result);
      }
    }
    if changed {
      DecodedAll(buffer[..dest], s, page, result);
      len' := Strlen(buffer, dest);
    } else {
      len' := len;
      assert buffer[..len] == s == result;
      CutAtFirst(s, len);
    }
  }

  lemma {:induction false} FirstPercentIs(s: seq<byte>, k: nat)
    requires k <= |s| && (k < |s| ==> s[k] == PERCENT) && forall j | 0 <= j < k :: s[j] != PERCENT
    ensures FirstPercent(s) == k
  {
    if k > 0 { FirstPercentIs(s[1..], k - 1); }
  }

  /** "%u" or "%U" and the four digits of a code stand for the character, as the code page writes it. */
  lemma WideEscapeOf(u: char, d0: nat, d1: nat, d2: nat, d3: nat, page: CodePage)
    requires u in "uU" && d0 < 16 && d1 < 16 && d2 < 16 && d3 < 16
    ensures var s: seq<byte> := [37, u as int, ToDigit(d0), ToDigit(d1), ToDigit(d2), ToDigit(d3)];
      var code := ((d0 * 16 + d1) * 16 + d2) * 16 + d3;
      && EscapeAt(s, 0) && EscapeLength(s, 0) == 6
      && (|page.convert(code)| <= 6 ==> Unescaped(s, 0, page) == page.convert(code))
  {
  }

  // ----- When the result is the decoding -----

  /** Nothing but '%' between the first '%' and the first escape. */
  ghost predicate OnlyPercentsBefore(s: seq<byte>) {
    forall i {:trigger s[i]} | FirstPercent(s) <= i < FirstEscape(s) :: s[i] == PERCENT
  }

  /** No escape that is met from i on stands for NUL. */
  predicate NoNulMet(s: seq<byte>, i: nat, page: CodePage)
    requires i <= |s|
    decreases |s| - i
  {
    i == |s| || if EscapeAt(s, i) then 0 !in Unescaped(s, i, page) && NoNulMet(s, i + EscapeLength(s, i), page)
      else NoNulMet(s, i + 1, page)
  }

  lemma {:induction false} NulDecodedIff(s: seq<byte>, i: nat, page: CodePage)
    requires i <= |s| && 0 !in s
    ensures 0 !in DecodeFrom(s, i, page) <==> NoNulMet(s, i, page)
    decreases |s| - i
  {
    if i == |s| {
      assert DecodeFrom(s, i, page) == [];
    } else if EscapeAt(s, i) {
      DecodeNext(s, i, page);
      NulDecodedIff(s, i + EscapeLength(s, i), page);
    } else {
      DecodeOne(s, i, page);
      NulDecodedIff(s, i + 1, page);
    }
  }

  /** Unescape gives the left-to-right decoding exactly when there is no escape, or nothing but '%' between
      the first '%' and the first escape and no escape that stands for NUL. */
  lemma UnescapeDecodesIff(s: seq<byte>, page: CodePage)
    requires 0 !in s
    ensures UpToNul(Rewritten(s, page)) == Decode(s, page)
      <==> FirstEscape(s) == |s| || (OnlyPercentsBefore(s) && NoNulMet(s, 0, page))
  {
    var v := FirstEscape(s);
    NulDecodedIff(s, 0, page);
    DecodeCopies(s, 0, v, page);
    if v == |s| {
      assert Decode(s, page) == s;
      CutAtFirst(s, |s|);
    } else {
      CountUpTo(s, FirstPercent(s), v);
      var d, rest := WriteStart(s, v), DecodeFrom(s, v, page);
      CutIsShorter(s[..d] + rest);
      if d == v {
        CutIffNul(s[..v] + rest);
      }
    }
  }

  lemma {:induction false} CutIsShorter(s: seq<byte>)
    ensures |UpToNul(s)| <= |s|
  {
    if s != [] && s[0] != 0 { CutIsShorter(s[1..]); }
  }

  lemma {:induction false} CutIffNul(s: seq<byte>)
    ensures UpToNul(s) == s <==> 0 !in s
  {
    if s != [] && s[0] != 0 {
      CutIffNul(s[1..]);
      assert s == [s[0]] + s[1..];
    }
  }

  /** Text between a lone '%' and the first escape is lost. */
  lemma LonePercentLosesText()
    ensures Rewritten([37, 120, 37, 52, 49], CodePage(_ => [])) == [37, 65]
    ensures Decode([37, 120, 37, 52, 49], CodePage(_ => [])) == [37, 120, 65]
  {
    var s: seq<byte>, page := [37, 120, 37, 52, 49], CodePage(_ => []);
    assert ByteAt(s, 2) && !EscapeAt(s, 0) && !EscapeAt(s, 1);
    assert EscapeFrom(s, 1) == 2 && FirstEscape(s) == 2;
    assert DecodeFrom(s, 5, page) == [] && DecodeFrom(s, 2, page) == [65];
    assert DecodeFrom(s, 1, page) == [120] + DecodeFrom(s, 2, page);
    assert s[..2][..1] == [37] && s[..1][..0] == [] && Percents([]) == 0;
    assert Percents(s[..2]) == Percents(s[..2][..1]) == 1;
    assert s[..1] == [37];
  }

  // ----- Escape -----

  /** FShouldEscapeUrl. */
  predicate ShouldEscapeUrl(ch: byte) {
    (ch >= 128 || ch <= 32 || ch == 60 || ch == 62 || ch == PERCENT || ch == 63 || ch == 35) && !(ch == LF || ch == CR)
  }

  /** What Escape leaves alone: line ends, DEL, letters, digits, and the signs but for five. */
  const UNESCAPED: string := "\r\n" + UPPER + LOWER + DIGITS + "!\"$&'()*+,-./" + ":;=@[\\]^_`{|}~\U{7F}"

  lemma EscapesAllBut(ch: byte)
    ensures ShouldEscapeUrl(ch) <==> ch as char !in UNESCAPED
  {
    hide UPPER, LOWER, DIGITS;
    var c := ch as char;
    Uppers(c);
    Lowers(c);
    Digits(c);
    assert c in UNESCAPED <==>
      c in "\r\n" || c in UPPER || c in LOWER || c in DIGITS || c in "!\"$&'()*+,-./" || c in ":;=@[\\]^_`{|}~\U{7F}";
    Signs(c);
    MoreSigns(c);
  }

  lemma Signs(c: char)
    ensures c in "!\"$&'()*+,-./" <==> 33 <= c as int <= 47 && c != '#' && c != '%'
  {
  }

  lemma MoreSigns(c: char)
    ensures c in ":;=@[\\]^_`{|}~\U{7F}" <==>
      c as int in {58, 59, 61, 64} || 91 <= c as int <= 96 || 123 <= c as int <= 127
  {
  }

  function EscapeOf(ch: byte): seq<byte> { [PERCENT, ToDigit(ch / 16), ToDigit(ch % 16)] }

  function Escaped(s: seq<byte>, should: byte -> bool): seq<byte> {
    if s == [] then [] else EscapeOne(s[0], should) + Escaped(s[1..], should)
  }

  function EscapeOne(ch: byte, should: byte -> bool): seq<byte> {
    if should(ch) then EscapeOf(ch) else [ch]
  }

  lemma {:induction false} EscapedAppend(s: seq<byte>, ch: byte, should: byte -> bool)
    ensures Escaped(s + [ch], should) == Escaped(s, should) + EscapeOne(ch, should)
  {
    if s == [] {
      assert s + [ch] == [ch] && [ch][1..] == [];
    } else {
      EscapedAppend(s[1..], ch, should);
      assert (s + [ch])[1..] == s[1..] + [ch];
      Regroup(EscapeOne(s[0], should), Escaped(s[1..], should), EscapeOne(ch, should));
    }
  }

  lemma {:induction false} NothingToEscape(s: seq<byte>, should: byte -> bool)
    requires forall i | 0 <= i < |s| :: !should(s[i])
    ensures Escaped(s, should) == s
  {
    if s != [] { NothingToEscape(s[1..], should); }
  }

  /** EscapeInternal: nothing is copied before the first byte that needs escaping. */
  method EscapeInternal(s: seq<byte>, should: byte -> bool) returns (r: seq<byte>)
    requires 0 !in s
    ensures r == Escaped(s, should)
  {
    var temp: seq<byte>, escapingDone := [], false;
    for i := 0 to |s|
      invariant if escapingDone then temp == Escaped(s[..i], should) else forall j | 0 <= j < i :: !should(s[j])
    {
      EscapedAppend(s[..i], s[i], should);
      assert s[..i + 1] == s[..i] + [s[i]];
      if should(s[i]) {
        if !escapingDone {
          escapingDone := true;
          NothingToEscape(s[..i], should);
          temp := s[..i];
        }
        temp := temp + EscapeOf(s[i]);
      } else if escapingDone {
        temp := temp + [s[i]];
      }
    }
    assert s[..|s|] == s;
    if escapingDone {
      r := temp;
    } else {
      NothingToEscape(s, should);
      r := s;
    }
  }

  lemma DigitBack(d: nat)
    requires d < 16
    ensures IsXDigit(ToDigit(d)) && ToHex(ToDigit(d)) == d
  {
  }

  /** Decoding does not look at what is in front. */
  lemma {:induction false} DecodeShifted(front: seq<byte>, s: seq<byte>, i: nat, page: CodePage)
    requires i <= |s|
    ensures DecodeFrom(front + s, |front| + i, page) == DecodeFrom(s, i, page)
    decreases |s| - i
  {
    hide DecodeFrom, WideAt, ByteAt, Unescaped;
    if i == |s| {
      DecodeEnd(s, page);
      DecodeEnd(front + s, page);
    } else {
      EscapeAtShifted(front, s, i, page);
      if EscapeAt(s, i) {
        DecodeNext(s, i, page);
        DecodeNext(front + s, |front| + i, page);
        DecodeShifted(front, s, i + EscapeLength(s, i), page);
      } else {
        DecodeOne(s, i, page);
        DecodeOne(front + s, |front| + i, page);
        DecodeShifted(front, s, i + 1, page);
      }
    }
  }

  lemma EscapeAtShifted(front: seq<byte>, s: seq<byte>, i: nat, page: CodePage)
    requires i < |s|
    ensures WideAt(front + s, |front| + i) == WideAt(s, i) && ByteAt(front + s, |front| + i) == ByteAt(s, i)
    ensures EscapeAt(s, i) ==> Unescaped(front + s, |front| + i, page) == Unescaped(s, i, page)
  {
  }

  lemma {:induction false} EscapeShifted(front: seq<byte>, s: seq<byte>, i: nat)
    requires i <= |s|
    ensures EscapeFrom(front + s, |front| + i) == |front| + EscapeFrom(s, i)
    decreases |s| - i
  {
    if i < |s| {
      EscapeAtShifted(front, s, i, CodePage(_ => []));
      if !EscapeAt(s, i) { EscapeShifted(front, s, i + 1); }
    }
  }

  lemma EscapeReadsBack(ch: byte, rest: seq<byte>, page: CodePage)
    ensures var s := EscapeOf(ch) + rest;
      EscapeAt(s, 0) && EscapeLength(s, 0) == 3 && Unescaped(s, 0, page) == [ch]
  {
    DigitBack(ch / 16);
    DigitBack(ch % 16);
  }

  /** In an escaped string every '%' starts an escape, and decoding gives the string back. */
  lemma {:induction false} DecodeEscaped(s: seq<byte>, should: byte -> bool, page: CodePage)
    requires 0 !in s && should(PERCENT)
    ensures Decode(Escaped(s, should), page) == s && 0 !in Escaped(s, should)
    ensures FirstEscape(Escaped(s, should)) == FirstPercent(Escaped(s, should))
  {
    if s != [] {
      var rest, e := Escaped(s[1..], should), Escaped(s, should);
      DecodeEscaped(s[1..], should, page);
      DecodeShifted(EscapeOne(s[0], should), rest, 0, page);
      if should(s[0]) {
        EscapeReadsBack(s[0], rest, page);
      } else {
        EscapeShifted([s[0]], rest, 0);
        assert e[1..] == rest;
      }
      assert s == [s[0]] + s[1..];
    }
  }

  /** Unescape undoes any escaping that escapes '%'. */
  lemma UnescapeUndoesEscaped(s: seq<byte>, should: byte -> bool, page: CodePage)
    requires 0 !in s && should(PERCENT)
    ensures UpToNul(Rewritten(Escaped(s, should), page)) == s
  {
    DecodeEscaped(s, should, page);
    NulDecodedIff(Escaped(s, should), 0, page);
    UnescapeDecodesIff(Escaped(s, should), page);
  }

  /** Unescape undoes Escape. */
  lemma UnescapeUndoesEscape(s: seq<byte>, page: CodePage)
    requires 0 !in s
    ensures UpToNul(Rewritten(Escaped(s, ShouldEscapeUrl), page)) == s
  {
    UnescapeUndoesEscaped(s, ShouldEscapeUrl, page);
  }

  // ----- EscapeUtf8, which leaves '%' alone -----

  /** The bytes EscapeUtf8 escapes. */
  predicate IsHigh(ch: byte) { ch >= 128 }

  function Utf8Escaped(s: seq<byte>): seq<byte> { Escaped(s, IsHigh) }

  /** ASCII stays; the first byte above it is written "%80". */
  lemma HighBytesEscaped()
    ensures Utf8Escaped([127, 128]) == [127, 37, 56, 48]
  {
    var s: seq<byte> := [127, 128];
    assert s[1..] == [128];
  }

  function FirstHigh(s: seq<byte>): (k: nat)
    ensures k <= |s| && (k < |s| ==> IsHigh(s[k])) && forall i | 0 <= i < k :: !IsHigh(s[i])
  {
    if s == [] || IsHigh(s[0]) then 0 else 1 + FirstHigh(s[1..])
  }

  /** What stands before the first high byte is copied. */
  lemma {:induction false} LowCopied(s: seq<byte>, k: nat)
    requires k <= |s| && forall i | 0 <= i < k :: !IsHigh(s[i])
    ensures Utf8Escaped(s) == s[..k] + Utf8Escaped(s[k..])
  {
    if k > 0 {
      LowCopied(s[1..], k - 1);
      assert s[1..][k - 1..] == s[k..] && s[..k] == [s[0]] + s[1..][..k - 1];
      Regroup([s[0]], s[1..][..k - 1], Utf8Escaped(s[k..]));
    }
  }

  lemma HeadEscaped(s: seq<byte>)
    ensures s == [] ==> Utf8Escaped(s) == []
    ensures s != [] ==> Utf8Escaped(s) != [] && Utf8Escaped(s)[0] == if IsHigh(s[0]) then PERCENT else s[0]
  {
  }

  /** Up to and with the first high byte the escaped string has hexadecimal digits just where the string has. */
  lemma DigitsKept(s: seq<byte>, k: nat)
    requires k <= FirstHigh(s)
    ensures HexAt(Utf8Escaped(s), k) == HexAt(s, k)
    ensures k < |s| && HexAt(s, k) ==> k < FirstHigh(s) && Utf8Escaped(s)[k] == s[k]
  {
    hide Utf8Escaped;
    LowCopied(s, k);
    HeadEscaped(s[k..]);
    var e, rest := Utf8Escaped(s), Utf8Escaped(s[k..]);
    assert e[k..] == rest;
    if k < |s| {
      assert s[k..][0] == s[k] && e[k] == rest[0];
    } else {
      assert s[k..] == [] && |e| == k;
    }
  }

  /** A '%' that is copied starts an escape exactly if it did before. */
  lemma CopiedEscape(s: seq<byte>)
    requires s != [] && !IsHigh(s[0])
    ensures WideAt(Utf8Escaped(s), 0) == WideAt(s, 0) && ByteAt(Utf8Escaped(s), 0) == ByteAt(s, 0)
    ensures EscapeAt(s, 0) ==> EscapeLength(s, 0) <= FirstHigh(s)
  {
    var e, h := Utf8Escaped(s), FirstHigh(s);
    LowCopied(s, 1);
    assert e[0] == s[0];
    DigitsKept(s, 1);
    if h > 1 {
      LowCopied(s, 2);
      assert e[1] == s[1];
      DigitsKept(s, 2);
      if HexAt(s, 2) { DigitsKept(s, 3); }
      if HexAt(s, 2) && HexAt(s, 3) { DigitsKept(s, 4); }
      if HexAt(s, 2) && HexAt(s, 3) && HexAt(s, 4) { DigitsKept(s, 5); }
    } else if |s| > 1 {
      assert IsHigh(s[1]) && s[1..][0] == s[1] && e[1..] == Utf8Escaped(s[1..]);
      assert e[1] == PERCENT;
    } else {
      assert s[1..] == [] && e == [s[0]];
    }
  }

  lemma HighStep(s: seq<byte>, page: CodePage)
    requires s != [] && IsHigh(s[0])
    ensures Decode(Utf8Escaped(s), page) == [s[0]] + Decode(Utf8Escaped(s[1..]), page)
    ensures FirstEscape(Utf8Escaped(s)) == 0 < |Utf8Escaped(s)| && FirstEscape(s) == 1 + FirstEscape(s[1..])
  {
    var rest := Utf8Escaped(s[1..]);
    EscapeReadsBack(s[0], rest, page);
    DecodeNext(Utf8Escaped(s), 0, page);
    DecodeShifted(EscapeOf(s[0]), rest, 0, page);
    EscapeShifted([s[0]], s[1..], 0);
    assert s == [s[0]] + s[1..];
  }

  lemma LowStep(s: seq<byte>, page: CodePage)
    requires s != [] && !IsHigh(s[0]) && !EscapeAt(s, 0)
    ensures Decode(Utf8Escaped(s), page) == [s[0]] + Decode(Utf8Escaped(s[1..]), page)
    ensures FirstEscape(Utf8Escaped(s)) == 1 + FirstEscape(Utf8Escaped(s[1..]))
    ensures FirstEscape(s) == 1 + FirstEscape(s[1..])
    ensures Utf8Escaped(s) == [s[0]] + Utf8Escaped(s[1..])
  {
    var rest := Utf8Escaped(s[1..]);
    CopiedEscape(s);
    DecodeOne(Utf8Escaped(s), 0, page);
    DecodeShifted([s[0]], rest, 0, page);
    EscapeShifted([s[0]], rest, 0);
    EscapeShifted([s[0]], s[1..], 0);
    assert s == [s[0]] + s[1..];
  }

  lemma EscapeStays(s: seq<byte>, page: CodePage)
    requires s != [] && EscapeAt(s, 0)
    ensures Decode(Utf8Escaped(s), page) == Unescaped(s, 0, page) + Decode(Utf8Escaped(s[EscapeLength(s, 0)..]), page)
  {
    var e, n := Utf8Escaped(s), EscapeLength(s, 0);
    CopiedEscape(s);
    LowCopied(s, n);
    var rest := Utf8Escaped(s[n..]);
    assert e == s[..n] + rest && forall k | 0 <= k < n :: e[k] == s[k];
    DecodeNext(e, 0, page);
    DecodeShifted(s[..n], rest, 0, page);
  }

  /** Without escapes in the string, decoding undoes the escaping, and the first high byte is the first escape. */
  lemma {:induction false} Utf8ReadsBack(s: seq<byte>, page: CodePage)
    requires FirstEscape(s) == |s| && 0 !in s
    ensures Decode(Utf8Escaped(s), page) == s && 0 !in Utf8Escaped(s)
    ensures FirstEscape(Utf8Escaped(s)) == if FirstHigh(s) < |s| then FirstHigh(s) else |Utf8Escaped(s)|
  {
    if s != [] {
      if IsHigh(s[0]) { HighStep(s, page); } else { LowStep(s, page); }
      Utf8ReadsBack(s[1..], page);
      assert s == [s[0]] + s[1..];
    }
  }

  /** With one, the decoding is shorter than the string, as no character has a code of 6 bytes. */
  lemma {:induction false} Utf8Shorter(s: seq<byte>, page: CodePage)
    requires page.IsNarrow()
    ensures |Decode(Utf8Escaped(s), page)| <= |s| && (FirstEscape(s) < |s| ==> |Decode(Utf8Escaped(s), page)| < |s|)
    decreases |s|
  {
    if s != [] {
      if EscapeAt(s, 0) {
        EscapeStays(s, page);
        Utf8Shorter(s[EscapeLength(s, 0)..], page);
      } else {
        if IsHigh(s[0]) { HighStep(s, page); } else { LowStep(s, page); }
        Utf8Shorter(s[1..], page);
      }
    }
  }

  lemma RewrittenIsShorter(s: seq<byte>, page: CodePage)
    ensures |UpToNul(Rewritten(s, page))| <= |Decode(s, page)|
  {
    CutIsShorter(Rewritten(s, page));
    DecodeCopies(s, 0, FirstEscape(s), page);
  }

  /** The string has no escape, and no text between its first '%' and its first high byte. */
  ghost predicate SurvivesUtf8(s: seq<byte>) {
    FirstEscape(s) == |s| && (FirstHigh(s) == |s| || forall i | FirstPercent(s) <= i < FirstHigh(s) :: s[i] == PERCENT)
  }

  /** Up to the first high byte the escaped string is the string; there it has a '%'. */
  lemma EscapedFront(s: seq<byte>)
    requires FirstHigh(s) < |s|
    ensures var e, h := Utf8Escaped(s), FirstHigh(s);
      |e| > h && e[h] == PERCENT && (forall k | 0 <= k < h :: e[k] == s[k])
      && FirstPercent(e) == if FirstPercent(s) < h then FirstPercent(s) else h
  {
    var e, h := Utf8Escaped(s), FirstHigh(s);
    LowCopied(s, h);
    assert s[h..][0] == s[h] && Utf8Escaped(s[h..])[0] == PERCENT;
    assert e[h] == PERCENT && forall k | 0 <= k < h :: e[k] == s[k];
    FirstPercentIs(e, if FirstPercent(s) < h then FirstPercent(s) else h);
  }

  lemma SamePercents(e: seq<byte>, s: seq<byte>, f: nat, f': nat, h: nat)
    requires h <= |e| && h <= |s| && (forall k | 0 <= k < h :: e[k] == s[k]) && f' == if f < h then f else h
    ensures (forall i {:trigger e[i]} | f' <= i < h :: e[i] == PERCENT) <==> forall i | f <= i < h :: s[i] == PERCENT
  {
    if forall i {:trigger e[i]} | f' <= i < h :: e[i] == PERCENT {
      forall i | f <= i < h ensures s[i] == PERCENT { assert e[i] == s[i]; }
    } else {
      var i :| f' <= i < h && e[i] != PERCENT;
      assert e[i] == s[i];
    }
  }

  lemma PercentsBeforeHigh(s: seq<byte>)
    requires FirstHigh(s) < |s| && FirstEscape(Utf8Escaped(s)) == FirstHigh(s)
    ensures OnlyPercentsBefore(Utf8Escaped(s)) <==> forall i | FirstPercent(s) <= i < FirstHigh(s) :: s[i] == PERCENT
  {
    EscapedFront(s);
    SamePercents(Utf8Escaped(s), s, FirstPercent(s), FirstPercent(Utf8Escaped(s)), FirstHigh(s));
    hide Utf8Escaped, FirstEscape, FirstPercent, FirstHigh;
  }

  /** Exactly when Unescape undoes EscapeUtf8. */
  lemma Utf8UndoneIff(s: seq<byte>, page: CodePage)
    requires 0 !in s
    ensures SurvivesUtf8(s) ==> UpToNul(Rewritten(Utf8Escaped(s), page)) == s
    ensures page.IsNarrow() ==> (UpToNul(Rewritten(Utf8Escaped(s), page)) == s <==> SurvivesUtf8(s))
  {
    var e := Utf8Escaped(s);
    if FirstEscape(s) == |s| {
      Utf8ReadsBack(s, page);
      NulDecodedIff(e, 0, page);
      UnescapeDecodesIff(e, page);
      if FirstHigh(s) < |s| { PercentsBeforeHigh(s); LowCopied(s, FirstHigh(s)); }
    } else if page.IsNarrow() {
      Utf8Shorter(s, page);
      RewrittenIsShorter(e, page);
    }
  }

  /** An escape that was there before is not protected. */
  lemma Utf8EscapeNotUndone()
    ensures var s: seq<byte> := [37, 52, 49];
      UpToNul(Rewritten(Utf8Escaped(s), CodePage(_ => []))) == [65]
  {
    var s: seq<byte>, page := [37, 52, 49], CodePage(_ => []);
    NothingToEscape(s, IsHigh);
    assert ByteAt(s, 0) && DecodeFrom(s, 3, page) == [] && FirstEscape(s) == 0;
    assert Rewritten(s, page) == s[..0] + [65];
    CutIffNul([65]);
  }

  /** A code of 6 bytes could stand in for the escape itself. */
  lemma WideCodeSurvives(s: seq<byte>, page: CodePage)
    requires |s| == 6 && WideAt(s, 0) && Unescaped(s, 0, page) == s && 0 !in s
    ensures FirstEscape(s) < |s| && UpToNul(Rewritten(Utf8Escaped(s), page)) == s
  {
    NothingToEscape(s, IsHigh);
    DecodeNext(s, 0, page);
    DecodeEnd(s, page);
    assert FirstEscape(s) == 0 && Rewritten(s, page) == s[..0] + s == s;
    CutIffNul(s);
  }
}

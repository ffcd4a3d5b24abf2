/**
 SetStatusAndHeaders: the walk over the status line and header lines that the backend sent, up to the point
 where a header's name and value have been cut out.

 The text is a C string: `text` without its terminator, so position |text| reads as NUL.
 */
module HeaderText {
  import opened Opening

  datatype Option<T> = None | Some(value: T)

  datatype Header = Header(name: string, value: string)

  /** The reason phrase and the headers; None is ERROR_INVALID_PARAMETER. */
  datatype Parsed = Parsed(reason: string, headers: seq<Header>)

  // ----- What the pointer loops find -----

  function At(text: string, i: nat): char
    requires i <= |text|
  {
    if i < |text| then text[i] else '\0'
  }

  /** strchr from position i on. */
  function Find(text: string, c: char, i: nat): (r: Option<nat>)
    requires i <= |text|
    ensures r.Some? ==> i <= r.value < |text| && text[r.value] == c
    ensures r.None? ==> i == |text| || text[|text| - 1] != c
    decreases |text| - i
  {
    if i == |text| then None else if text[i] == c then Some(i) else Find(text, c, i + 1)
  }

  /** The first occurrence. */
  lemma {:induction false} FindFirst(text: string, c: char, i: nat, k: nat)
    requires i <= k < |text| && text[k] == c && forall j | i <= j < k :: text[j] != c
    ensures Find(text, c, i) == Some(k)
    decreases k - i
  {
    if i < k { FindFirst(text, c, i + 1, k); }
  }

  function SkipSpaces(text: string, i: nat): (r: nat)
    requires i <= |text|
    ensures i <= r <= |text|
    decreases |text| - i
  {
    if i < |text| && text[i] == ' ' then SkipSpaces(text, i + 1) else i
  }

  lemma {:induction false} SpacesStop(text: string, i: nat, k: nat)
    requires i <= k < |text| && text[k] != ' '
    ensures SkipSpaces(text, i) <= k
    ensures (forall j | i <= j < k :: text[j] == ' ') ==> SkipSpaces(text, i) == k
    decreases k - i
  {
    if i < k && text[i] == ' ' { SpacesStop(text, i + 1, k); }
  }

  lemma {:induction false} SpacesBefore(text: string, i: nat)
    requires i < |text| && text[i] == ' '
    ensures SkipSpaces(text, i) > i && text[SkipSpaces(text, i) - 1] == ' '
    decreases |text| - i
  {
    if i + 1 < |text| && text[i + 1] == ' ' { SpacesBefore(text, i + 1); }
  }

  predicate Blank(c: char, alsoCR: bool) { c == ' ' || (alsoCR && c == '\r') }

  /** The end of text[lo..hi] without its trailing spaces, and carriage returns if asked for. */
  function TrimBack(text: string, lo: nat, hi: nat, alsoCR: bool): (r: nat)
    requires lo <= hi <= |text|
    ensures lo <= r <= hi
  {
    if hi > lo && Blank(text[hi - 1], alsoCR) then TrimBack(text, lo, hi - 1, alsoCR) else hi
  }

  lemma {:induction false} TrimsTo(text: string, lo: nat, k: nat, hi: nat, alsoCR: bool)
    requires lo <= k <= hi <= |text| && (k > lo ==> !Blank(text[k - 1], alsoCR)) && forall j | k <= j < hi ::
      Blank(text[j], alsoCR)
    ensures TrimBack(text, lo, hi, alsoCR) == k
  {
    if k < hi { TrimsTo(text, lo, k, hi - 1, alsoCR); }
  }

  /** A line that starts with a space or tab continues the one before. */
  predicate Continues(text: string, newline: nat)
    requires newline < |text|
  {
    At(text, newline + 1) == ' ' || At(text, newline + 1) == '\t'
  }

  /** The newline that ends a header, after its continuation lines. */
  function HeaderEnd(text: string, newline: nat): (r: nat)
    requires newline < |text| && text[newline] == '\n' && text[|text| - 1] == '\n'
    ensures newline <= r < |text| && text[r] == '\n' && !Continues(text, r)
    decreases |text| - newline
  {
    if Continues(text, newline) then
      assert newline + 1 < |text|;
      HeaderEnd(text, Find(text, '\n', newline + 1).value)
    else newline
  }

  predicate EndsHeaders(c: char) { c == '\r' || c == '\n' || c == '\0' }

  /** The headers from position i on. */
  function HeadersFrom(text: string, i: nat): Option<seq<Header>>
    requires i <= |text| && text != [] && text[|text| - 1] == '\n'
    decreases |text| - i
  {
    if EndsHeaders(At(text, i)) then Some([])
    else
      var end := HeaderEnd(text, Find(text, '\n', i).value);
      match Find(text, ':', i)
      case None => None
      case Some(colon) =>
        if colon >= end then None
        else
          SpacesStop(text, colon + 1, end);
          var from := SkipSpaces(text, colon + 1);
          var name := text[i..TrimBack(text, i, colon, false)];
          var value := text[from..TrimBack(text, from, end, true)];
          match HeadersFrom(text, end + 1)
          case None => None
          case Some(rest) => Some([Header(name, value)] + rest)
  }

  /** Where the reason phrase starts: after the second run of spaces, or on its last space if the line ends
      there. */
  function ReasonAt(text: string): Option<nat> {
    match Find(text, ' ', 0)
    case None => None
    case Some(first) =>
      match Find(text, ' ', SkipSpaces(text, first))
      case None => None
      case Some(second) =>
        var p := SkipSpaces(text, second);
        Some(if At(text, p) == '\r' || At(text, p) == '\n' then p - 1 else p)
  }

  /** Status line and headers. */
  function Parse(text: string): Option<Parsed>
    requires text != [] ==> text[|text| - 1] == '\n'
  {
    match ReasonAt(text)
    case None => None
    case Some(at) =>
      match Find(text, '\n', at)
      case None => None
      case Some(newline) =>
        match HeadersFrom(text, newline + 1)
        case None => None
        case Some(headers) => Some(Parsed(text[at..ReasonEnd(text, at, newline)], headers))
  }

  /** The reason phrase keeps at least one character. */
  function ReasonEnd(text: string, at: nat, newline: nat): (r: nat)
    requires at <= newline <= |text|
    ensures at <= r <= newline
  {
    if at == newline then at else TrimBack(text, at + 1, newline, true)
  }

  // ----- The walk itself -----

  method Strchr(text: string, c: char, i: nat) returns (r: Option<nat>)
    requires i <= |text|
    ensures r == Find(text, c, i)
  {
    var k := i;
    while k < |text| && text[k] != c
      invariant i <= k <= |text| && Find(text, c, i) == Find(text, c, k)
    {
      k := k + 1;
    }
    r := if k < |text| then Some(k) else None;
  }

  /** Headers found so far, in front of those still to be found. */
  function Before(done: seq<Header>, rest: Option<seq<Header>>): Option<seq<Header>> {
    match rest case None => None case Some(hs) => Some(done + hs)
  }

  lemma BeforeJoins(done: seq<Header>, h: Header, rest: Option<seq<Header>>)
    ensures Before([], rest) == rest
    ensures Before(done, Before([h], rest)) == Before(done + [h], rest)
    ensures Before(done, Some([])) == Some(done)
  {
    assert done + [] == done;
    if rest.Some? {
      assert [] + rest.value == rest.value;
      assert done + ([h] + rest.value) == done + [h] + rest.value;
    }
  }

  /** Over spaces. */
  method PassSpaces(text: string, i: nat) returns (r: nat)
    requires i <= |text|
    ensures r == SkipSpaces(text, i)
  {
    r := i;
    while At(text, r) == ' '
      invariant i <= r <= |text| && SkipSpaces(text, r) == SkipSpaces(text, i)
      decreases |text| - r
    {
      r := r + 1;
    }
  }

  /** Back over trailing spaces, and carriage returns if asked for. */
  method PassBack(text: string, lo: nat, hi: nat, alsoCR: bool) returns (r: nat)
    requires lo <= hi <= |text|
    ensures r == TrimBack(text, lo, hi, alsoCR)
  {
    r := hi;
    while r > lo && (text[r - 1] == ' ' || (alsoCR && text[r - 1] == '\r'))
      invariant lo <= r <= hi && TrimBack(text, lo, r, alsoCR) == TrimBack(text, lo, hi, alsoCR)
    {
      r := r - 1;
    }
  }

  /** Over continuation lines. */
  method PassContinuations(text: string, newline: nat) returns (r: nat)
    requires newline < |text| && text[newline] == '\n' && text[|text| - 1] == '\n'
    ensures r == HeaderEnd(text, newline)
  {
    r := newline;
    while At(text, r + 1) == ' ' || At(text, r + 1) == '\t'
      invariant newline <= r < |text| && text[r] == '\n' && HeaderEnd(text, r) == HeaderEnd(text, newline)
      decreases |text| - r
    {
      var more := Strchr(text, '\n', r + 1);
      r := more.value;
    }
  }

  /** One header: its name and value, and the index of the line after it. */
  method NextHeader(text: string, start: nat) returns (header: Option<Header>, next: nat)
    requires text != [] && text[|text| - 1] == '\n' && start < |text| && !EndsHeaders(At(text, start))
    ensures start < next <= |text|
    ensures header.None? ==> HeadersFrom(text, start) == None
    ensures header.Some? ==> HeadersFrom(text, start) == Before([header.value], HeadersFrom(text, next))
  {
    var colon := Strchr(text, ':', start);
    var newline := Strchr(text, '\n', start);
    var end := PassContinuations(text, newline.value);
    next := end + 1;
    if colon.None? || colon.value >= end {
      return None, next;
    }
    var nameEnd := PassBack(text, start, colon.value, false);
    SpacesStop(text, colon.value + 1, end);
    var from := PassSpaces(text, colon.value + 1);
    var valueEnd := PassBack(text, from, end, true);
    header := Some(Header(text[start..nameEnd], text[from..valueEnd]));
  }

  /** The header lines.  Every index stays inside the text and its terminator, and every round starts on a
      later line. */
  method ParseHeaders(text: string, start: nat) returns (r: Option<seq<Header>>)
    requires text != [] && text[|text| - 1] == '\n' && start <= |text|
    ensures r == HeadersFrom(text, start)
  {
    var headers: seq<Header> := [];
    var index := start;
    BeforeJoins([], Header("", ""), HeadersFrom(text, start));
    while At(text, index) != '\r' && At(text, index) != '\n' && At(text, index) != '\0'
      invariant start <= index <= |text|
      invariant HeadersFrom(text, start) == Before(headers, HeadersFrom(text, index))
      decreases |text| - index
    {
      var header, next := NextHeader(text, index);
      if header.None? {
        return None;
      }
      BeforeJoins(headers, header.value, HeadersFrom(text, next));
      headers := headers + [header.value];
      index := next;
    }
    BeforeJoins(headers, Header("", ""), Some([]));
    r := Some(headers);
  }

  /** The walk along the status line to the reason phrase. */
  method ReadStatusLine(text: string) returns (r: Option<nat>)
    requires text != [] ==> text[|text| - 1] == '\n'
    ensures r == ReasonAt(text)
    ensures r.Some? ==> r.value < |text| && text[r.value] != '\n'
  {
    var first := Strchr(text, ' ', 0);
    if first.None? {
      return None;
    }
    var code := PassSpaces(text, first.value);
    var second := Strchr(text, ' ', code);
    if second.None? {
      return None;
    }
    SpacesBefore(text, second.value);
    SpacesStop(text, second.value, |text| - 1);
    var reason := PassSpaces(text, second.value);
    if At(text, reason) == '\r' || At(text, reason) == '\n' {
      reason := reason - 1;
    }
    return Some(reason);
  }

  /** SetStatusAndHeaders, up to what is done with the headers found. */
  method SetStatusAndHeaders(text: string) returns (r: Option<Parsed>)
    requires text != [] ==> text[|text| - 1] == '\n'
    ensures r == Parse(text)
  {
    hide HeadersFrom, Find, SkipSpaces, TrimBack;
    var reason := ReadStatusLine(text);
    if reason.None? {
      return None;
    }
    var newline := Strchr(text, '\n', reason.value);
    if newline.None? {
      return None;
    }
    var end := PassBack(text, reason.value + 1, newline.value, true);
    var headers := ParseHeaders(text, newline.value + 1);
    if headers.None? {
      return None;
    }
    return Some(Parsed(text[reason.value..end], headers.value));
  }

  // ----- Rendering and reading back -----

  predicate PlainName(name: string) {
    forall k | 0 <= k < |name| ::
      name[k] != ':' && name[k] != ' ' && name[k] != '\t' && name[k] != '\r' && name[k] != '\n' && name[k] != '\0'
  }

  /** A value may go on in continuation lines, each of which starts with a space or tab. */
  predicate PlainValue(value: string) {
    && (forall k | 0 <= k < |value| :: value[k] != '\0')
    && (forall k | 0 <= k < |value| && value[k] == '\n' :: k + 1 < |value| && value[k + 1] in {' ', '\t'})
    && (value != [] ==> value[0] != ' ' && !Blank(value[|value| - 1], true))
  }

  ghost predicate PlainHeader(h: Header) { PlainName(h.name) && PlainValue(h.value) }

  /** A header line as section 3.2 of RFC 7230 writes it. */
  function Line(h: Header): string { h.name + ": " + h.value + "\r\n" }

  function Lines(headers: seq<Header>): string {
    if headers == [] then "" else Line(headers[0]) + Lines(headers[1..])
  }

  /** The line of h is what the text holds from i on; `colon` and `end` are where its ':' and '\\n' are.
      What the characters are is closed. */
  ghost predicate LineAt(text: string, i: nat, h: Header, colon: nat, end: nat) {
    && i <= colon < end < |text| && colon == i + |h.name| && end == colon + 3 + |h.value|
    && forall key: nat {:trigger Opened(key)} :: Opened(key) ==>
      && text[i..colon] == h.name && text[colon] == ':' && text[colon + 1] == ' ' && text[colon + 2..end - 1] == h.value
      && text[end - 1] == '\r' && text[end] == '\n'
  }

  /** The text is t from position i on; closed. */
  ghost predicate RestIs(text: string, i: nat, t: string) {
    i <= |text| && forall key: nat {:trigger Opened(key)} :: Opened(key) ==> text[i..] == t
  }

  lemma LineInText(text: string, i: nat, h: Header, tail: string, colon: nat, end: nat)
    requires RestIs(text, i, Line(h) + tail) && colon == i + |h.name| && end == colon + 3 + |h.value|
    ensures LineAt(text, i, h, colon, end) && RestIs(text, end + 1, tail)
  {
    assert Opened(0);
    var t := text[i..];
    assert t == h.name + ": " + h.value + "\r\n" + tail;
    assert t[..|h.name|] == h.name && t[|h.name| + 2..|h.name| + 2 + |h.value|] == h.value;
    assert forall k | 0 <= k < |t| :: text[i + k] == t[k];
  }

  /** A character is found no later than at any place where it stands. */
  lemma {:induction false} FindUpTo(text: string, c: char, i: nat, k: nat)
    requires i <= k < |text| && text[k] == c
    ensures Find(text, c, i).Some? && Find(text, c, i).value <= k
    decreases k - i
  {
    if i < k && text[i] != c { FindUpTo(text, c, i + 1, k); }
  }

  /** A header ends where no continuation line follows. */
  lemma {:induction false} FoldsEnd(text: string, newline: nat, end: nat)
    requires newline <= end < |text| && text[newline] == '\n' && text[end] == '\n' && text[|text| - 1] == '\n'
    requires !Continues(text, end) && forall k | newline <= k < end && text[k] == '\n' :: Continues(text, k)
    ensures HeaderEnd(text, newline) == end
    decreases end - newline
  {
    if newline < end {
      FindUpTo(text, '\n', newline + 1, end);
      FoldsEnd(text, Find(text, '\n', newline + 1).value, end);
    }
  }

  lemma LineFound(text: string, i: nat, h: Header, colon: nat, end: nat)
    requires PlainHeader(h) && LineAt(text, i, h, colon, end) && text[|text| - 1] == '\n' && !Continues(text, end)
    ensures Find(text, '\n', i).Some? && HeaderEnd(text, Find(text, '\n', i).value) == end
    ensures Find(text, ':', i) == Some(colon) && !EndsHeaders(At(text, i))
  {
    hide Find;
    assert Opened(0);
    forall k | i <= k < end ensures (text[k] == '\n' ==> Continues(text, k)) && (k < colon ==> text[k] != ':') {
      if k < colon { assert text[k] == h.name[k - i]; }
      if colon + 2 <= k < end - 1 {
        assert text[k] == h.value[k - colon - 2];
        if text[k] == '\n' { assert text[k + 1] == h.value[k + 1 - colon - 2]; }
      }
    }
    assert h.name != [] ==> text[i] == h.name[0];
    FindUpTo(text, '\n', i, end);
    FoldsEnd(text, Find(text, '\n', i).value, end);
    FindFirst(text, ':', i, colon);
  }

  lemma LineTrimmed(text: string, i: nat, h: Header, colon: nat, end: nat)
    requires PlainHeader(h) && LineAt(text, i, h, colon, end)
    ensures TrimBack(text, i, colon, false) == colon
    ensures SkipSpaces(text, colon + 1) == colon + 2 && TrimBack(text, colon + 2, end, true) == end - 1
  {
    assert Opened(0);
    if h.name != [] { assert text[colon - 1] == h.name[|h.name| - 1]; }
    if h.value != [] { assert text[end - 2] == h.value[|h.value| - 1] && text[colon + 2] == h.value[0]; }
    TrimsTo(text, i, colon, colon, false);
    SpacesStop(text, colon + 1, colon + 2);
    TrimsTo(text, colon + 2, end - 1, end, true);
  }

  /** A line gives its header back, and leads to the line after it. */
  lemma LineReadsBack(text: string, i: nat, h: Header, colon: nat, end: nat)
    requires PlainHeader(h) && LineAt(text, i, h, colon, end) && text[|text| - 1] == '\n' && !Continues(text, end)
    ensures HeadersFrom(text, i) == Before([h], HeadersFrom(text, end + 1))
  {
    hide Find, SkipSpaces, TrimBack;
    assert Opened(0);
    LineFound(text, i, h, colon, end);
    LineTrimmed(text, i, h, colon, end);
    assert Header(text[i..colon], text[colon + 2..end - 1]) == h;
  }

  /** The line of h with spaces in front of its ':', and spaces, and at its end carriage returns too, around its
      value. */
  ghost predicate PaddedLineAt(text: string, i: nat, h: Header, colon: nat, from: nat, end: nat) {
    var stop := from + |h.value|;
    && i + |h.name| <= colon < from && stop <= end < |text|
    && text[i..i + |h.name|] == h.name && text[colon] == ':' && text[from..stop] == h.value && text[end] == '\n'
    && (forall k | i + |h.name| <= k < colon || colon < k < from :: text[k] == ' ')
    && (forall k | stop <= k < end :: Blank(text[k], true)) && text[from] != ' '
  }

  lemma PaddedLineFound(text: string, i: nat, h: Header, colon: nat, from: nat, end: nat)
    requires PlainHeader(h) && PaddedLineAt(text, i, h, colon, from, end)
    requires text[|text| - 1] == '\n' && !Continues(text, end)
    ensures Find(text, '\n', i).Some? && HeaderEnd(text, Find(text, '\n', i).value) == end
    ensures Find(text, ':', i) == Some(colon) && !EndsHeaders(At(text, i))
  {
    hide Find;
    var stop := from + |h.value|;
    forall k | i <= k < end ensures (text[k] == '\n' ==> Continues(text, k)) && (k < colon ==> text[k] != ':') {
      if k < i + |h.name| { assert text[k] == h.name[k - i]; }
      if from <= k < stop {
        assert text[k] == h.value[k - from];
        if text[k] == '\n' { assert text[k + 1] == h.value[k + 1 - from]; }
      }
    }
    assert h.name != [] ==> text[i] == h.name[0];
    FindUpTo(text, '\n', i, end);
    FoldsEnd(text, Find(text, '\n', i).value, end);
    FindFirst(text, ':', i, colon);
  }

  lemma PaddedLineTrimmed(text: string, i: nat, h: Header, colon: nat, from: nat, end: nat)
    requires PlainHeader(h) && PaddedLineAt(text, i, h, colon, from, end)
    ensures TrimBack(text, i, colon, false) == i + |h.name|
    ensures SkipSpaces(text, colon + 1) == from && TrimBack(text, from, end, true) == from + |h.value|
  {
    hide SkipSpaces, TrimBack;
    var stop := from + |h.value|;
    if h.name != [] { assert text[i + |h.name| - 1] == h.name[|h.name| - 1]; }
    if h.value != [] { assert text[stop - 1] == h.value[|h.value| - 1]; }
    TrimsTo(text, i, i + |h.name|, colon, false);
    SpacesStop(text, colon + 1, from);
    TrimsTo(text, from, stop, end, true);
  }

  /** All of this padding is taken away, and only this. */
  lemma PaddedLineReadsBack(text: string, i: nat, h: Header, colon: nat, from: nat, end: nat)
    requires PlainHeader(h) && PaddedLineAt(text, i, h, colon, from, end)
    requires text[|text| - 1] == '\n' && !Continues(text, end)
    ensures HeadersFrom(text, i) == Before([h], HeadersFrom(text, end + 1))
  {
    hide Find, SkipSpaces, TrimBack, HeaderEnd, EndsHeaders, Continues;
    PaddedLineFound(text, i, h, colon, from, end);
    PaddedLineTrimmed(text, i, h, colon, from, end);
    PaddedParts(text, i, h, colon, from, end);
    hide PaddedLineAt;
  }

  lemma PaddedParts(text: string, i: nat, h: Header, colon: nat, from: nat, end: nat)
    requires PaddedLineAt(text, i, h, colon, from, end)
    ensures i <= colon < from <= from + |h.value| <= end < |text|
    ensures Header(text[i..i + |h.name|], text[from..from + |h.value|]) == h
  {
  }

  /** The headers from position i on are these; closed until Opened is mentioned. */
  ghost predicate ReadsAs(text: string, i: nat, headers: seq<Header>)
    requires i <= |text| && text != [] && text[|text| - 1] == '\n'
  {
    forall key: nat {:trigger Opened(key)} :: Opened(key) ==> HeadersFrom(text, i) == Some(headers)
  }

  lemma LineThenRest(text: string, i: nat, h: Header, colon: nat, end: nat, rest: seq<Header>)
    requires PlainHeader(h) && LineAt(text, i, h, colon, end) && text[|text| - 1] == '\n' && !Continues(text, end)
    requires ReadsAs(text, end + 1, rest)
    ensures ReadsAs(text, i, [h] + rest)
  {
    assert Opened(0);
    LineReadsBack(text, i, h, colon, end);
  }

  lemma NoLines(text: string, i: nat)
    requires i <= |text| && text != [] && text[|text| - 1] == '\n' && EndsHeaders(At(text, i))
    ensures ReadsAs(text, i, [])
  {
  }

  /** From position i on the text is these header lines, with or without an empty line after them. */
  ghost predicate HoldsLines(text: string, i: nat, headers: seq<Header>)
    decreases headers
  {
    if headers == [] then i == |text| || (i + 2 == |text| && text[i] == '\r')
    else
      var h := headers[0];
      var colon, end := i + |h.name|, i + |h.name| + 3 + |h.value|;
      LineAt(text, i, h, colon, end) && HoldsLines(text, end + 1, headers[1..])
  }

  lemma LinesSplit(headers: seq<Header>, tail: string)
    requires headers != []
    ensures Lines(headers) + tail == Line(headers[0]) + (Lines(headers[1..]) + tail)
  {
  }

  lemma {:induction false} LinesInText(text: string, i: nat, headers: seq<Header>, tail: string)
    requires RestIs(text, i, Lines(headers) + tail) && tail in {"", "\r\n"}
    ensures HoldsLines(text, i, headers)
    decreases headers
  {
    hide LineAt, RestIs, Line;
    if headers == [] {
      NoLinesInText(text, i, tail);
    } else {
      var h, colon, end := headers[0], i + |headers[0].name|, i + |headers[0].name| + 3 + |headers[0].value|;
      LinesSplit(headers, tail);
      LineInText(text, i, h, Lines(headers[1..]) + tail, colon, end);
      LinesInText(text, end + 1, headers[1..], tail);
    }
  }

  lemma NoLinesInText(text: string, i: nat, tail: string)
    requires RestIs(text, i, Lines([]) + tail) && tail in {"", "\r\n"}
    ensures HoldsLines(text, i, [])
  {
    assert Opened(0);
    assert text[i..] == tail;
    assert tail != "" ==> text[i] == tail[0];
  }

  /** No header line looks like a continuation. */
  lemma NoContinuation(text: string, i: nat, headers: seq<Header>)
    requires i <= |text| && HoldsLines(text, i, headers) && (forall h | h in headers :: PlainHeader(h))
    ensures At(text, i) != ' ' && At(text, i) != '\t'
  {
    assert Opened(0);
    if headers != [] {
      assert PlainHeader(headers[0]);
      if headers[0].name != [] { assert text[i] == headers[0].name[0]; }
    }
  }

  /** The header lines of any list of plain headers read back as the list. */
  lemma {:induction false} LinesReadBack(text: string, i: nat, headers: seq<Header>)
    requires (forall h | h in headers :: PlainHeader(h)) && HoldsLines(text, i, headers)
    requires text != [] && text[|text| - 1] == '\n' && i <= |text|
    ensures ReadsAs(text, i, headers)
    decreases headers
  {
    hide PlainHeader, Find, HeadersFrom, ReadsAs, EndsHeaders;
    if headers == [] {
      NoLines(text, i);
    } else {
      var h, rest := headers[0], headers[1..];
      var colon, end := i + |h.name|, i + |h.name| + 3 + |h.value|;
      NoContinuation(text, end + 1, rest);
      LinesReadBack(text, end + 1, rest);
      LineThenRest(text, i, h, colon, end, rest);
      assert [h] + rest == headers;
    }
  }

  lemma {:induction false} LinesEnd(headers: seq<Header>)
    requires headers != []
    ensures Lines(headers) != [] && Lines(headers)[|Lines(headers)| - 1] == '\n'
  {
    if |headers| > 1 { LinesEnd(headers[1..]); }
  }

  // ----- The status line -----

  ghost predicate PlainWord(w: string) {
    forall k | 0 <= k < |w| :: w[k] != ' ' && w[k] != '\r' && w[k] != '\n' && w[k] != '\0'
  }

  ghost predicate PlainReason(reason: string) {
    && (forall k | 0 <= k < |reason| :: reason[k] != '\n' && reason[k] != '\0')
    && (reason != "" ==> reason[0] != ' ' && reason[0] != '\r' && !Blank(reason[|reason| - 1], true))
  }

  /** An empty reason phrase is read as the space in front of it. */
  function AsRead(reason: string): string { if reason == "" then " " else reason }

  function ReadFrom(reason: string, at: nat): nat
    requires at > 0
  {
    if reason == "" then at - 1 else at
  }

  function Render(version: string, code: string, reason: string, headers: seq<Header>, tail: string): string {
    version + " " + code + " " + reason + "\r\n" + (Lines(headers) + tail)
  }

  /** The status line is what the text starts with; the reason phrase is at..end.  Closed. */
  ghost predicate StatusAt(text: string, version: string, code: string, reason: string, at: nat, end: nat) {
    && at == |version| + |code| + 2 && end == at + |reason| && end + 1 < |text|
    && forall key: nat {:trigger Opened(key)} :: Opened(key) ==>
      && text[..|version|] == version && text[|version|] == ' ' && text[|version| + 1..at - 1] == code &&
        text[at - 1] == ' '
      && text[at..end] == reason && text[end] == '\r' && text[end + 1] == '\n'
  }

  lemma StatusInText(version: string, code: string, reason: string, headers: seq<Header>, tail: string)
    ensures var text, at := Render(version, code, reason, headers, tail), |version| + |code| + 2;
      StatusAt(text, version, code, reason, at, at + |reason|) && RestIs(text, at + |reason| + 2, Lines(headers) + tail)
  {
    hide Lines;
    var text, at := Render(version, code, reason, headers, tail), |version| + |code| + 2;
    assert text[..|version|] == version;
    assert text[|version| + 1..at - 1] == code;
    assert text[at..at + |reason|] == reason;
    assert text[at + |reason| + 2..] == Lines(headers) + tail;
  }

  /** The reason phrase is found behind the second gap. */
  lemma StatusFound(text: string, version: string, code: string, reason: string, at: nat, end: nat)
    requires PlainWord(version) && PlainWord(code) && code != [] && PlainReason(reason)
    requires StatusAt(text, version, code, reason, at, end)
    ensures ReasonAt(text) == Some(ReadFrom(reason, at))
  {
    assert Opened(0);
    var v := |version|;
    forall k | 0 <= k < v ensures text[k] != ' ' { assert text[k] == version[k]; }
    forall k | v < k < at - 1 ensures text[k] != ' ' { assert text[k] == code[k - v - 1]; }
    assert text[at] == if reason == "" then '\r' else reason[0];
    FindFirst(text, ' ', 0, v);
    SpacesStop(text, v, v + 1);
    FindFirst(text, ' ', v + 1, at - 1);
    SpacesStop(text, at - 1, at);
  }

  lemma ReasonFound(text: string, version: string, code: string, reason: string, at: nat, end: nat)
    requires PlainReason(reason) && StatusAt(text, version, code, reason, at, end)
    ensures var from := ReadFrom(reason, at);
      && Find(text, '\n', from) == Some(end + 1) && ReasonEnd(text, from, end + 1) == end
      && text[from..end] == AsRead(reason)
  {
    assert Opened(0);
    var from := ReadFrom(reason, at);
    forall k | from <= k <= end ensures text[k] != '\n' { if at <= k < end { assert text[k] == reason[k - at]; } }
    FindFirst(text, '\n', from, end + 1);
    if reason != "" { assert text[end - 1] == reason[|reason| - 1]; }
    TrimsTo(text, from + 1, end, end + 1, true);
  }

  /** Parsing the rendering of a status line and any list of plain headers gives them back. */
  lemma RoundTrip(version: string, code: string, reason: string, headers: seq<Header>, tail: string)
    requires PlainWord(version) && PlainWord(code) && code != [] && PlainReason(reason)
    requires (forall h | h in headers :: PlainHeader(h)) && tail in {"", "\r\n"}
    ensures var text := Render(version, code, reason, headers, tail);
      text[|text| - 1] == '\n' && Parse(text) == Some(Parsed(AsRead(reason), headers))
  {
    hide Render, Lines, Parse, HoldsLines, PlainWord, PlainReason, PlainHeader;
    var text, at := Render(version, code, reason, headers, tail), |version| + |code| + 2;
    StatusInText(version, code, reason, headers, tail);
    LinesInText(text, at + |reason| + 2, headers, tail);
    RenderEnds(version, code, reason, headers, tail);
    AfterStatus(text, version, code, reason, at, at + |reason|, headers);
  }

  lemma RenderEnds(version: string, code: string, reason: string, headers: seq<Header>, tail: string)
    requires tail in {"", "\r\n"}
    ensures var text := Render(version, code, reason, headers, tail); text[|text| - 1] == '\n'
  {
    if headers != [] { LinesEnd(headers); }
    var front, back := version + " " + code + " " + reason + "\r\n", Lines(headers) + tail;
    assert back != [] ==> (front + back)[|front + back| - 1] == back[|back| - 1];
  }

  lemma AfterStatus(
      text: string, version: string, code: string, reason: string, at: nat, end: nat, headers: seq<Header>)
    requires PlainWord(version) && PlainWord(code) && code != [] && PlainReason(reason)
    requires StatusAt(text, version, code, reason, at, end)
    requires (forall h | h in headers :: PlainHeader(h)) && HoldsLines(text, end + 2, headers)
    requires text[|text| - 1] == '\n'
    ensures Parse(text) == Some(Parsed(AsRead(reason), headers))
  {
    hide PlainWord, PlainHeader, HeadersFrom, Parse, ReasonAt, Find;
    StatusFound(text, version, code, reason, at, end);
    ReasonFound(text, version, code, reason, at, end);
    LinesReadBack(text, end + 2, headers);
    ParseIs(text, ReadFrom(reason, at), end + 1, end, AsRead(reason), headers);
  }

  lemma ParseIs(text: string, at: nat, newline: nat, end: nat, reason: string, headers: seq<Header>)
    requires text != [] && text[|text| - 1] == '\n' && ReasonAt(text) == Some(at)
    requires Find(text, '\n', at) == Some(newline)
    requires ReasonEnd(text, at, newline) == end && newline < |text| && ReadsAs(text, newline + 1, headers)
    requires text[at..end] == reason
    ensures Parse(text) == Some(Parsed(reason, headers))
  {
    assert Opened(0);
  }

  /** Where the gap after the status code is looked for, and found. */
  function SecondGap(text: string): (r: nat)
    requires ReasonAt(text).Some?
    ensures r < |text| && text[r] == ' '
  {
    Find(text, ' ', SkipSpaces(text, Find(text, ' ', 0).value)).value
  }

  lemma ParseParts(text: string, at: nat, newline: nat)
    requires ReasonAt(text) == Some(at) && Find(text, '\n', at) == Some(newline) && text[|text| - 1] == '\n'
    ensures Parse(text).Some? <==> HeadersFrom(text, newline + 1).Some?
    ensures Parse(text).Some? ==>
      Parse(text).value == Parsed(text[at..ReasonEnd(text, at, newline)], HeadersFrom(text, newline + 1).value)
  {
    hide ReasonAt, HeadersFrom, Find;
  }

  /** The headers start on the second line exactly when the first line has a space after its status code.
      Without one the search for it runs on: the reason phrase is then cut out of a later line, and the headers
      that are read start behind that line, so that the lines in between are lost. */
  lemma HeadersOnSecondLineIff(text: string, at: nat, first: nat, newline: nat)
    requires ReasonAt(text) == Some(at) && Find(text, '\n', 0) == Some(first) && Find(text, '\n', at) == Some(newline)
    requires text[|text| - 1] == '\n'
    ensures newline == first <==> SecondGap(text) < first
    ensures SecondGap(text) > first ==> first < at && first < newline
    ensures Parse(text).Some? <==> HeadersFrom(text, newline + 1).Some?
    ensures Parse(text).Some? ==>
      Parse(text).value == Parsed(text[at..ReasonEnd(text, at, newline)], HeadersFrom(text, newline + 1).value)
  {
    ParseParts(text, at, newline);
    hide Parse, HeadersFrom, ReasonEnd;
    var second := SecondGap(text);
    FindIsFirst(text, '\n', 0);
    SpacesBefore(text, second);
    if second < first {
      SpacesStop(text, second, first);
      FindFirst(text, '\n', at, first);
    }
  }

  /** Version and code may be followed by any number of spaces: the reason starts behind the second run. */
  lemma SpacedStatus(text: string, version: nat, code: nat, stop: nat, at: nat)
    requires version < code < stop < at < |text| && text[at] !in {' ', '\r', '\n'}
    requires forall k | 0 <= k < version || code <= k < stop :: text[k] != ' '
    requires forall k | version <= k < code || stop <= k < at :: text[k] == ' '
    ensures ReasonAt(text) == Some(at)
  {
    hide Find, SkipSpaces;
    FindFirst(text, ' ', 0, version);
    SpacesStop(text, version, code);
    FindFirst(text, ' ', code, stop);
    SpacesStop(text, stop, at);
  }

  /** An empty line ends the headers, however lines end; a line without a colon is an error, and so is a text without
      two gaps in it. */
  lemma MalformedText(text: string, i: nat)
    requires i <= |text| && text != [] && text[|text| - 1] == '\n'
    ensures i == |text| || text[i] in {'\r', '\n'} ==> HeadersFrom(text, i) == Some([])
    ensures i < |text| && text[i] !in {'\r', '\n', '\0'} && ':' !in text[i..] ==> HeadersFrom(text, i) == None
    ensures ' ' !in text ==> Parse(text) == None
  {
  }

  /** A header becomes the reason phrase. */
  lemma HeaderTakenForReason()
    ensures Parse("H 2\r\nA: b\r\n\r\n") == Some(Parsed("b", []))
  {
    var text := "H 2\r\nA: b\r\n\r\n";
    FindFirst(text, ' ', 0, 1);
    SpacesStop(text, 1, 2);
    FindFirst(text, ' ', 2, 7);
    SpacesStop(text, 7, 8);
    FindFirst(text, '\n', 8, 10);
    TrimsTo(text, 9, 9, 10, true);
    assert ReasonAt(text) == Some(8) && ReasonEnd(text, 8, 10) == 9 && text[8..9] == "b";
    assert At(text, 11) == '\r' && HeadersFrom(text, 11) == Some([]);
  }

  lemma {:induction false} FindIsFirst(text: string, c: char, i: nat)
    requires i <= |text| && Find(text, c, i).Some?
    ensures forall j | i <= j < Find(text, c, i).value :: text[j] != c
    decreases |text| - i
  {
    if text[i] != c { FindIsFirst(text, c, i + 1); }
  }
}

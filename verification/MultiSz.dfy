/**
 MULTISZ, a buffer that holds strings one after the other, each with its NUL, and a NUL after the last;
 and SplitCommaDelimitedString, which fills one.  Lengths are in characters; a character takes two bytes.
 */
module MultiSz {

  const NUL: char := '\0'
  const COMMA: char := ','
  const MAXULONG: nat := 4294967295
  const STR_SLOP: nat := 128

  /** c is not among b's characters from i up to j. */
  predicate None(b: string, c: char, i: nat, j: nat)
    requires j <= |b|
  {
    forall k | i <= k < j :: b[k] != c
  }

  // ----- What a buffer holds -----

  /** The end of the string at i: its NUL. */
  function NulAt(b: string, i: nat): (z: nat)
    requires i <= |b|
    ensures i <= z <= |b| && (z < |b| ==> b[z] == NUL) && None(b, NUL, i, z)
    decreases |b| - i
  {
    if i == |b| || b[i] == NUL then i else NulAt(b, i + 1)
  }

  /** The empty string that ends the strings from i on; |b| if they run out of the buffer. */
  function EndAt(b: string, i: nat): (e: nat)
    requires i <= |b|
    ensures i <= e <= |b|
    decreases |b| - i
  {
    if i == |b| || b[i] == NUL then i
    else if NulAt(b, i) == |b| then |b|
    else EndAt(b, NulAt(b, i) + 1)
  }

  predicate Terminated(b: string) { EndAt(b, 0) < |b| }

  /** The strings from i on, up to the first empty one. */
  function StringsAt(b: string, i: nat): seq<string>
    requires i <= |b|
    decreases |b| - i
  {
    if i == |b| || b[i] == NUL then []
    else if NulAt(b, i) == |b| then [b[i..]]
    else [b[i..NulAt(b, i)]] + StringsAt(b, NulAt(b, i) + 1)
  }

  // ----- The same from the strings: the block they make -----

  /** What can stand in the list. */
  predicate Entry(s: string) { s != "" && None(s, NUL, 0, |s|) }

  predicate Entries(list: seq<string>) { forall i | 0 <= i < |list| :: Entry(list[i]) }

  function Body(list: seq<string>): string {
    if list == [] then "" else list[0] + [NUL] + Body(list[1..])
  }

  function Block(list: seq<string>): string { Body(list) + [NUL] }

  function Size(list: seq<string>): nat {
    if list == [] then 0 else |list[0]| + 1 + Size(list[1..])
  }

  lemma {:induction false} BodySize(list: seq<string>)
    ensures |Body(list)| == Size(list)
  {
    if list != [] { BodySize(list[1..]); }
  }

  lemma NulIs(b: string, i: nat, z: nat)
    requires i <= z < |b| && b[z] == NUL && None(b, NUL, i, z)
    ensures NulAt(b, i) == z
  {
    var n := NulAt(b, i);
    assert !(n < z) && !(z < n);
  }

  /** One string further. */
  lemma Step(b: string, i: nat)
    requires i < |b| && b[i] != NUL && EndAt(b, i) < |b|
    ensures i < NulAt(b, i) < |b| && EndAt(b, i) == EndAt(b, NulAt(b, i) + 1)
    ensures StringsAt(b, i) == [b[i..NulAt(b, i)]] + StringsAt(b, NulAt(b, i) + 1)
  {
  }

  lemma StepBack(b: string, i: nat, z: nat)
    requires i < z < |b| && b[i] != NUL && NulAt(b, i) == z
    ensures EndAt(b, i) == EndAt(b, z + 1) && StringsAt(b, i) == [b[i..z]] + StringsAt(b, z + 1)
  {
  }

  lemma Stop(b: string, i: nat)
    requires i < |b| && b[i] == NUL
    ensures EndAt(b, i) == i && StringsAt(b, i) == []
  {
  }

  lemma BlockOfMore(s: string, rest: seq<string>)
    ensures Block([s] + rest) == s + [NUL] + Block(rest)
  {
    assert ([s] + rest)[1..] == rest;
  }

  lemma EntriesMore(s: string, rest: seq<string>)
    requires Entry(s) && Entries(rest)
    ensures Entries([s] + rest)
  {
  }

  lemma SliceEntry(b: string, i: nat, z: nat)
    requires i < z <= |b| && None(b, NUL, i, z)
    ensures Entry(b[i..z])
  {
  }

  lemma Joined(b: string, i: nat, z: nat, e: nat)
    requires i <= z < e <= |b|
    ensures b[i..e] == b[i..z] + [b[z]] + b[z + 1..e]
  {
  }

  /** A terminated buffer begins with the block of its strings. */
  lemma {:induction false} HoldsBlock(b: string, i: nat)
    requires i <= |b| && EndAt(b, i) < |b|
    ensures Entries(StringsAt(b, i)) && b[i..EndAt(b, i) + 1] == Block(StringsAt(b, i))
    decreases |b| - i
  {
    hide EndAt, StringsAt, Entries, Entry, Block;
    if b[i] == NUL {
      Stop(b, i);
      EmptyBlock();
    } else {
      var z := NulAt(b, i);
      Step(b, i);
      HoldsBlock(b, z + 1);
      SliceEntry(b, i, z);
      EntriesMore(b[i..z], StringsAt(b, z + 1));
      BlockOfMore(b[i..z], StringsAt(b, z + 1));
      Joined(b, i, z, EndAt(b, i) + 1);
    }
  }

  lemma EmptyBlock()
    ensures Entries([]) && Block([]) == [NUL]
  {
  }

  /** A buffer that begins with the block of some strings holds exactly these. */
  lemma {:induction false} BlockHolds(list: seq<string>, b: string, i: nat)
    requires Entries(list) && i + |Block(list)| <= |b| && b[i..i + |Block(list)|] == Block(list)
    ensures EndAt(b, i) == i + Size(list) < |b| && StringsAt(b, i) == list
    decreases |list|
  {
    hide EndAt, StringsAt;
    BodySize(list);
    if list == [] {
      assert b[i] == Block(list)[0];
      Stop(b, i);
    } else {
      var s, rest := list[0], list[1..];
      assert list == [s] + rest;
      BlockOfMore(s, rest);
      FirstOfBlock(s, rest, b, i);
      BlockHolds(rest, b, i + |s| + 1);
      StepBack(b, i, i + |s|);
    }
  }

  lemma FirstOfBlock(s: string, rest: seq<string>, b: string, i: nat)
    requires Entry(s) && i + |s| + 1 + |Block(rest)| <= |b|
    requires b[i..i + |s| + 1 + |Block(rest)|] == s + [NUL] + Block(rest)
    ensures b[i] != NUL && NulAt(b, i) == i + |s| && b[i..i + |s|] == s
    ensures b[i + |s| + 1..i + |s| + 1 + |Block(rest)|] == Block(rest)
  {
    hide Block;
    var t, n := b[i..i + |s| + 1 + |Block(rest)|], |s|;
    assert t[..n] == s && t[n] == NUL && t[n + 1..] == Block(rest);
    assert b[i..i + n] == t[..n];
    forall k | i <= k < i + n ensures b[k] == s[k - i] { assert t[k - i] == s[k - i]; }
    NulIs(b, i, i + n);
  }

  // ----- Appending -----

  /** The strings of a block of characters that gets two NULs appended. */
  function StringsOf(s: string): seq<string> { StringsAt(s + [NUL, NUL], 0) }

  lemma {:induction false} PairEnds(s: string, i: nat)
    requires i <= |s| + 1
    ensures EndAt(s + [NUL, NUL], i) < |s| + 2
    decreases |s| + 1 - i
  {
    var b := s + [NUL, NUL];
    assert b[|s|] == NUL && b[|s| + 1] == NUL;
    if b[i] != NUL {
      assert NulAt(b, i) <= |s|;
      PairEnds(s, NulAt(b, i) + 1);
    }
  }

  /** A string without NUL is one entry; the empty one is none. */
  lemma OneString(s: string)
    requires None(s, NUL, 0, |s|)
    ensures StringsOf(s) == if s == "" then [] else [s]
  {
    var b := s + [NUL, NUL];
    assert b[0..|s|] == s;
    if s == "" {
      Stop(b, 0);
    } else {
      NulIs(b, 0, |s|);
      StepBack(b, 0, |s|);
      Stop(b, |s| + 1);
    }
  }

  lemma NoStrings(s: string)
    requires s != "" && s[0] == NUL
    ensures StringsOf(s) == []
  {
    Stop(s + [NUL, NUL], 0);
  }

  /** The block of a list gives the list. */
  lemma BlockOf(list: seq<string>)
    requires Entries(list)
    ensures StringsOf(Block(list)) == list
  {
    var b := Block(list) + [NUL, NUL];
    assert b[0..|Block(list)|] == Block(list);
    BlockHolds(list, b, 0);
  }

  /** c stands in b, d characters further on. */
  predicate Stands(c: string, b: string, d: nat) {
    d + |c| <= |b| && forall k | 0 <= k < |c| :: b[k + d] == c[k]
  }

  lemma NulShifted(b: string, d: nat, c: string, j: nat)
    requires j <= |c| && Stands(c, b, d) && NulAt(c, j) < |c|
    ensures NulAt(b, j + d) == NulAt(c, j) + d && b[j + d..NulAt(b, j + d)] == c[j..NulAt(c, j)]
  {
    var z := NulAt(c, j);
    forall k | j + d <= k < z + d ensures b[k] != NUL { assert b[(k - d) + d] == c[k - d]; }
    NulIs(b, j + d, z + d);
  }

  /** The same characters further on hold the same strings. */
  lemma {:induction false} Shifted(b: string, d: nat, c: string, j: nat)
    requires j <= |c| && Stands(c, b, d) && EndAt(c, j) < |c|
    ensures StringsAt(b, j + d) == StringsAt(c, j) && EndAt(b, j + d) == EndAt(c, j) + d
    decreases |c| - j
  {
    hide EndAt, StringsAt;
    assert b[j + d] == c[j];
    if c[j] == NUL {
      Stop(b, j + d);
      Stop(c, j);
    } else {
      Step(c, j);
      NulShifted(b, d, c, j);
      Shifted(b, d, c, NulAt(c, j) + 1);
      StepBack(b, j + d, NulAt(b, j + d));
    }
  }

  /** Changing what follows the strings adds the strings that then follow. */
  lemma {:induction false} Continued(b: string, b': string, i: nat)
    requires i <= |b| && EndAt(b, i) < |b| && EndAt(b, i) <= |b'|
    requires b'[..EndAt(b, i)] == b[..EndAt(b, i)]
    ensures StringsAt(b', i) == StringsAt(b, i) + StringsAt(b', EndAt(b, i)) && EndAt(b', i) == EndAt(b', EndAt(b, i))
    decreases |b| - i
  {
    hide EndAt, StringsAt;
    if b[i] == NUL {
      Stop(b, i);
    } else {
      Step(b, i);
      var z, e := NulAt(b, i), EndAt(b, i);
      SameUpTo(b, b', i, z, e);
      Continued(b, b', z + 1);
      StepBack(b', i, z);
      assert [b[i..z]] + StringsAt(b, z + 1) + StringsAt(b', e) == [b[i..z]] + (StringsAt(b, z + 1) + StringsAt(b', e));
    }
  }

  lemma SameUpTo(b: string, b': string, i: nat, z: nat, e: nat)
    requires i < z < e <= |b| && e <= |b'| && b'[..e] == b[..e] && NulAt(b, i) == z
    ensures b'[i] == b[i] && NulAt(b', i) == z && b'[i..z] == b[i..z]
  {
    assert forall k | 0 <= k < e :: b'[k] == b'[..e][k] == b[k];
    NulIs(b', i, z);
  }

  /** Writing a block and two NULs where the strings end appends its strings. */
  lemma AppendedStrings(b: string, s: string, b': string)
    requires Terminated(b) && EndAt(b, 0) + |s| + 2 <= |b'|
    requires b'[..EndAt(b, 0)] == b[..EndAt(b, 0)]
    requires Stands(s + [NUL, NUL], b', EndAt(b, 0))
    ensures Terminated(b') && StringsAt(b', 0) == StringsAt(b, 0) + StringsOf(s)
  {
    PairEnds(s, 0);
    Continued(b, b', 0);
    Shifted(b', EndAt(b, 0), s + [NUL, NUL], 0);
  }

  // ----- First and Next -----

  datatype Ptr = NULL | At(pos: nat)

  function PtrAt(b: string, i: nat): Ptr
    requires i < |b|
  {
    if b[i] == NUL then NULL else At(i)
  }

  predicate Points(b: string, p: Ptr) {
    p.At? ==> p.pos < |b| && b[p.pos] != NUL && EndAt(b, p.pos) < |b|
  }

  function First(b: string): (p: Ptr)
    requires Terminated(b)
    ensures Points(b, p) && (p.NULL? <==> StringsAt(b, 0) == [])
  {
    PtrAt(b, 0)
  }

  function Next(b: string, i: nat): (p: Ptr)
    requires Points(b, At(i))
    ensures Points(b, p) && (p.At? ==> p.pos > i)
  {
    PtrAt(b, NulAt(b, i) + 1)
  }

  /** The string a pointer points to. */
  function Pointee(b: string, i: nat): string
    requires i <= |b|
  {
    b[i..NulAt(b, i)]
  }

  /** What a scan with Next sees. */
  function Scan(b: string, p: Ptr): seq<string>
    requires Points(b, p)
    decreases if p.NULL? then 0 else |b| - p.pos
  {
    if p.NULL? then [] else [Pointee(b, p.pos)] + Scan(b, Next(b, p.pos))
  }

  lemma {:induction false} ScanFrom(b: string, i: nat)
    requires i < |b| && EndAt(b, i) < |b|
    ensures Scan(b, PtrAt(b, i)) == StringsAt(b, i)
    decreases |b| - i
  {
    if b[i] != NUL { ScanFrom(b, NulAt(b, i) + 1); }
  }

  /** First and Next visit every string once, in order. */
  lemma ScanSeesAll(b: string)
    requires Terminated(b)
    ensures Scan(b, First(b)) == StringsAt(b, 0)
  {
    ScanFrom(b, 0);
  }

  // ----- Comma-separated lists -----

  function CommaAt(s: string, i: nat): (c: nat)
    requires i <= |s|
    ensures i <= c <= |s| && (c < |s| ==> s[c] == COMMA) && None(s, COMMA, i, c)
    decreases |s| - i
  {
    if i == |s| || s[i] == COMMA then i else CommaAt(s, i + 1)
  }

  /** The fields from i on. */
  function FieldsAt(s: string, i: nat): (fields: seq<string>)
    requires i <= |s|
    ensures fields != []
    decreases |s| - i
  {
    var c := CommaAt(s, i);
    if c == |s| then [s[i..]] else [s[i..c]] + FieldsAt(s, c + 1)
  }

  predicate IsWhite(c: char) { c == ' ' || c == '\t' || c == '\r' }

  /** What is white, in a text. */
  lemma EntriesOf()
    ensures FieldsAt(" a\t,b\n,\r", 0) == [" a\t", "b\n", "\r"]
    ensures Kept(FieldsAt(" a\t,b\n,\r", 0), true) == ["a", "b\n"]
  {
    var s := " a\t,b\n,\r";
    assert s[0..3] == " a\t" && s[4..6] == "b\n" && s[7..8] == "\r";
    assert Trimmed(" a\t", 0, 3) == "a" && Trimmed("b\n", 0, 2) == "b\n" && Trimmed("\r", 0, 1) == "";
  }

  /** s[i..j] without the white space around it. */
  function Trimmed(s: string, i: nat, j: nat): string
    requires i <= j <= |s|
    decreases j - i
  {
    if i < j && IsWhite(s[i]) then Trimmed(s, i + 1, j)
    else if i < j && IsWhite(s[j - 1]) then Trimmed(s, i, j - 1)
    else s[i..j]
  }

  function Cleaned(field: string, trim: bool): string {
    if trim then Trimmed(field, 0, |field|) else field
  }

  /** The fields that are kept: the non-empty ones. */
  function Kept(fields: seq<string>, trim: bool): seq<string> {
    if fields == [] then []
    else (if Cleaned(fields[0], trim) == "" then [] else [Cleaned(fields[0], trim)]) + Kept(fields[1..], trim)
  }

  function Join(list: seq<string>): string {
    if list == [] then "" else if |list| == 1 then list[0] else list[0] + [COMMA] + Join(list[1..])
  }

  lemma CommaIs(s: string, i: nat, c: nat)
    requires i <= c <= |s| && (c < |s| ==> s[c] == COMMA) && None(s, COMMA, i, c)
    ensures CommaAt(s, i) == c
  {
    var n := CommaAt(s, i);
    assert !(n < c) && !(c < n);
  }

  predicate NoCommas(fields: seq<string>) {
    forall k | 0 <= k < |fields| :: None(fields[k], COMMA, 0, |fields[k]|)
  }

  lemma NoCommasMore(s: string, i: nat, c: nat, rest: seq<string>)
    requires i <= c <= |s| && None(s, COMMA, i, c) && NoCommas(rest)
    ensures NoCommas([s[i..c]] + rest)
  {
  }

  lemma JoinMore(field: string, rest: seq<string>)
    requires rest != []
    ensures Join([field] + rest) == field + [COMMA] + Join(rest)
  {
    assert ([field] + rest)[1..] == rest;
  }

  lemma FieldStep(s: string, i: nat, c: nat)
    requires i <= c < |s| && CommaAt(s, i) == c
    ensures FieldsAt(s, i) == [s[i..c]] + FieldsAt(s, c + 1)
  {
  }

  lemma FieldsEnd(s: string, i: nat)
    requires i <= |s| && CommaAt(s, i) == |s|
    ensures FieldsAt(s, i) == [s[i..]]
  {
  }

  /** The fields are without commas, and joined they are the text again. */
  lemma {:induction false} FieldsJoined(s: string, i: nat)
    requires i <= |s|
    ensures Join(FieldsAt(s, i)) == s[i..] && NoCommas(FieldsAt(s, i))
    decreases |s| - i
  {
    hide Join, NoCommas, FieldsAt;
    var c := CommaAt(s, i);
    if c == |s| {
      FieldsEnd(s, i);
      LastField(s, i);
    } else {
      FieldStep(s, i, c);
      FieldsJoined(s, c + 1);
      JoinMore(s[i..c], FieldsAt(s, c + 1));
      NoCommasMore(s, i, c, FieldsAt(s, c + 1));
      Joined(s, i, c, |s|);
    }
  }

  lemma LastField(s: string, i: nat)
    requires i <= |s| && None(s, COMMA, i, |s|)
    ensures Join([s[i..]]) == s[i..] && NoCommas([s[i..]])
  {
  }

  /** No commas, and nothing that trimming would take away. */
  predicate CleanEntry(s: string, trim: bool) {
    s != "" && None(s, COMMA, 0, |s|) && (trim ==> !IsWhite(s[0]) && !IsWhite(s[|s| - 1]))
  }

  predicate CleanEntries(list: seq<string>, trim: bool) {
    forall i | 0 <= i < |list| :: CleanEntry(list[i], trim)
  }

  lemma KeptMore(s: string, rest: seq<string>, trim: bool)
    requires CleanEntry(s, trim)
    ensures Kept([s] + rest, trim) == [s] + Kept(rest, trim)
  {
    assert ([s] + rest)[1..] == rest;
    assert s[0..|s|] == s && Cleaned(s, trim) == s;
  }

  /** Splitting a joined list gives the list. */
  lemma {:induction false} SplitOfJoin(list: seq<string>, trim: bool)
    requires CleanEntries(list, trim)
    ensures Kept(FieldsAt(Join(list), 0), trim) == list
  {
    hide CleanEntry, FieldsAt;
    if list == [] {
      EmptySplit(trim);
    } else {
      var s := list[0];
      FirstField(s, list[1..], trim);
      KeptMore(s, [], trim);
      if |list| > 1 {
        SplitOfJoin(list[1..], trim);
        KeptMore(s, FieldsAt(Join(list[1..]), 0), trim);
      }
    }
  }

  lemma EmptySplit(trim: bool)
    ensures Kept(FieldsAt("", 0), trim) == []
  {
    assert FieldsAt("", 0) == [""] && Cleaned("", trim) == "";
  }

  lemma FirstField(s: string, rest: seq<string>, trim: bool)
    requires CleanEntry(s, trim)
    ensures rest == [] ==> FieldsAt(Join([s] + rest), 0) == [s]
    ensures rest != [] ==> FieldsAt(Join([s] + rest), 0) == [s] + FieldsAt(Join(rest), 0)
  {
    if rest == [] {
      CommaIs(s, 0, |s|);
    } else {
      JoinMore(s, rest);
      var t := s + [COMMA] + Join(rest);
      CommaIs(t, 0, |s|);
      assert t[0..|s|] == s && t[|s| + 1..] == Join(rest);
      FieldsOfRest(t, |s| + 1, 0);
    }
  }

  lemma {:induction false} FieldsOfRest(t: string, d: nat, j: nat)
    requires d + j <= |t|
    ensures FieldsAt(t, d + j) == FieldsAt(t[d..], j)
    decreases |t| - j
  {
    hide FieldsAt;
    var c := CommaAt(t, d + j);
    CommaIs(t[d..], j, c - d);
    assert t[d..][j..c - d] == t[d + j..c];
    if c < |t| {
      FieldsOfRest(t, d, c + 1 - d);
      FieldStep(t, d + j, c);
      FieldStep(t[d..], j, c - d);
    } else {
      FieldsEnd(t, d + j);
      FieldsEnd(t[d..], j);
    }
  }

  /** Trimming takes away white space at both ends, and all of it. */
  lemma {:induction false} TrimmedIs(s: string, i: nat, j: nat, l: nat, r: nat)
    requires i <= l <= r <= j <= |s|
    requires forall k | i <= k < l || r <= k < j :: IsWhite(s[k])
    requires l < r ==> !IsWhite(s[l]) && !IsWhite(s[r - 1])
    ensures Trimmed(s, i, j) == s[l..r]
    decreases j - i
  {
    if i < j && IsWhite(s[i]) {
      if i < l { TrimmedIs(s, i + 1, j, l, r); }
      else { TrimmedIs(s, i + 1, j, i + 1, i + 1); }
    } else if i < j && IsWhite(s[j - 1]) {
      TrimmedIs(s, i, j - 1, l, r);
    }
  }

  // ----- The object -----

  /** How many characters a byte count that was computed in 32 bits stands for. */
  function Taken(s: string): string { s[..2 * |s| % (MAXULONG + 1) / 2] }

  lemma AllTaken(s: string)
    requires 2 * |s| <= MAXULONG
    ensures Taken(s) == s
  {
  }

  /** Of a string of exactly 4 GB nothing is taken. */
  lemma NothingTaken(s: string)
    requires |s| == 0x8000_0000
    ensures Taken(s) == ""
  {
  }

  /** CalcLength. */
  method CalcLength(b: array<char>) returns (total: nat, count: nat)
    requires Terminated(b[..]) && 2 * b.Length <= MAXULONG
    ensures total == EndAt(b[..], 0) + 1 && count == |StringsAt(b[..], 0)|
    ensures total == |Block(StringsAt(b[..], 0))| == Size(StringsAt(b[..], 0)) + 1
  {
    hide EndAt, StringsAt, Block;
    HoldsBlock(b[..], 0);
    BlockLength(StringsAt(b[..], 0));
    var str := 0;
    count, total := 0, 1;
    while b[str] != NUL
      invariant str < b.Length && total == str + 1 && EndAt(b[..], str) == EndAt(b[..], 0)
      invariant count + |StringsAt(b[..], str)| == |StringsAt(b[..], 0)|
      decreases b.Length - str
    {
      Step(b[..], str);
      var len := NulAt(b[..], str) - str + 1;
      total := total + len;
      str := str + len;
      count := count + 1;
    }
    Stop(b[..], str);
  }

  lemma BlockLength(list: seq<string>)
    ensures |Block(list)| == Size(list) + 1
  {
    BodySize(list);
  }

  class MultiSz {
    /** The memory, of QuerySize() bytes. */
    var buffer: array<char>
    var cchLen: nat
    var cStrings: nat

    /** The strings that are held. */
    ghost function List(): seq<string>
      reads this`buffer, buffer
    {
      StringsAt(buffer[..], 0)
    }

    /** The caches are right; but after Reset the empty list counts two NULs. */
    ghost predicate Valid()
      reads this, buffer
    {
      && 2 <= buffer.Length && 2 * buffer.Length <= MAXULONG
      && Terminated(buffer[..])
      && cStrings == |List()|
      && (cchLen == EndAt(buffer[..], 0) + 1 || (cchLen == 2 && buffer[0] == NUL && buffer[1] == NUL))
    }

    /** The caches and the memory in terms of the list alone. */
    lemma Represents()
      requires Valid()
      ensures Entries(List()) && cStrings == |List()|
      ensures cchLen <= buffer.Length && (cchLen == |Block(List())| || (List() == [] && cchLen == 2))
      ensures buffer[..cchLen] == Block(List()) || (List() == [] && buffer[..cchLen] == [NUL, NUL])
    {
      HoldsBlock(buffer[..], 0);
      BlockLength(List());
      var e := EndAt(buffer[..], 0);
      assert buffer[..][0..e + 1] == buffer[..e + 1];
      if buffer[0] == NUL { Stop(buffer[..], 0); }
    }

    lemma Sizes()
      requires Valid()
      ensures 2 <= buffer.Length && 2 * buffer.Length <= MAXULONG
    {
    }

    constructor ()
      ensures Valid() && fresh(buffer) && List() == []
    {
      buffer := new char[16];
      cchLen, cStrings := 0, 0;
      new;
      Reset();
    }

    method Reset()
      requires 2 <= buffer.Length && 2 * buffer.Length <= MAXULONG
      modifies `cchLen, `cStrings, buffer
      ensures Valid() && List() == []
    {
      buffer[0] := NUL;
      buffer[1] := NUL;
      cchLen := 2;
      cStrings := 0;
      Stop(buffer[..], 0);
    }

    /** BUFFER::Resize.  Whether there is memory for so many characters is up to `memory`. */
    method Resize(cch: nat, memory: nat -> bool) returns (ok: bool)
      requires 2 * cch <= MAXULONG
      modifies `buffer
      ensures ok <==> cch <= old(buffer.Length) || memory(cch)
      ensures buffer == old(buffer) || (fresh(buffer) && buffer.Length == cch > old(buffer.Length))
      ensures buffer[..old(buffer.Length)] == old(buffer[..]) && (ok ==> cch <= buffer.Length)
      ensures !ok ==> buffer == old(buffer)
    {
      if cch <= buffer.Length {
        return true;
      }
      if !memory(cch) {
        return false;
      }
      var bigger := new char[cch];
      forall i | 0 <= i < buffer.Length {
        bigger[i] := buffer[i];
      }
      buffer := bigger;
      return true;
    }

    /** Where AuxAppend starts to write. */
    function Start(): nat
      requires cchLen > 0
      reads `cchLen
    {
      if cchLen == 2 then 0 else cchLen - 1
    }

    lemma StartsAtEnd()
      requires Valid()
      ensures Start() == EndAt(buffer[..], 0) < buffer.Length
    {
      if cchLen == 2 && buffer[0] == NUL {
        Stop(buffer[..], 0);
      } else if buffer[0] == NUL {
        Stop(buffer[..], 0);
      } else {
        Step(buffer[..], 0);
      }
    }

    /** Whether the buffer can be made to hold n more characters. */
    predicate Fits(n: nat, slop: nat, memory: nat -> bool)
      requires cchLen > 0
      reads this`cchLen, this`buffer
    {
      var required := Start() + n + 2;
      2 * required <= MAXULONG &&
        (required <= buffer.Length || (2 * required + slop <= MAXULONG && memory(required + slop / 2)))
    }

    /** The growing in AuxAppend. */
    method Grow(n: nat, slop: nat, memory: nat -> bool) returns (ok: bool)
      requires Valid() && slop % 2 == 0
      modifies `buffer
      ensures ok <==> old(Fits(n, slop, memory))
      ensures buffer == old(buffer) || fresh(buffer)
      ensures buffer.Length >= old(buffer.Length) && buffer[..old(buffer.Length)] == old(buffer[..])
      ensures ok ==> old(Start()) + n + 2 <= buffer.Length && 2 * buffer.Length <= MAXULONG
      ensures !ok ==> buffer == old(buffer)
    {
      var cbRequired := 2 * (Start() + n + 2);
      if cbRequired > MAXULONG {
        return false;
      }
      if 2 * buffer.Length < cbRequired {
        var cbAlloc := cbRequired + slop;
        if cbAlloc > MAXULONG {
          return false;
        }
        assert cbAlloc / 2 == Start() + n + 2 + slop / 2;
        ok := Resize(cbAlloc / 2, memory);
        return ok;
      }
      return true;
    }

    /** The copying in AuxAppend. */
    method Write(start: nat, str: string)
      requires start + |str| + 2 <= buffer.Length
      modifies buffer
      ensures buffer[..start] == old(buffer[..start]) && Stands(str + [NUL, NUL], buffer[..], start)
    {
      forall i | 0 <= i < |str| {
        buffer[start + i] := str[i];
      }
      buffer[start + |str|] := NUL;
      buffer[start + |str| + 1] := NUL;
    }

    /** The strings in a block, however they are separated, follow the ones that are there. */
    method AuxAppend(str: string, addSlop: bool, memory: nat -> bool) returns (ok: bool)
      requires Valid()
      modifies this, buffer
      ensures Valid() && (buffer == old(buffer) || fresh(buffer))
      ensures ok <==> old(Fits(|str|, if addSlop then STR_SLOP else 0, memory))
      ensures List() == if ok then old(List()) + StringsOf(str) else old(List())
      ensures !ok ==> buffer == old(buffer) && buffer[..] == old(buffer[..]) && cchLen == old(cchLen)
    {
      hide Terminated, EndAt, StringsAt, StringsOf, Stands, Fits;
      StartsAtEnd();
      var start := Start();
      ok := Grow(|str|, if addSlop then STR_SLOP else 0, memory);
      if !ok {
        return;
      }
      Write(start, str);
      AppendedStrings(old(buffer[..]), str, buffer[..]);
      cchLen, cStrings := CalcLength(buffer);
    }

    /** Append; the byte count is passed on in 32 bits. */
    method Append(str: string, memory: nat -> bool) returns (ok: bool)
      requires Valid() && None(str, NUL, 0, |str|)
      modifies this, buffer
      ensures Valid() && (buffer == old(buffer) || fresh(buffer))
      ensures ok <==> old(Fits(|Taken(str)|, STR_SLOP, memory))
      ensures List() == old(List()) + if ok && Taken(str) != "" then [Taken(str)] else []
    {
      OneString(Taken(str));
      ok := AuxAppend(Taken(str), true, memory);
    }

    /** Copy of a block. */
    method Copy(block: string, memory: nat -> bool) returns (ok: bool)
      requires Valid()
      modifies this, buffer
      ensures Valid() && (buffer == old(buffer) || fresh(buffer))
      ensures ok <==> 2 * (|block| + 2) <= MAXULONG && (|block| + 2 <= old(buffer.Length) || memory(|block| + 2))
      ensures List() == if ok then StringsOf(block) else []
    {
      Reset();
      ok := AuxAppend(block, false, memory);
    }

    /** Copy of another MULTISZ.  Copied to itself, the list is lost: it is emptied before it is read.  Nothing
        is said of what such a copy reads when the buffer had to grow, because growing may move the text. */
    method CopyFrom(str: MultiSz, memory: nat -> bool) returns (ok: bool)
      requires Valid() && str.Valid() && (str == this || str.buffer != buffer)
      modifies this, buffer
      ensures Valid() && (buffer == old(buffer) || fresh(buffer))
      ensures var cch := old(str.cchLen) + 2;
        ok <==> 2 * cch <= MAXULONG && (cch <= old(buffer.Length) || memory(cch))
      ensures str != this ==> List() == if ok then old(str.List()) else []
      ensures str == this && (!ok || old(cchLen) + 2 <= old(buffer.Length)) ==> List() == []
    {
      hide Terminated;
      hide StringsOf, Block;
      var cch := str.cchLen;
      str.Represents();
      BlockOf(str.List());
      NoStrings([NUL, NUL]);
      Reset();
      if str == this { NoStrings(buffer[..cch]); }
      ok := AuxAppend(str.buffer[..cch], false, memory);
    }

    /** FindString: wcscmp with each string in turn. */
    method FindString(str: string) returns (found: bool)
      requires Valid() && None(str, NUL, 0, |str|)
      ensures found <==> str in List()
    {
      hide EndAt, StringsAt;
      var multisz := 0;
      found := false;
      while buffer[multisz] != NUL
        invariant multisz < buffer.Length && EndAt(buffer[..], multisz) < buffer.Length
        invariant str in List() <==> str in StringsAt(buffer[..], multisz)
        decreases buffer.Length - multisz
      {
        Step(buffer[..], multisz);
        if Pointee(buffer[..], multisz) == str {
          return true;
        }
        multisz := NulAt(buffer[..], multisz) + 1;
      }
      Stop(buffer[..], multisz);
    }

    /** Equals: the counts, then the strings pairwise. */
    method Equals(rhs: MultiSz) returns (equal: bool)
      requires Valid() && rhs.Valid()
      ensures equal <==> List() == rhs.List()
    {
      hide EndAt, StringsAt, Scan, Next;
      ScanSeesAll(buffer[..]);
      ScanSeesAll(rhs.buffer[..]);
      var pszLhs, pszRhs := First(buffer[..]), First(rhs.buffer[..]);
      if cStrings != rhs.cStrings {
        return false;
      }
      while pszLhs != NULL
        invariant Points(buffer[..], pszLhs) && Points(rhs.buffer[..], pszRhs)
        invariant |Scan(buffer[..], pszLhs)| == |Scan(rhs.buffer[..], pszRhs)|
        invariant List() == rhs.List() <==> Scan(buffer[..], pszLhs) == Scan(rhs.buffer[..], pszRhs)
        decreases if pszLhs.NULL? then 0 else buffer.Length - pszLhs.pos
      {
        ScanStep(buffer[..], pszLhs);
        ScanStep(rhs.buffer[..], pszRhs);
        SameHead(Pointee(buffer[..], pszLhs.pos), Scan(buffer[..], Next(buffer[..], pszLhs.pos)),
                 Pointee(rhs.buffer[..], pszRhs.pos), Scan(rhs.buffer[..], Next(rhs.buffer[..], pszRhs.pos)));
        if Pointee(buffer[..], pszLhs.pos) != Pointee(rhs.buffer[..], pszRhs.pos) {
          return false;
        }
        pszLhs := Next(buffer[..], pszLhs.pos);
        pszRhs := Next(rhs.buffer[..], pszRhs.pos);
      }
      ScanStep(buffer[..], pszLhs);
      return true;
    }
  }

  lemma SameHead(x: string, a: seq<string>, y: string, b: seq<string>)
    ensures [x] + a == [y] + b <==> x == y && a == b
  {
    assert ([x] + a)[0] == x && ([x] + a)[1..] == a && ([y] + b)[0] == y && ([y] + b)[1..] == b;
  }

  lemma ScanStep(b: string, p: Ptr)
    requires Points(b, p)
    ensures p.NULL? <==> Scan(b, p) == []
    ensures p.At? ==> Scan(b, p) == [Pointee(b, p.pos)] + Scan(b, Next(b, p.pos))
  {
  }

  /** The white space skipped at one end. */
  method TrimEntry(text: string, start: nat, stop: nat) returns (current: nat, end: nat)
    requires start <= stop <= |text|
    ensures start <= current <= end <= stop && text[current..end] == Trimmed(text, start, stop)
  {
    current, end := start, stop;
    while current < end && IsWhite(text[current])
      invariant current <= end && Trimmed(text, current, end) == Trimmed(text, start, stop)
    {
      current := current + 1;
    }
    while end > current && IsWhite(text[end - 1])
      invariant current <= end && Trimmed(text, current, end) == Trimmed(text, start, stop)
      invariant current < end ==> !IsWhite(text[current])
    {
      end := end - 1;
    }
  }

  lemma {:induction false} TrimmedSlice(s: string, i: nat, j: nat, d: nat)
    requires d <= i <= j <= |s|
    ensures Trimmed(s, i, j) == Trimmed(s[d..j], i - d, j - d)
    decreases j - i
  {
    if i < j && IsWhite(s[i]) {
      TrimmedSlice(s, i + 1, j, d);
    } else if i < j && IsWhite(s[j - 1]) {
      TrimmedSlice(s, i, j - 1, d);
      TrimmedPrefix(s[d..j], i - d, j - 1 - d, j - 1 - d);
      assert s[d..j][..j - 1 - d] == s[d..j - 1];
    } else {
      assert s[i..j] == s[d..j][i - d..];
    }
  }

  lemma {:induction false} TrimmedPrefix(s: string, i: nat, j: nat, e: nat)
    requires i <= j <= e <= |s|
    ensures Trimmed(s[..e], i, j) == Trimmed(s, i, j)
    decreases j - i
  {
    if i < j && IsWhite(s[i]) {
      TrimmedPrefix(s, i + 1, j, e);
    } else if i < j && IsWhite(s[j - 1]) {
      TrimmedPrefix(s, i, j - 1, e);
    } else {
      assert s[i..j] == s[..e][i..j];
    }
  }

  /** What becomes of one field. */
  function Added(entry: string): seq<string> { if entry == "" then [] else [entry] }

  lemma KeptStep(s: string, i: nat, trim: bool)
    requires i <= |s|
    ensures Kept(FieldsAt(s, i), trim)
      == Added(Cleaned(s[i..CommaAt(s, i)], trim)) + if CommaAt(s, i) == |s| then []
        else Kept(FieldsAt(s, CommaAt(s, i) + 1), trim)
  {
    hide Cleaned, None, CommaAt, Trimmed, IsWhite;
    var c := CommaAt(s, i);
    assert [s[i..c]][1..] == [];
    if c < |s| {
      assert FieldsAt(s, i)[1..] == FieldsAt(s, c + 1);
    } else {
      assert s[i..] == s[i..c];
    }
  }

  /** One entry: the field at current, trimmed if that is wanted. */
  method FindEntry(text: string, current: nat, trim: bool) returns (next: nat, start: nat, end: nat)
    requires current <= |text|
    ensures next == CommaAt(text, current) && current <= start <= end <= next
    ensures text[start..end] == Cleaned(text[current..next], trim)
    ensures None(text, NUL, 0, |text|) ==> None(text[start..end], NUL, 0, end - start)
  {
    next := CommaAt(text, current);
    start, end := current, next;
    if trim {
      start, end := TrimEntry(text, current, next);
      TrimmedSlice(text, current, next, current);
    }
  }

  /** All the memory that could be asked for is there. */
  ghost predicate Plenty(memory: nat -> bool) { forall n: nat :: memory(n) }

  lemma {:induction false} SizeAppend(list: seq<string>, more: seq<string>)
    ensures Size(list + more) == Size(list) + Size(more)
  {
    if list == [] {
      assert list + more == more;
    } else {
      SizeAppend(list[1..], more);
      assert (list + more)[1..] == list[1..] + more;
    }
  }

  /** An entry goes into the list; an empty one only seems to. */
  method AppendEntry(entry: string, removeEmpty: bool, list: MultiSz, memory: nat -> bool) returns (ok: bool)
    requires None(entry, NUL, 0, |entry|) && list.Valid()
    modifies list, list.buffer
    ensures list.Valid() && (list.buffer == old(list.buffer) || fresh(list.buffer))
    ensures 2 * |entry| <= MAXULONG ==> list.List() == old(list.List()) + if ok then Added(entry) else []
    ensures 2 * |entry| <= MAXULONG && !ok ==> entry != "" || !removeEmpty
    ensures Plenty(memory) && 2 * (Size(old(list.List())) + |entry| + 2) + STR_SLOP <= MAXULONG ==> ok
  {
    if entry == "" && removeEmpty {
      return true;
    }
    if 2 * |entry| <= MAXULONG { AllTaken(entry); }
    list.Represents();
    list.StartsAtEnd();
    BlockLength(list.List());
    ok := list.Append(entry, memory);
  }

  lemma SizeOne(entry: string)
    ensures Size(Added(entry)) <= |entry| + 1
  {
  }

  /** The entries before position i are in the list. */
  ghost predicate SplitUpTo(text: string, i: nat, trim: bool, list: seq<string>)
    requires i <= |text|
  {
    Kept(FieldsAt(text, 0), trim) == list + Kept(FieldsAt(text, i), trim) && Size(list) <= i
  }

  lemma SplitStep(text: string, i: nat, trim: bool, list: seq<string>, entry: string)
    requires i <= |text| && SplitUpTo(text, i, trim, list)
    requires entry == Cleaned(text[i..CommaAt(text, i)], trim) && |entry| <= CommaAt(text, i) - i
    ensures list <= Kept(FieldsAt(text, 0), trim) && Size(list) + |entry| <= |text|
    ensures CommaAt(text, i) == |text| ==> list + Added(entry) == Kept(FieldsAt(text, 0), trim)
    ensures CommaAt(text, i) < |text| ==> SplitUpTo(text, CommaAt(text, i) + 1, trim, list + Added(entry))
  {
    hide FieldsAt, Kept, Cleaned, Size, Added;
    KeptStep(text, i, trim);
    SizeAppend(list, Added(entry));
    SizeOne(entry);
    var rest := if CommaAt(text, i) == |text| then [] else Kept(FieldsAt(text, CommaAt(text, i) + 1), trim);
    assert list + (Added(entry) + rest) == (list + Added(entry)) + rest;
  }

  /** SplitCommaDelimitedString.  The list gets the entries that are not empty, whether or not they are to be
      removed, because appending an empty string changes nothing. */
  method SplitCommaDelimitedString(
      text: string, trim: bool, removeEmpty: bool, list: MultiSz, memory: nat -> bool) returns (ok: bool)
    requires None(text, NUL, 0, |text|) && list.Valid()
    modifies list, list.buffer
    ensures list.Valid() && (2 * |text| <= MAXULONG && ok ==> list.List() == Kept(FieldsAt(text, 0), trim))
    ensures 2 * |text| <= MAXULONG && !ok ==> list.List() <= Kept(FieldsAt(text, 0), trim)
    ensures Plenty(memory) && 2 * |text| + 4 + STR_SLOP <= MAXULONG ==> ok
  {
    hide FieldsAt, Kept, Cleaned, Size, Added, None, SplitUpTo, CommaAt, Plenty, MultiSz.Valid, MultiSz.List;
    list.Sizes();
    list.Reset();
    SplitStart(text, trim);
    var current := 0;
    while true
      invariant current <= |text| && list.Valid() && (list.buffer == old(list.buffer) || fresh(list.buffer))
      invariant 2 * |text| <= MAXULONG ==> SplitUpTo(text, current, trim, list.List())
      decreases |text| - current
    {
      var next, start, end := FindEntry(text, current, trim);
      ghost var was := list.List();
      if 2 * |text| <= MAXULONG { SplitStep(text, current, trim, was, text[start..end]); }
      ok := AppendEntry(text[start..end], removeEmpty, list, memory);
      if !ok {
        return;
      }
      if next == |text| {
        return true;
      }
      current := next + 1;
    }
  }

  lemma SplitStart(text: string, trim: bool)
    ensures SplitUpTo(text, 0, trim, [])
  {
  }
}

/**
 RESPONSE_HEADER_HASH: the hash table that maps response header names to their indices.

 Names are strings of 8-bit characters without NUL; _stricmp is that of the "C" locale, which folds only the
 ASCII letters.
 */
module ResponseHeaderHash {
  import opened Bytes
  import opened HashKeys
  import opened HashTables
  import opened Words

  const UNKNOWN_INDEX: dword := 0xFFFF_FFFF

  datatype HeaderRecord = HeaderRecord(name: string, index: dword)

  function ExtractKey(record: HeaderRecord): string { record.name }

  // ----- Keys -----

  /** The lower case of an ASCII letter. */
  function Fold(c: char): char {
    if 'A' <= c <= 'Z' then (c as int + 32) as char else c
  }

  /** The 26 ASCII letters are folded, and nothing else. */
  lemma FoldsLetters(i: nat, c: char)
    ensures |UPPER| == |LOWER| == 26
    ensures i < 26 ==> Fold(UPPER[i]) == LOWER[i]
    ensures c !in UPPER ==> Fold(c) == c
  {
    hide UPPER, LOWER;
    Uppers(c);
    Lowers(c);
  }

  /** _stricmp(key1, key2) == 0 */
  predicate EqualKeys(key1: string, key2: string) {
    |key1| == |key2| && forall i | 0 <= i < |key1| :: Fold(key1[i]) == Fold(key2[i])
  }

  const HASH_MULTIPLIER: nat := 101

  /** c & 0xDF: the bit of value 32 is cleared. */
  function Masked(c: char): nat {
    if c as int / 32 % 2 == 1 then c as int - 32 else c as int
  }

  /** One step of the hash. */
  function Hashed(hash: dword, c: char): dword {
    (hash * HASH_MULTIPLIER + Masked(c)) % 0x1_0000_0000
  }

  /** CalcKeyHash. */
  function CalcKeyHash(key: string): dword {
    if key == "" then 0 else Hashed(CalcKeyHash(key[..|key| - 1]), key[|key| - 1])
  }

  method HashStringNoCase(psz: string) returns (hash: dword)
    ensures hash == CalcKeyHash(psz)
  {
    hash := 0;
    for i := 0 to |psz|
      invariant hash == CalcKeyHash(psz[..i])
    {
      hash := Hashed(hash, psz[i]);
      assert psz[..i + 1][..i] == psz[..i];
    }
    assert psz[..|psz|] == psz;
  }

  /** Masking forgets the case of letters. */
  lemma FoldMasked(a: char, b: char, hash: dword)
    requires Fold(a) == Fold(b)
    ensures Masked(a) == Masked(b) && Hashed(hash, a) == Hashed(hash, b)
  {
  }

  /** Names that differ only in case hash alike. */
  lemma {:induction false} HashIgnoresCase(a: string, b: string)
    requires EqualKeys(a, b)
    ensures CalcKeyHash(a) == CalcKeyHash(b)
    decreases |a|
  {
    if a != "" {
      hide Hashed, Fold;
      var n := |a| - 1;
      HashIgnoresCase(a[..n], b[..n]);
      FoldMasked(a[n], b[n], CalcKeyHash(a[..n]));
    }
  }

  const OPS: KeyOps<string> := KeyOps(EqualKeys, CalcKeyHash)

  /** The key operations are what HASH_TABLE relies on. */
  lemma OpsAreLawful()
    ensures Lawful(OPS)
  {
    forall a, b | OPS.equal(a, b) ensures OPS.hash(a) == OPS.hash(b) {
      HashIgnoresCase(a, b);
    }
  }

  // ----- The header table -----

  predicate Distinct(records: seq<HeaderRecord>) {
    forall i, j | 0 <= i < j < |records| :: !EqualKeys(records[i].name, records[j].name)
  }

  function RecordSet(records: seq<HeaderRecord>): set<HeaderRecord> { set r | r in records }

  /** The reference: the index of the first record from i on that has the name in any case. */
  function LinearSearch(records: seq<HeaderRecord>, name: string, i: nat): dword
    decreases |records| - i
  {
    if i >= |records| then UNKNOWN_INDEX
    else if EqualKeys(name, records[i].name) then records[i].index
    else LinearSearch(records, name, i + 1)
  }

  lemma {:induction false} SearchFinds(records: seq<HeaderRecord>, name: string, i: nat, k: nat)
    requires Distinct(records) && i <= k < |records| && EqualKeys(name, records[k].name)
    ensures LinearSearch(records, name, i) == records[k].index
    decreases k - i
  {
    if i < k {
      assert !EqualKeys(records[i].name, records[k].name);
      SearchFinds(records, name, i + 1, k);
    }
  }

  lemma {:induction false} SearchMisses(records: seq<HeaderRecord>, name: string, i: nat)
    requires forall k | 0 <= k < |records| :: !EqualKeys(name, records[k].name)
    ensures LinearSearch(records, name, i) == UNKNOWN_INDEX
    decreases |records| - i
  {
    if i < |records| { SearchMisses(records, name, i + 1); }
  }

  /** sm_rgHeaders.  The indices are those of HTTP_HEADER_ID in the Windows SDK's http.h. */
  const HEADERS: seq<HeaderRecord> := [
    HeaderRecord("Cache-Control", 0), HeaderRecord("Connection", 1), HeaderRecord("Date", 2),
    HeaderRecord("Keep-Alive", 3), HeaderRecord("Pragma", 4), HeaderRecord("Trailer", 5),
    HeaderRecord("Transfer-Encoding", 6), HeaderRecord("Upgrade", 7), HeaderRecord("Via", 8),
    HeaderRecord("Warning", 9), HeaderRecord("Allow", 10), HeaderRecord("Content-Length", 11),
    HeaderRecord("Content-Type", 12), HeaderRecord("Content-Encoding", 13), HeaderRecord("Content-Language", 14),
    HeaderRecord("Content-Location", 15), HeaderRecord("Content-MD5", 16), HeaderRecord("Content-Range", 17),
    HeaderRecord("Expires", 18), HeaderRecord("Last-Modified", 19), HeaderRecord("Accept-Ranges", 20),
    HeaderRecord("Age", 21), HeaderRecord("ETag", 22), HeaderRecord("Location", 23),
    HeaderRecord("Proxy-Authenticate", 24), HeaderRecord("Retry-After", 25), HeaderRecord("Server", 26),
    HeaderRecord("w:w\r\n", 26), HeaderRecord("y:y\r\n", 27), HeaderRecord("Vary", 28), HeaderRecord("z:z\r\n", 29)]

  const HTTP_HEADER_RESPONSE_MAXIMUM: nat := 30

  /** The fifth character from the end; the first one of a short name. */
  function Mark(name: string): char
    requires name != ""
  {
    Fold(name[if |name| < 5 then 0 else |name| - 5])
  }

  /** A name's length and mark tell its place in the table. */
  function PlaceOf(length: nat, mark: char): nat {
    match length
    case 3 => if mark == 'v' then 8 else 21
    case 4 => if mark == 'd' then 2 else if mark == 'e' then 22 else 29
    case 5 => if mark == 'a' then 10 else if mark == 'w' then 27 else if mark == 'y' then 28 else 30
    case 6 => if mark == 'r' then 4 else 26
    case 7 => if mark == 'a' then 5 else if mark == 'g' then 7 else if mark == 'r' then 9 else 18
    case 8 => 23
    case 10 => if mark == 'c' then 1 else 3
    case 11 => if mark == 't' then 16 else 25
    case 12 => 12
    case 13 => if mark == 'n' then 0 else if mark == 'r' then 17 else if mark == 'i' then 19 else 20
    case 14 => 11
    case 16 => if mark == 'o' then 13 else if mark == 'g' then 14 else 15
    case 17 => 6
    case 18 => 24
    case _ => 0
  }

  const MARKS: seq<(nat, char)> := [
    (13, 'n'), (10, 'c'), (4, 'd'), (10, 'a'), (6, 'r'), (7, 'a'), (17, 'o'), (7, 'g'),
    (3, 'v'), (7, 'r'), (5, 'a'), (14, 'e'), (12, '-'), (16, 'o'), (16, 'g'), (16, 'a'),
    (11, 't'), (13, 'r'), (7, 'p'), (13, 'i'), (13, 'a'), (3, 'a'), (4, 'e'), (8, 'a'),
    (18, 'i'), (11, 'a'), (6, 'e'), (5, 'w'), (5, 'y'), (4, 'v'), (5, 'z')]

  predicate MarkIs(record: HeaderRecord, length: nat, mark: char) {
    record.name != "" && |record.name| == length && Mark(record.name) == mark
  }

  lemma MarksFrom0()
    ensures MarkIs(HEADERS[0], 13, 'n') && MarkIs(HEADERS[1], 10, 'c') && MarkIs(HEADERS[2], 4, 'd')
    ensures MarkIs(HEADERS[3], 10, 'a') && MarkIs(HEADERS[4], 6, 'r') && MarkIs(HEADERS[5], 7, 'a')
    ensures MarkIs(HEADERS[6], 17, 'o') && MarkIs(HEADERS[7], 7, 'g')
  {
  }

  lemma MarksFrom8()
    ensures MarkIs(HEADERS[8], 3, 'v') && MarkIs(HEADERS[9], 7, 'r') && MarkIs(HEADERS[10], 5, 'a')
    ensures MarkIs(HEADERS[11], 14, 'e') && MarkIs(HEADERS[12], 12, '-') && MarkIs(HEADERS[13], 16, 'o')
    ensures MarkIs(HEADERS[14], 16, 'g') && MarkIs(HEADERS[15], 16, 'a')
  {
  }

  lemma MarksFrom16()
    ensures MarkIs(HEADERS[16], 11, 't') && MarkIs(HEADERS[17], 13, 'r') && MarkIs(HEADERS[18], 7, 'p')
    ensures MarkIs(HEADERS[19], 13, 'i') && MarkIs(HEADERS[20], 13, 'a') && MarkIs(HEADERS[21], 3, 'a')
    ensures MarkIs(HEADERS[22], 4, 'e') && MarkIs(HEADERS[23], 8, 'a')
  {
  }

  lemma MarksFrom24()
    ensures MarkIs(HEADERS[24], 18, 'i') && MarkIs(HEADERS[25], 11, 'a') && MarkIs(HEADERS[26], 6, 'e')
    ensures MarkIs(HEADERS[27], 5, 'w') && MarkIs(HEADERS[28], 5, 'y') && MarkIs(HEADERS[29], 4, 'v')
    ensures MarkIs(HEADERS[30], 5, 'z')
  {
  }

  lemma PlacesOfMarks(i: nat)
    requires i < |MARKS|
    ensures PlaceOf(MARKS[i].0, MARKS[i].1) == i
  {
  }

  lemma MarksAre(i: nat)
    requires i < |HEADERS|
    ensures i < |MARKS| && MarkIs(HEADERS[i], MARKS[i].0, MARKS[i].1)
  {
    hide MarkIs;
    MarksFrom0();
    MarksFrom8();
    MarksFrom16();
    MarksFrom24();
  }

  lemma DistinctByMarks(records: seq<HeaderRecord>, marks: seq<(nat, char)>)
    requires |records| <= |marks| && forall i | 0 <= i < |records| :: MarkIs(records[i], marks[i].0, marks[i].1)
    requires forall i | 0 <= i < |marks| :: PlaceOf(marks[i].0, marks[i].1) == i
    ensures Distinct(records)
  {
    hide PlaceOf;
    forall i, j | 0 <= i < j < |records| ensures !EqualKeys(records[i].name, records[j].name) {
      if EqualKeys(records[i].name, records[j].name) { SameMark(records[i].name, records[j].name); }
    }
  }

  lemma SameMark(a: string, b: string)
    requires EqualKeys(a, b) && a != ""
    ensures |a| == |b| && Mark(a) == Mark(b)
  {
  }

  /** No two names in the table differ only in case. */
  lemma HeadersAreDistinct()
    ensures Distinct(HEADERS) && |HEADERS| == 31
  {
    hide MarkIs, PlaceOf, Distinct;
    forall i | 0 <= i < |HEADERS| ensures MarkIs(HEADERS[i], MARKS[i].0, MARKS[i].1) { MarksAre(i); }
    forall i | 0 <= i < |MARKS| ensures PlaceOf(MARKS[i].0, MARKS[i].1) == i { PlacesOfMarks(i); }
    DistinctByMarks(HEADERS, MARKS);
  }

  /** A returned PCSTR. */
  datatype Name = NULL | Psz(name: string)

  /** GetString takes the place of a record in the table for its index. */
  function GetString(ulIndex: dword): Name {
    if ulIndex < HTTP_HEADER_RESPONSE_MAXIMUM then Psz(HEADERS[ulIndex].name) else NULL
  }

  /** GetString undoes GetIndex up to "Server" only: the extra entry after it shifts the rest, so that the name
      given for each of the last three indices is that of the index before. */
  lemma GetStringIff(ulIndex: dword)
    ensures GetString(ulIndex).NULL? <==> ulIndex >= HTTP_HEADER_RESPONSE_MAXIMUM
    ensures ulIndex < HTTP_HEADER_RESPONSE_MAXIMUM ==>
      var index := LinearSearch(HEADERS, GetString(ulIndex).name, 0);
      (index == ulIndex <==> ulIndex <= 26) && (ulIndex > 26 ==> index == ulIndex - 1)
  {
    if ulIndex < HTTP_HEADER_RESPONSE_MAXIMUM {
      HeadersAreDistinct();
      SearchFinds(HEADERS, HEADERS[ulIndex].name, 0, ulIndex);
      PlacesAndIndices(ulIndex);
    }
  }

  lemma PlacesAndIndices(i: nat)
    requires i < HTTP_HEADER_RESPONSE_MAXIMUM
    ensures HEADERS[i].index == if i <= 26 then i else i - 1
  {
  }

  /** The index of "Vary", for one. */
  lemma VaryIsNotItsString()
    ensures LinearSearch(HEADERS, "vary", 0) == 28 && GetString(28) == Psz("y:y\r\n")
  {
    HeadersAreDistinct();
    hide Distinct;
    assert HEADERS[29] == HeaderRecord("Vary", 28);
    SearchFinds(HEADERS, "vary", 0, 29);
  }

  // ----- The object -----

  /** The first n + 1 allocations succeed. */
  predicate Lasts(memory: nat -> bool, n: nat) {
    memory(n) && (n > 0 ==> Lasts(memory, n - 1))
  }

  lemma {:induction false} LastsAll(memory: nat -> bool, n: nat, k: nat)
    requires k <= n && Lasts(memory, n)
    ensures memory(k)
  {
    if k < n { LastsAll(memory, n - 1, k); }
  }

  lemma NoneDistinct(records: seq<HeaderRecord>)
    ensures Distinct(records[..0]) && RecordSet(records[..0]) == {}
  {
  }

  class ResponseHeaderHash {
    const table: HashTable<HeaderRecord, string>

    constructor ()
      ensures fresh(table) && fresh(table.buckets) && !table.IsInitialized()
      ensures table.ops == OPS && table.keyOf == ExtractKey
    {
      table := new HashTable(OPS, ExtractKey);
    }

    /** The records, and only they, are in the table. */
    ghost predicate Holds(records: seq<HeaderRecord>)
      reads table, table.buckets, table.shape.succ.Keys`next
    {
      && table.Valid() && table.ops == OPS && table.keyOf == ExtractKey
      && table.Records() == RecordSet(records) && Distinct(records)
    }

    /** Initialize: succeeds exactly if memory lasts and no name occurs twice. */
    method Initialize(records: seq<HeaderRecord>, memory: nat -> bool) returns (ok: bool)
      requires !table.IsInitialized() && table.ops == OPS && table.keyOf == ExtractKey
      modifies table
      ensures ok <==> Lasts(memory, |records|) && Distinct(records)
      ensures ok ==> Holds(records)
    {
      hide Distinct, Has;
      OpsAreLawful();
      NoneDistinct(records);
      var status := table.Initialize(79, memory(0));
      if !status.Ok? {
        if Lasts(memory, |records|) { LastsAll(memory, |records|, 0); }
        return false;
      }
      for i := 0 to |records|
        invariant Holds(records[..i]) && fresh(table.buckets) && fresh(table.shape.succ.Keys)
        invariant Lasts(memory, i)
      {
        status := table.InsertRecord(records[i], memory(i + 1), true);
        OneMore(records, i);
        if !status.Ok? {
          if Lasts(memory, |records|) { LastsAll(memory, |records|, i + 1); }
          return false;
        }
      }
      assert records[..|records|] == records;
      return true;
    }

    /** GetIndex is a linear search of the header table that ignores case. */
    method GetIndex(name: string, ghost records: seq<HeaderRecord>) returns (index: dword)
      requires Holds(records)
      modifies table`refs, table`handedOut
      ensures index == LinearSearch(records, name, 0) && Holds(records)
    {
      var result := table.FindKey(name);
      match result
      case Present(record) =>
        ghost var k :| 0 <= k < |records| && records[k] == record;
        SearchFinds(records, name, 0, k);
        return record.index;
      case Missing =>
        forall k | 0 <= k < |records| ensures !EqualKeys(name, records[k].name) {
          assert records[k] in table.Records() && !OPS.equal(name, ExtractKey(records[k]));
        }
        SearchMisses(records, name, 0);
        return UNKNOWN_INDEX;
    }
  }

  /** One more name is distinct from those before if the table does not have it. */
  lemma OneMore(records: seq<HeaderRecord>, i: nat)
    requires i < |records|
    ensures RecordSet(records[..i + 1]) == RecordSet(records[..i]) + {records[i]}
    ensures Distinct(records[..i + 1]) <==>
      Distinct(records[..i]) && !Has(OPS, ExtractKey, RecordSet(records[..i]), records[i].name)
    ensures Distinct(records) ==> Distinct(records[..i + 1])
  {
    var was, now := records[..i], records[..i + 1];
    assert now == was + [records[i]];
    if Has(OPS, ExtractKey, RecordSet(was), records[i].name) {
      var r :| r in RecordSet(was) && EqualKeys(records[i].name, r.name);
      var k :| 0 <= k < i && was[k] == r;
      assert EqualKeys(now[k].name, now[i].name);
    } else {
      forall k | 0 <= k < i ensures !EqualKeys(now[k].name, now[i].name) {
        assert was[k] in RecordSet(was) && !OPS.equal(records[i].name, ExtractKey(was[k]));
      }
    }
  }
}

/** The paths of TREE_HASH_TABLE: where they can be cut, and what lies under a path. */
module TreePaths {

  predicate IsSeparator(c: char) { c == '/' || c == '\\' }

  /** A path can be cut at a separator, but not at its first character. */
  predicate IsCut(p: string, c: nat) {
    1 <= c < |p| && IsSeparator(p[c])
  }

  /** The last place before e where p can be cut; 0 if there is none. */
  function LastCutBefore(p: string, e: nat): (c: nat)
    requires e <= |p|
    ensures c == 0 || (IsCut(p, c) && c < e)
    ensures forall d: nat | IsCut(p, d) && d < e :: d <= c
  {
    if e <= 1 then 0 else if IsSeparator(p[e - 1]) then e - 1 else LastCutBefore(p, e - 1)
  }

  /** The length of the longest proper ancestor of p; 0 for a root. */
  function LastCut(p: string): nat {
    LastCutBefore(p, |p|)
  }

  /** p is a itself or lies below it. */
  predicate Under(a: string, p: string) {
    p == a || (IsCut(p, |a|) && p[..|a|] == a)
  }

  lemma UnderTransitive(a: string, b: string, p: string)
    requires Under(a, b) && Under(b, p)
    ensures Under(a, p)
  {
    if b != a && p != b {
      assert p[..|a|] == b[..|a|];
      assert p[|a|] == b[|a|];
    }
  }

  /** Below a, a path's longest ancestor is a or still below a. */
  lemma ParentUnder(a: string, p: string)
    requires Under(a, p) && p != a
    ensures LastCut(p) > 0 && Under(a, p[..LastCut(p)])
  {
    var c := LastCut(p);
    assert c >= |a|;
    if c > |a| {
      assert p[..c][..|a|] == p[..|a|];
      assert p[..c][|a|] == p[|a|];
    }
  }

  lemma UnderParent(p: string)
    requires LastCut(p) > 0
    ensures Under(p[..LastCut(p)], p) && p[..LastCut(p)] != p
  {
  }

  /** Two children of one path do not lie under each other. */
  lemma SiblingsApart(p: string, q: string)
    requires LastCut(p) > 0 && LastCut(q) == LastCut(p) && p != q && |p| > 0
    ensures !Under(p, q)
  {
    assert LastCut(p) < |p|;
  }

  /** The first place from i on where p can be cut, or its end. */
  function NextCut(p: string, i: nat): (c: nat)
    requires i <= |p|
    ensures i <= c <= |p| && (c == |p| || IsCut(p, c)) && forall d: nat | IsCut(p, d) && i <= d :: c <= d
    decreases |p| - i
  {
    if i == |p| || IsCut(p, i) then i else NextCut(p, i + 1)
  }

  // ----- The key buffer that is cut in place -----

  /** The string a zero-terminated buffer holds. */
  function CString(s: string): string {
    if s == [] || s[0] == '\0' then [] else [s[0]] + CString(s[1..])
  }

  lemma {:induction false} CStringUpTo(s: string, k: nat)
    requires k < |s| && s[k] == '\0' && forall i | 0 <= i < k :: s[i] != '\0'
    ensures CString(s) == s[..k]
  {
    if k > 0 {
      CStringUpTo(s[1..], k - 1);
      assert s[..k] == [s[0]] + s[1..][..k - 1];
    }
  }

  /** The buffer holds the key, cut at every place from e on. */
  ghost predicate CutFrom(buffer: string, key: string, e: nat) {
    && |buffer| == |key| + 1 && buffer[|key|] == '\0'
    && forall i | 0 <= i < |key| :: buffer[i] == if i >= e && IsCut(key, i) then '\0' else key[i]
  }

  /** What the buffer reads as while it is cut at c and whole before it. */
  lemma CutReads(buffer: string, key: string, c: nat)
    requires '\0' !in key && CutFrom(buffer, key, c) && (IsCut(key, c) || c == |key|)
    ensures CString(buffer) == key[..c]
  {
    CStringUpTo(buffer, c);
    assert buffer[..c] == key[..c];
  }

  /** The paths of the cuts of a key from lo on and before hi. */
  ghost function Ancestors(key: string, lo: nat, hi: nat): set<string>
    requires hi <= |key|
  {
    if hi <= lo then {}
    else Ancestors(key, lo, hi - 1) + if IsCut(key, hi - 1) then {key[..hi - 1]} else {}
  }

  /** Paths are cut at both kinds of slash, but not in front of a path that starts with one. */
  lemma BothSlashesCut()
    ensures Ancestors("/a/b\\c", 0, 6) == {"/a", "/a/b"}
  {
    var key := "/a/b\\c";
    assert IsCut(key, 2) && IsCut(key, 4) && !IsCut(key, 0) && !IsCut(key, 1) && !IsCut(key, 3) && !IsCut(key, 5);
    forall p ensures p in Ancestors(key, 0, 6) <==> p in {"/a", "/a/b"} {
      AncestorsAre(key, 0, 6, p);
      assert key[..2] == "/a" && key[..4] == "/a/b";
    }
  }

  lemma {:induction false} AncestorsAre(key: string, lo: nat, hi: nat, p: string)
    requires hi <= |key|
    ensures p in Ancestors(key, lo, hi) <==> lo <= |p| < hi && IsCut(key, |p|) && p == key[..|p|]
  {
    if hi > lo {
      AncestorsAre(key, lo, hi - 1, p);
    }
  }

  lemma {:induction false} AncestorsWithin(key: string, lo: nat, hi: nat, lo': nat, hi': nat)
    requires lo' <= lo && hi <= hi' <= |key|
    ensures Ancestors(key, lo, hi) <= Ancestors(key, lo', hi')
  {
    forall p | p in Ancestors(key, lo, hi) ensures p in Ancestors(key, lo', hi') {
      AncestorsAre(key, lo, hi, p);
      AncestorsAre(key, lo', hi', p);
    }
  }

  /** There is no memory for the node of some cut of the key from lo on and before hi. */
  ghost predicate Lacking(key: string, lo: nat, hi: nat, alloc: nat -> bool) {
    exists c: nat {:trigger IsCut(key, c)} :: lo <= c < hi && IsCut(key, c) && !alloc(c)
  }

  lemma LackingNext(key: string, lo: nat, hi: nat, alloc: nat -> bool)
    requires lo <= hi
    ensures Lacking(key, lo, hi + 1, alloc) <==> Lacking(key, lo, hi, alloc) || (IsCut(key, hi) && !alloc(hi))
    ensures !Lacking(key, lo, lo, alloc)
    ensures Lacking(key, lo, hi, alloc) && hi <= |key| ==> Lacking(key, lo, |key|, alloc)
  {
    if Lacking(key, lo, hi + 1, alloc) {
      var c: nat :| lo <= c < hi + 1 && IsCut(key, c) && !alloc(c);
    }
  }

  /** The longest ancestor of a prefix of the key. */
  lemma {:induction false} LastCutOfPrefix(key: string, c: nat, e: nat)
    requires e <= c <= |key|
    ensures LastCutBefore(key[..c], e) == LastCutBefore(key, e)
  {
    if e > 1 && !IsSeparator(key[e - 1]) {
      LastCutOfPrefix(key, c, e - 1);
    }
  }
}

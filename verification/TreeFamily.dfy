/**
 The parent and child links of TREE_HASH_TABLE, as a value: for every node its parent, its first child,
 its next sibling and its record, and the child lists these links form.

 While a subtree is being deleted, the children of a removed node are orphans: they still point at each
 other, but belong to nobody's child list.
 */
module TreeFamily {
  import opened HashTables
  import opened TreePaths
  import opened Opening

  /** A node: what it carries is its path. */
  type TreeNode = Node<string>

  /** A pointer to a node, or null. */
  type Link = Node?<string>

  /** The record pointer of a node. */
  datatype Held<R> = Empty | Held(r: R)

  datatype Cell<R> = Cell(parent: Link, first: Link, sibling: Link, held: Held<R>)

  datatype Family<R> = Family(cells: map<TreeNode, Cell<R>>, kids: map<TreeNode, seq<TreeNode>>)

  /** Child j of node n is linked to n and to the next child. */
  ghost predicate KidOk<R>(f: Family<R>, orphans: set<TreeNode>, n: TreeNode, j: nat)
    requires n in f.kids && j < |f.kids[n]|
  {
    var k := f.kids[n][j];
    && k in f.cells && k !in orphans
    && f.cells[k].parent == n && f.cells[k].sibling == LinkAt(f.kids[n], j + 1)
    && LastCut(k.record) == |n.record| && k.record[..|n.record|] == n.record
  }

  ghost predicate Distinct<T>(c: seq<T>) {
    forall a, b | 0 <= a < b < |c| :: c[a] != c[b]
  }

  ghost predicate KidsOk<R>(f: Family<R>, orphans: set<TreeNode>, n: TreeNode)
    requires n in f.cells && n in f.kids
  {
    && f.cells[n].first == LinkAt(f.kids[n], 0)
    && Distinct(f.kids[n])
    && (forall j {:trigger KidOk(f, orphans, n, j)} | 0 <= j < |f.kids[n]| :: KidOk(f, orphans, n, j))
  }

  /** A node hangs under its longest ancestor, and a root under nothing. */
  ghost predicate ParentOk<R>(f: Family<R>, n: TreeNode)
    requires n in f.cells
  {
    var q := f.cells[n].parent;
    if LastCut(n.record) == 0 then q == null
    else q != null && q in f.cells && q.record == n.record[..LastCut(n.record)] && q in f.kids && n in f.kids[q]
  }

  ghost predicate NodeOk<R>(keyOf: R -> string, f: Family<R>, orphans: set<TreeNode>, n: TreeNode)
    requires n in f.cells && n in f.kids
  {
    && |n.record| > 0
    && KidsOk(f, orphans, n)
    && (n !in orphans ==> ParentOk(f, n))
    && (f.cells[n].held.Held? ==> keyOf(f.cells[n].held.r) == n.record)
  }

  predicate Clash(m: TreeNode, n: TreeNode) {
    m != n && m.record == n.record
  }

  ghost predicate UniquePaths(nodes: set<TreeNode>) {
    forall m, n {:trigger Clash(m, n)} | m in nodes && n in nodes :: !Clash(m, n)
  }

  ghost predicate FamilyOk<R>(keyOf: R -> string, f: Family<R>, orphans: set<TreeNode>) {
    && f.kids.Keys == f.cells.Keys
    && UniquePaths(f.cells.Keys)
    && (forall n {:trigger NodeOk(keyOf, f, orphans, n)} | n in f.cells :: NodeOk(keyOf, f, orphans, n))
  }

  ghost predicate HasPath(nodes: set<TreeNode>, p: string) {
    exists n :: n in nodes && n.record == p
  }

  /** Wherever a node's path can be cut there is a node for the front part. */
  lemma {:induction false} PrefixClosed<R>(keyOf: R -> string, f: Family<R>, n: TreeNode, c: nat)
    requires FamilyOk(keyOf, f, {}) && n in f.cells && IsCut(n.record, c)
    ensures HasPath(f.cells.Keys, n.record[..c])
    decreases |n.record|
  {
    assert NodeOk(keyOf, f, {}, n);
    var q := f.cells[n].parent;
    if c < LastCut(n.record) {
      assert IsCut(q.record, c) && q.record[..c] == n.record[..c];
      PrefixClosed(keyOf, f, q, c);
    }
  }

  /** A node below n, other than n, is below one of n's children. */
  lemma {:induction false} UnderSomeKid<R>(
      keyOf: R -> string, f: Family<R>, orphans: set<TreeNode>, n: TreeNode, m: TreeNode) returns (j: nat)
    requires FamilyOk(keyOf, f, orphans) && n in f.cells && m in f.cells
    requires m != n && Under(n.record, m.record)
    requires forall o | o in orphans && o != n :: !Under(n.record, o.record)
    ensures j < |f.kids[n]| && Under(f.kids[n][j].record, m.record)
    decreases |m.record|
  {
    assert NodeOk(keyOf, f, orphans, m) && NodeOk(keyOf, f, orphans, n) && !Clash(m, n);
    ParentUnder(n.record, m.record);
    UnderParent(m.record);
    var q := f.cells[m].parent;
    if q == n {
      j :| 0 <= j < |f.kids[n]| && f.kids[n][j] == m;
    } else {
      j := UnderSomeKid(keyOf, f, orphans, n, q);
      UnderTransitive(f.kids[n][j].record, q.record, m.record);
    }
  }

  // ----- Adding a node -----

  /** node becomes the first child of q, or a root if q is null. */
  function WithChild<R>(f: Family<R>, node: TreeNode, q: Link, record: Held<R>): Family<R>
    requires q != null ==> q in f.cells && q in f.kids
  {
    if q == null then Family(f.cells[node := Cell(null, null, null, record)], f.kids[node := []])
    else Family(f.cells[node := Cell(q, null, f.cells[q].first, record)][q := f.cells[q].(first := node)],
                f.kids[q := [node] + f.kids[q]][node := []])
  }

  /** The setting of an addition: a new path, under its longest ancestor. */
  ghost predicate Addable<R>(keyOf: R -> string, f: Family<R>, node: TreeNode, q: Link, record: Held<R>) {
    && node !in f.cells && !HasPath(f.cells.Keys, node.record) && |node.record| > 0
    && (if LastCut(node.record) == 0 then q == null
      else q != null && q in f.cells && q.record == node.record[..LastCut(node.record)])
    && (record.Held? ==> keyOf(record.r) == node.record)
  }

  lemma AddedKids<R>(keyOf: R -> string, f: Family<R>, node: TreeNode, q: Link, record: Held<R>, m: TreeNode)
    requires FamilyOk(keyOf, f, {}) && Addable(keyOf, f, node, q, record) && m in f.cells
    ensures KidsOk(WithChild(f, node, q, record), {}, m)
  {
    var f' := WithChild(f, node, q, record);
    assert NodeOk(keyOf, f, {}, m);
    forall j | 0 <= j < |f'.kids[m]| ensures KidOk(f', {}, m, j) {
      if m == q {
        if j > 0 { assert KidOk(f, {}, m, j - 1); }
      } else {
        assert KidOk(f, {}, m, j);
      }
    }
    if m == q {
      forall b | 0 <= b < |f.kids[m]| ensures f.kids[m][b] != node { assert KidOk(f, {}, m, b); }
    }
  }

  lemma AddedOk<R>(keyOf: R -> string, f: Family<R>, node: TreeNode, q: Link, record: Held<R>)
    requires FamilyOk(keyOf, f, {}) && Addable(keyOf, f, node, q, record)
    ensures FamilyOk(keyOf, WithChild(f, node, q, record), {})
    ensures WithChild(f, node, q, record).cells.Keys == f.cells.Keys + {node}
  {
    var f' := WithChild(f, node, q, record);
    forall m | m in f'.cells ensures NodeOk(keyOf, f', {}, m) {
      if m == node {
        assert q != null ==> f'.kids[q][0] == node;
      } else {
        assert NodeOk(keyOf, f, {}, m);
        AddedKids(keyOf, f, node, q, record, m);
        AddedParent(f, node, q, record, m);
      }
    }
  }

  lemma AddedParent<R>(f: Family<R>, node: TreeNode, q: Link, record: Held<R>, m: TreeNode)
    requires (q != null ==> q in f.cells && q in f.kids) && node !in f.cells && f.kids.Keys == f.cells.Keys
    requires m in f.cells && ParentOk(f, m)
    ensures ParentOk(WithChild(f, node, q, record), m)
  {
    var f' := WithChild(f, node, q, record);
    var o := f.cells[m].parent;
    if o != null && o == q {
      var j :| 0 <= j < |f.kids[q]| && f.kids[q][j] == m;
      assert f'.kids[q][j + 1] == m;
    }
  }

  // ----- Changing a record -----

  function WithRecord<R>(f: Family<R>, n: TreeNode, record: Held<R>): Family<R>
    requires n in f.cells
  {
    f.(cells := f.cells[n := f.cells[n].(held := record)])
  }

  lemma RecordedOk<R>(keyOf: R -> string, f: Family<R>, orphans: set<TreeNode>, n: TreeNode, record: Held<R>)
    requires FamilyOk(keyOf, f, orphans) && n in f.cells && (record.Held? ==> keyOf(record.r) == n.record)
    ensures FamilyOk(keyOf, WithRecord(f, n, record), orphans)
  {
    var f' := WithRecord(f, n, record);
    forall m | m in f'.cells ensures NodeOk(keyOf, f', orphans, m) {
      assert NodeOk(keyOf, f, orphans, m);
      forall j | 0 <= j < |f'.kids[m]| ensures KidOk(f', orphans, m, j) {
        assert KidOk(f, orphans, m, j);
      }
    }
  }

  // ----- Removing a node: its children become orphans -----

  /** The family without n, which is child j of its parent, or an orphan or root (then j is irrelevant). */
  function Detached<R>(f: Family<R>, n: TreeNode, q: Link, j: nat): Family<R>
    requires q != null ==> q in f.cells && q in f.kids && j < |f.kids[q]| && (j > 0 ==> f.kids[q][j - 1] in f.cells)
  {
    if q == null then Family(f.cells - {n}, f.kids - {n})
    else
      var c := f.kids[q];
      var cells := if j == 0 then f.cells[q := f.cells[q].(first := LinkAt(c, 1))]
                   else f.cells[c[j - 1] := f.cells[c[j - 1]].(sibling := LinkAt(c, j + 1))];
      Family(cells - {n}, f.kids[q := c[..j] + c[j + 1..]] - {n})
  }

  function KidSet(c: seq<TreeNode>): set<TreeNode> {
    set k | k in c
  }

  /** n can be detached: it is a root or an orphan with no parent link, or child j of its parent q. */
  ghost predicate Detachable<R>(f: Family<R>, orphans: set<TreeNode>, n: TreeNode, q: Link, j: nat) {
    && n in f.cells && n in f.kids && f.cells[n].parent == q
    && (q != null ==>
      n !in orphans && q in f.cells && q in f.kids && j < |f.kids[q]| && f.kids[q][j] == n &&
      (j > 0 ==> f.kids[q][j - 1] in f.cells))
    && (q == null ==> n in orphans || LastCut(n.record) == 0)
  }

  /** A node that is nobody's child but its parent's is in no other child list. */
  lemma OneParent<R>(keyOf: R -> string, f: Family<R>, orphans: set<TreeNode>, m: TreeNode, x: nat)
    requires FamilyOk(keyOf, f, orphans) && m in f.cells && x < |f.kids[m]|
    ensures f.kids[m][x] in f.cells && f.cells[f.kids[m][x]].parent == m && f.kids[m][x] !in orphans
    ensures f.kids[m][x] != m
    ensures LastCut(f.kids[m][x].record) > 0
  {
    assert NodeOk(keyOf, f, orphans, m);
    assert KidOk(f, orphans, m, x);
  }

  lemma DetachedKid<R>(
      keyOf: R -> string, f: Family<R>, orphans: set<TreeNode>, n: TreeNode, q: Link, j: nat, m: TreeNode, x: nat)
    requires FamilyOk(keyOf, f, orphans) && Detachable(f, orphans, n, q, j) && m in f.cells && m != n
    requires x < |Detached(f, n, q, j).kids[m]|
    ensures KidOk(Detached(f, n, q, j), orphans - {n} + KidSet(f.kids[n]), m, x)
  {
    var f' := Detached(f, n, q, j);
    assert NodeOk(keyOf, f, orphans, m);
    var x0 := if m == q && x >= j then x + 1 else x;
    assert f'.kids[m][x] == f.kids[m][x0];
    assert KidOk(f, orphans, m, x0);
    var k := f.kids[m][x0];
    assert k != n by {
      if m == q {
        assert f.kids[m][x0] != f.kids[m][j];
      }
    }
    assert k !in KidSet(f.kids[n]) by {
      if k in f.kids[n] {
        var y :| 0 <= y < |f.kids[n]| && f.kids[n][y] == k;
        OneParent(keyOf, f, orphans, n, y);
      }
    }
    if q != null && j > 0 && k == f.kids[q][j - 1] {
      OneParent(keyOf, f, orphans, q, j - 1);
      assert m == q;
      assert x0 == j - 1;
    } else if q != null && j == 0 {
      assert k == q ==> f.cells[q].parent == m;
    }
  }

  lemma DetachedKids<R>(
      keyOf: R -> string, f: Family<R>, orphans: set<TreeNode>, n: TreeNode, q: Link, j: nat, m: TreeNode)
    requires FamilyOk(keyOf, f, orphans) && Detachable(f, orphans, n, q, j) && m in f.cells && m != n
    ensures KidsOk(Detached(f, n, q, j), orphans - {n} + KidSet(f.kids[n]), m)
  {
    var f' := Detached(f, n, q, j);
    assert NodeOk(keyOf, f, orphans, m);
    forall x | 0 <= x < |f'.kids[m]| ensures KidOk(f', orphans - {n} + KidSet(f.kids[n]), m, x) {
      DetachedKid(keyOf, f, orphans, n, q, j, m, x);
    }
    if m == q && j > 0 {
      OneParent(keyOf, f, orphans, q, j - 1);
    }
  }

  lemma DetachedParent<R>(
      keyOf: R -> string, f: Family<R>, orphans: set<TreeNode>, n: TreeNode, q: Link, j: nat, m: TreeNode)
    requires FamilyOk(keyOf, f, orphans) && Detachable(f, orphans, n, q, j) && m in f.cells && m != n && m !in orphans
    requires m !in KidSet(f.kids[n])
    ensures ParentOk(Detached(f, n, q, j), m)
  {
    var f' := Detached(f, n, q, j);
    assert NodeOk(keyOf, f, orphans, m);
    var o := f.cells[m].parent;
    if o != null {
      assert o != n;
      if o == q {
        var x :| 0 <= x < |f.kids[q]| && f.kids[q][x] == m;
        assert f'.kids[q][if x < j then x else x - 1] == m;
      }
    }
  }

  /** What detaching n leaves as it was. */
  ghost predicate DetachFrame<R>(f: Family<R>, f': Family<R>, orphans: set<TreeNode>, n: TreeNode)
    requires n in f.kids
  {
    && f'.cells.Keys == f.cells.Keys - {n}
    && (forall m | m in f'.cells :: f'.cells[m].held == f.cells[m].held && f'.cells[m].parent == f.cells[m].parent)
    && (forall m | m in f'.cells && (m in orphans || m in f.kids[n]) :: f'.cells[m].sibling == f.cells[m].sibling)
  }

  lemma DetachedFrame<R>(keyOf: R -> string, f: Family<R>, orphans: set<TreeNode>, n: TreeNode, q: Link, j: nat)
    requires FamilyOk(keyOf, f, orphans) && Detachable(f, orphans, n, q, j)
    ensures DetachFrame(f, Detached(f, n, q, j), orphans, n)
  {
    var f' := Detached(f, n, q, j);
    if q != null && j > 0 {
      OneParent(keyOf, f, orphans, q, j - 1);
      OneParent(keyOf, f, orphans, q, j);
      forall y | 0 <= y < |f.kids[n]| ensures f.kids[n][y] != f.kids[q][j - 1] {
        OneParent(keyOf, f, orphans, n, y);
      }
    }
  }

  lemma DetachedOk<R>(keyOf: R -> string, f: Family<R>, orphans: set<TreeNode>, n: TreeNode, q: Link, j: nat)
    requires FamilyOk(keyOf, f, orphans) && Detachable(f, orphans, n, q, j)
    ensures FamilyOk(keyOf, Detached(f, n, q, j), orphans - {n} + KidSet(f.kids[n]))
    ensures DetachFrame(f, Detached(f, n, q, j), orphans, n)
  {
    var f', orphans' := Detached(f, n, q, j), orphans - {n} + KidSet(f.kids[n]);
    DetachedFrame(keyOf, f, orphans, n, q, j);
    if q != null { OneParent(keyOf, f, orphans, q, j); }
    assert f'.kids.Keys == f'.cells.Keys;
    forall m | m in f'.cells ensures NodeOk(keyOf, f', orphans', m) {
      assert NodeOk(keyOf, f, orphans, m);
      DetachedKids(keyOf, f, orphans, n, q, j, m);
      if m !in orphans' {
        DetachedParent(keyOf, f, orphans, n, q, j, m);
      }
    }
  }

  // ----- Cutting an orphan's link to its removed parent -----

  function Unparented<R>(f: Family<R>, o: TreeNode): Family<R>
    requires o in f.cells
  {
    f.(cells := f.cells[o := f.cells[o].(parent := null)])
  }

  lemma UnparentedOk<R>(keyOf: R -> string, f: Family<R>, orphans: set<TreeNode>, o: TreeNode)
    requires FamilyOk(keyOf, f, orphans) && o in f.cells && o in orphans
    ensures FamilyOk(keyOf, Unparented(f, o), orphans)
  {
    var f' := Unparented(f, o);
    forall m | m in f'.cells ensures NodeOk(keyOf, f', orphans, m) {
      assert NodeOk(keyOf, f, orphans, m);
      forall j | 0 <= j < |f'.kids[m]| ensures KidOk(f', orphans, m, j) {
        assert KidOk(f, orphans, m, j);
      }
    }
  }

  // ----- Removing a subtree -----

  /** The path lies under one of the first k nodes of c. */
  ghost predicate UnderAny(c: seq<TreeNode>, k: nat, path: string) {
    k <= |c| && exists x :: 0 <= x < k && Under(c[x].record, path)
  }

  /** f' has only nodes of f, with the same records, and the orphans keep their siblings.  Closed. */
  ghost predicate Shrunk<R>(f: Family<R>, f': Family<R>, orphans: set<TreeNode>) {
    forall k: nat {:trigger Opened(k)} :: Opened(k) ==>
    forall m {:trigger m in f'.cells} | m in f'.cells ::
      m in f.cells && f'.cells[m].held == f.cells[m].held &&
        (m in orphans ==> f'.cells[m].sibling == f.cells[m].sibling)
  }

  /** Exactly the nodes under a path are gone.  Closed. */
  ghost predicate CutDown<R>(f: Family<R>, f': Family<R>, a: string) {
    forall k: nat {:trigger Opened(k)} :: Opened(k) ==> f'.cells.Keys == set m | m in f.cells && !Under(a, m.record)
  }

  /** Exactly the nodes under the first k of some siblings are gone.  Closed. */
  ghost predicate CutDownTo<R>(f: Family<R>, f': Family<R>, c: seq<TreeNode>, k: nat) {
    forall i: nat {:trigger Opened(i)} :: Opened(i) ==>
      f'.cells.Keys == set m | m in f.cells && !UnderAny(c, k, m.record)
  }

  lemma NothingCut<R>(f: Family<R>, c: seq<TreeNode>, orphans: set<TreeNode>)
    ensures CutDownTo(f, f, c, 0) && Shrunk(f, f, orphans)
  {
  }

  lemma CutDownOneMore<R>(f: Family<R>, f': Family<R>, f'': Family<R>, c: seq<TreeNode>, k: nat)
    requires k < |c| && CutDownTo(f, f', c, k) && CutDown(f', f'', c[k].record)
    ensures CutDownTo(f, f'', c, k + 1) && f''.cells.Keys <= f'.cells.Keys
  {
    assert Opened(0);
    forall m | m in f.cells ensures UnderAny(c, k + 1, m.record) <==>
      UnderAny(c, k, m.record) || Under(c[k].record, m.record) {
      if Under(c[k].record, m.record) { assert 0 <= k < k + 1; }
    }
  }

  /** Some nodes are the children of the path a, all different. */
  ghost predicate Siblings(c: seq<TreeNode>, a: string) {
    && Distinct(c) && |a| > 0
    && (forall x, y {:trigger Clash(c[x], c[y])} | 0 <= x < |c| && 0 <= y < |c| :: !Clash(c[x], c[y]))
    && forall x {:trigger c[x]} | 0 <= x < |c| :: LastCut(c[x].record) == |a| && c[x].record[..|a|] == a
  }

  lemma KidsAreSiblings<R>(keyOf: R -> string, f: Family<R>, orphans: set<TreeNode>, n: TreeNode)
    requires FamilyOk(keyOf, f, orphans) && n in f.cells
    ensures Siblings(f.kids[n], n.record) && f.cells[n].first == LinkAt(f.kids[n], 0)
    ensures forall x {:trigger f.kids[n][x]} | 0 <= x < |f.kids[n]| ::
      f.kids[n][x] in f.cells && f.kids[n][x] != n && f.kids[n][x] !in orphans &&
        f.cells[f.kids[n][x]].sibling == LinkAt(f.kids[n], x + 1)
  {
    assert NodeOk(keyOf, f, orphans, n);
    forall x | 0 <= x < |f.kids[n]| ensures KidOk(f, orphans, n, x) && f.kids[n][x] != n {
      assert KidOk(f, orphans, n, x);
    }
    forall x, y | 0 <= x < |f.kids[n]| && 0 <= y < |f.kids[n]| ensures !Clash(f.kids[n][x], f.kids[n][y]) {
      assert KidOk(f, orphans, n, x) && KidOk(f, orphans, n, y);
    }
  }

  /** No other orphan lies under the node.  Closed. */
  ghost predicate Alone(orphans: set<TreeNode>, node: TreeNode) {
    forall k: nat {:trigger Opened(k)} :: Opened(k) ==>
    forall o {:trigger o in orphans} | o in orphans && o != node :: !Under(node.record, o.record)
  }

  /** The orphans left when the first k children of a removed node have been removed too. */
  function OrphansLeft(orphans: set<TreeNode>, c: seq<TreeNode>, k: nat): set<TreeNode>
    requires k <= |c|
  {
    orphans + KidSet(c[k..])
  }

  lemma NoneLeft(orphans: set<TreeNode>, c: seq<TreeNode>)
    ensures OrphansLeft(orphans, c, |c|) == orphans
  {
  }

  lemma OrphansNext(orphans: set<TreeNode>, c: seq<TreeNode>, k: nat)
    requires k < |c| && Distinct(c) && c[k] !in orphans
    ensures OrphansLeft(orphans, c, k) - {c[k]} == OrphansLeft(orphans, c, k + 1)
  {
    assert c[k..] == [c[k]] + c[k + 1..];
    assert c[k] !in c[k + 1..];
  }

  /** Some orphans are the children that a removed node with path a had, and no other orphan lies under a.
      Closed. */
  ghost predicate Bereft<R>(f: Family<R>, orphans: set<TreeNode>, a: string, c: seq<TreeNode>) {
    forall k: nat {:trigger Opened(k)} :: Opened(k) ==>
      && Siblings(c, a) && (forall o | o in orphans :: !Under(a, o.record))
      && forall x {:trigger c[x]} | 0 <= x < |c| ::
        c[x] in f.cells && c[x] !in orphans && f.cells[c[x]].sibling == LinkAt(c, x + 1)
  }

  lemma DetachBereaves<R>(f: Family<R>, f': Family<R>, orphans: set<TreeNode>, n: TreeNode)
    requires n in f.kids && n in f.cells && Alone(orphans, n) && DetachFrame(f, f', orphans, n)
    requires Siblings(f.kids[n], n.record)
    requires forall x {:trigger f.kids[n][x]} | 0 <= x < |f.kids[n]| ::
      f.kids[n][x] in f.cells && f.kids[n][x] != n && f.kids[n][x] !in orphans &&
        f.cells[f.kids[n][x]].sibling == LinkAt(f.kids[n], x + 1)
    ensures Bereft(f', orphans - {n}, n.record, f.kids[n])
    ensures OrphansLeft(orphans - {n}, f.kids[n], 0) == orphans - {n} + KidSet(f.kids[n])
  {
    assert Opened(0);
    assert f.kids[n][0..] == f.kids[n];
    forall x | 0 <= x < |f.kids[n]| ensures f'.cells[f.kids[n][x]].sibling == f.cells[f.kids[n][x]].sibling {
      assert f.kids[n][x] in f.kids[n];
    }
  }

  /** The next child to go is still there, and no other orphan lies under it. */
  lemma NextChild<R>(orphans: set<TreeNode>, a: string, c: seq<TreeNode>, k: nat, f: Family<R>, f': Family<R>)
    requires Bereft(f, orphans, a, c) && k < |c|
    requires CutDownTo(f, f', c, k) && Shrunk(f, f', OrphansLeft(orphans, c, k))
    ensures c[k] in f'.cells && f'.cells[c[k]].sibling == LinkAt(c, k + 1) && f'.cells.Keys <= f.cells.Keys
    ensures Alone(OrphansLeft(orphans, c, k), c[k]) && c[k] in OrphansLeft(orphans, c, k)
    ensures OrphansLeft(orphans, c, k) - {c[k]} == OrphansLeft(orphans, c, k + 1)
  {
    assert Opened(0);
    OrphansNext(orphans, c, k);
    assert c[k] in c[k..];
    forall x | 0 <= x < |c| && x != k ensures !Under(c[x].record, c[k].record) && !Under(c[k].record, c[x].record) {
      assert c[x] != c[k] && !Clash(c[x], c[k]);
      SiblingsApart(c[x].record, c[k].record);
      SiblingsApart(c[k].record, c[x].record);
    }
    forall o | o in OrphansLeft(orphans, c, k) && o != c[k] ensures !Under(c[k].record, o.record) {
      if o in orphans {
        UnderParent(c[k].record);
        if Under(c[k].record, o.record) { UnderTransitive(a, c[k].record, o.record); }
      } else {
        var x :| 0 <= x < |c| && c[x] == o;
      }
    }
  }

  lemma UnderIffUnderKid<R>(keyOf: R -> string, f: Family<R>, orphans: set<TreeNode>, n: TreeNode, m: TreeNode)
    requires FamilyOk(keyOf, f, orphans) && n in f.cells && Alone(orphans, n) && m in f.cells && m != n
    ensures Under(n.record, m.record) <==> UnderAny(f.kids[n], |f.kids[n]|, m.record)
  {
    assert Opened(0);
    var c := f.kids[n];
    KidsAreSiblings(keyOf, f, orphans, n);
    if UnderAny(c, |c|, m.record) {
      var x :| 0 <= x < |c| && Under(c[x].record, m.record);
      UnderParent(c[x].record);
      UnderTransitive(n.record, c[x].record, m.record);
    }
    if Under(n.record, m.record) {
      var x := UnderSomeKid(keyOf, f, orphans, n, m);
    }
  }

  /** With all children of n and what is under them gone, nothing under n is left. */
  lemma AllKidsGone<R>(
      keyOf: R -> string, f: Family<R>, orphans: set<TreeNode>, n: TreeNode, f1: Family<R>, f2: Family<R>)
    requires FamilyOk(keyOf, f, orphans) && n in f.cells && Alone(orphans, n)
    requires f1.cells.Keys == f.cells.Keys - {n} && CutDownTo(f1, f2, f.kids[n], |f.kids[n]|)
    ensures CutDown(f, f2, n.record)
  {
    assert Opened(0);
    assert NodeOk(keyOf, f, orphans, n);
    forall m | m in f.cells && m != n ensures Under(n.record, m.record) <==>
      UnderAny(f.kids[n], |f.kids[n]|, m.record) {
      UnderIffUnderKid(keyOf, f, orphans, n, m);
    }
  }

  lemma ShrunkTwice<R>(f: Family<R>, f': Family<R>, f'': Family<R>, orphans: set<TreeNode>, fewer: set<TreeNode>)
    requires Shrunk(f, f', orphans) && Shrunk(f', f'', orphans) && fewer <= orphans
    ensures Shrunk(f, f'', fewer)
  {
    assert Opened(0);
    forall m | m in f''.cells
      ensures m in f.cells && f''.cells[m].held == f.cells[m].held &&
      (m in fewer ==> f''.cells[m].sibling == f.cells[m].sibling) {
      assert m in f'.cells;
    }
  }

  lemma ShrunkAfterDetach<R>(f: Family<R>, f': Family<R>, f'': Family<R>, orphans: set<TreeNode>, n: TreeNode)
    requires n in f.kids && DetachFrame(f, f', orphans, n) && Shrunk(f', f'', orphans - {n})
    ensures Shrunk(f, f'', orphans)
  {
    assert Opened(0);
    forall m | m in f''.cells
      ensures m in f.cells && f''.cells[m].held == f.cells[m].held &&
      (m in orphans ==> f''.cells[m].sibling == f.cells[m].sibling) {
      assert m in f'.cells;
    }
  }
}

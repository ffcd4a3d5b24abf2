/**
 Concurrent insertion into one TREE_HASH_TABLE: every step of every caller keeps the invariant.

 Most steps touch neither the tree nor the records.  The others publish a node in its bucket, store its sibling
 link, join it to its parent, give a node its record, or take the reference on one.
 */
module SharedTreeSteps {
  import opened HashKeys
  import HashTables
  import opened Opening
  import TreeForests
  import opened SharedCalls
  import opened SharedInsert
  import opened SharedProgress
  import opened SharedTree
  import opened TreeFamily
  import opened TreePaths
  import opened Words

  // ----- What a step leaves alone -----

  /** No step takes anything back: nodes, places in the table, parents and given records stay. */
  ghost predicate Grows<R>(s: TreeState<R>, s': TreeState<R>) {
    && Extends(s.b.nodes, s'.b.nodes) && s.b.table <= s'.b.table
    && (forall id | id in s.giver :: id in s'.giver && s'.giver[id] == s.giver[id])
    && (forall n | n in s.b.nodes :: Read(s'.parent, n) == Read(s.parent, n))
    && (forall n | n in s.b.nodes && n !in s.b.table ::
          Read(s'.first, n) == Read(s.first, n) && (n in s.held ==> n in s'.held && s'.held[n] == s.held[n]))
    && (forall n | n in s.b.nodes && n in s.held && s.held[n].Held? :: n in s'.held && s'.held[n] == s.held[n])
  }

  /** A step of caller t. */
  ghost predicate Turned<R>(s: TreeState<R>, s': TreeState<R>, t: nat) {
    && t in s.callers && t in s'.callers && s'.callers == s.callers[t := s'.callers[t]]
    && s'.callers[t].key == s.callers[t].key && s'.callers[t].record == s.callers[t].record
    && (forall k | k in s.b.threads ::
          k in s'.b.threads && (Uses(s.callers[t].pc, k) || s'.b.threads[k] == s.b.threads[k]))
    && Grows(s, s')
  }

  /** What another caller is doing stays as it is. */
  lemma OtherSame<R>(keyOf: R -> string, s: TreeState<R>, s': TreeState<R>, t: nat, u: nat, id: Id)
    requires Turned(s, s', t) && u in s.callers && u != t && CallerOk(keyOf, s, u) && CallsApart(s.callers)
    ensures u in s'.callers && s'.callers[u] == s.callers[u]
    ensures Joins(s'.b, s.callers[u], id) == Joins(s.b, s.callers[u], id)
    ensures Awaits(s'.b, s.callers[u], id) == Awaits(s.b, s.callers[u], id)
    ensures Wins(s'.b, s.callers[u], id) == Wins(s.b, s.callers[u], id)
  {
    var pc := s.callers[u].pc;
    if pc.Looking? || pc.Inserting? || pc.Joining? {
      assert Uses(pc, pc.call) && !Uses(s.callers[t].pc, pc.call);
    }
  }

  lemma BeingJoinedSame<R>(keyOf: R -> string, s: TreeState<R>, s': TreeState<R>, t: nat, id: Id)
    requires Turned(s, s', t) && CallersOk(keyOf, s)
    requires Joins(s'.b, s'.callers[t], id) == Joins(s.b, s.callers[t], id)
    ensures BeingJoined(s', id) == BeingJoined(s, id)
  {
    forall u | u in s.callers ensures Joins(s'.b, s'.callers[u], id) == Joins(s.b, s.callers[u], id) {
      if u != t { OtherSame(keyOf, s, s', t, u, id); }
    }
  }

  lemma AwaitedSame<R>(keyOf: R -> string, s: TreeState<R>, s': TreeState<R>, t: nat, id: Id)
    requires Turned(s, s', t) && CallersOk(keyOf, s)
    requires Awaits(s'.b, s'.callers[t], id) == Awaits(s.b, s.callers[t], id)
    ensures Awaited(s', id) == Awaited(s, id)
  {
    forall u | u in s.callers ensures Awaits(s'.b, s'.callers[u], id) == Awaits(s.b, s.callers[u], id) {
      if u != t { OtherSame(keyOf, s, s', t, u, id); }
    }
  }

  lemma ParentStays<R>(s: TreeState<R>, s': TreeState<R>, path: string, parent: Ptr)
    requires Grows(s, s') && ParentIs(s.b, path, parent)
    ensures ParentIs(s'.b, path, parent)
  {
  }

  ghost predicate KeepsSibling<R>(s: TreeState<R>, s': TreeState<R>, ca: Caller<R>) {
    forall k | Uses(ca.pc, k) && k in s.b.threads && s.b.threads[k].op.Insert? ::
      Read(s'.sibling, s.b.threads[k].op.node) == Read(s.sibling, s.b.threads[k].op.node)
  }

  /** Every call's node is known. */
  ghost predicate NodesKnown<K>(b: State<K>) {
    forall k | k in b.threads && b.threads[k].op.Insert? :: b.threads[k].op.node in b.nodes
  }

  lemma OwnsStays<R>(s: TreeState<R>, s': TreeState<R>, t: nat, ca: Caller<R>, end: nat, parent: Ptr, k: nat)
    requires Turned(s, s', t) && NodesKnown(s.b) && Owns(s, ca, end, parent, k) && !Uses(s.callers[t].pc, k)
    ensures Owns(s', ca, end, parent, k) && s'.b.threads[k] == s.b.threads[k]
  {
    hide LastCut, IsCut;
    ParentStays(s, s', ca.key[..end], parent);
  }

  lemma OtherCaller<R>(keyOf: R -> string, s: TreeState<R>, s': TreeState<R>, t: nat, u: nat)
    requires Turned(s, s', t) && u in s.callers && u != t && CallerOk(keyOf, s, u) && CallsApart(s.callers)
    requires NodesKnown(s.b) && KeepsSibling(s, s', s.callers[u])
    ensures u in s'.callers && CallerOk(keyOf, s', u)
  {
    hide LastCut, IsCut, LastCutBefore, Under, ParentIs;
    var ca := s.callers[u];
    match ca.pc
    case Looking(c, k) => assert Uses(ca.pc, k) && !Uses(s.callers[t].pc, k);
    case Adding(end, parent) => ParentStays(s, s', ca.key[..end], parent);
    case Inserting(end, parent, k) =>
      assert Uses(ca.pc, k) && !Uses(s.callers[t].pc, k);
      OwnsStays(s, s', t, ca, end, parent, k);
    case Joining(end, q, k, phase) =>
      assert Uses(ca.pc, k) && !Uses(s.callers[t].pc, k);
      OwnsStays(s, s', t, ca, end, To(q), k);
    case Ended(status) =>
      if status.Ok? {
        var id :| Gave(s, u, id);
        assert Gave(s', u, id);
      } else if status.AlreadyExists? {
        var id :| NodeAt(s.b, id, ca.key) && id in s.held && s.held[id].Held?;
        assert NodeAt(s'.b, id, ca.key) && id in s'.held && s'.held[id].Held?;
      }
    case _ =>
  }

  /** The calls after a step of t: those it uses are its own, and those it leaves are over. */
  ghost predicate CallsKept<R>(s: TreeState<R>, s': TreeState<R>, t: nat)
    requires Turned(s, s', t)
  {
    && (forall k | Uses(s'.callers[t].pc, k) :: Uses(s.callers[t].pc, k) || k !in s.b.threads)
    && (forall k | k in s'.b.threads ::
          Uses(s'.callers[t].pc, k) || (k in s.b.threads && s'.b.threads[k] == s.b.threads[k]))
    && (forall k | k in s.b.threads && Uses(s.callers[t].pc, k) ::
          Uses(s'.callers[t].pc, k) || s'.b.threads[k].pc.Done?)
    && (forall k | k in s'.b.threads && Uses(s'.callers[t].pc, k) :: Wanted(s.callers, s'.b.threads[k].key))
  }

  lemma WantedStays<R>(s: TreeState<R>, s': TreeState<R>, t: nat, path: string)
    requires Turned(s, s', t) && Wanted(s.callers, path)
    ensures Wanted(s'.callers, path)
  {
    var u :| u in s.callers && Under(path, s.callers[u].key);
    assert s'.callers[u].key == s.callers[u].key;
  }

  lemma CallsStayApart<R>(keyOf: R -> string, s: TreeState<R>, s': TreeState<R>, t: nat)
    requires Turned(s, s', t) && CallersOk(keyOf, s) && CallsKept(s, s', t)
    ensures CallsApart(s'.callers)
  {
    forall u, k | u in s.callers && u != t && Uses(s.callers[u].pc, k) ensures !Uses(s'.callers[t].pc, k) {
      assert CallerOk(keyOf, s, u);
    }
  }

  lemma CallsStillServe<R>(keyOf: R -> string, s: TreeState<R>, s': TreeState<R>, t: nat)
    requires Turned(s, s', t) && CallsServe(s) && CallsKept(s, s', t)
    ensures CallsServe(s')
  {
    forall k | k in s'.b.threads
      ensures (s'.b.threads[k].pc.Done? || InUse(s'.callers, k)) && Wanted(s'.callers, s'.b.threads[k].key)
    {
      if Uses(s'.callers[t].pc, k) {
        WantedStays(s, s', t, s'.b.threads[k].key);
      } else {
        WantedStays(s, s', t, s.b.threads[k].key);
        if !s.b.threads[k].pc.Done? {
          var u :| u in s.callers && Uses(s.callers[u].pc, k);
          assert s'.callers[u] == s.callers[u];
        }
      }
    }
  }

  lemma CallersKept<R>(keyOf: R -> string, s: TreeState<R>, s': TreeState<R>, t: nat)
    requires Turned(s, s', t) && CallersOk(keyOf, s) && NodesKnown(s.b) && CallsKept(s, s', t)
    requires forall u | u in s.callers && u != t :: KeepsSibling(s, s', s.callers[u])
    requires CallerOk(keyOf, s', t)
    ensures CallersOk(keyOf, s')
  {
    forall u | u in s'.callers ensures CallerOk(keyOf, s', u) {
      if u != t {
        assert CallerOk(keyOf, s, u);
        OtherCaller(keyOf, s, s', t, u);
      }
    }
    CallsStayApart(keyOf, s, s', t);
    CallsStillServe(keyOf, s, s', t);
  }

  /** The tree of the nodes in the table is not touched. */
  ghost predicate SameTree<R>(s: TreeState<R>, s': TreeState<R>) {
    && s'.b.table == s.b.table
    && forall id | id in s.b.table ::
         Read(s'.parent, id) == Read(s.parent, id) && Read(s'.first, id) == Read(s.first, id)
         && Read(s'.sibling, id) == Read(s.sibling, id)
  }

  lemma RootedStays<R>(s: TreeState<R>, s': TreeState<R>)
    requires Rooted(s.b, s.parent) && Grows(s, s') && s'.b.table == s.b.table
    ensures Rooted(s'.b, s'.parent)
  {
    forall id | id in s'.b.table
      ensures id in s'.b.nodes && ParentIs(s'.b, s'.b.nodes[id].key, Read(s'.parent, id))
    {
      ParentStays(s, s', s.b.nodes[id].key, Read(s.parent, id));
    }
  }

  lemma TreeKept<R>(keyOf: R -> string, s: TreeState<R>, s': TreeState<R>, t: nat, kids: map<Id, seq<Id>>)
    requires Turned(s, s', t) && CallersOk(keyOf, s) && SameTree(s, s')
    requires Rooted(s.b, s.parent) && Lists(s, kids) && AllJoined(s, kids)
    requires forall id :: Joins(s'.b, s'.callers[t], id) == Joins(s.b, s.callers[t], id)
    ensures Rooted(s'.b, s'.parent) && Lists(s', kids) && AllJoined(s', kids)
  {
    RootedStays(s, s');
    forall q | q in kids ensures ListOk(s'.b.table, s'.parent, s'.first, s'.sibling, q, kids[q]) {
      assert ListOk(s.b.table, s.parent, s.first, s.sibling, q, kids[q]);
      forall j | 0 <= j < |kids[q]| ensures KidAt(s'.b.table, s'.parent, s'.sibling, q, kids[q], j) {
        assert KidAt(s.b.table, s.parent, s.sibling, q, kids[q], j);
      }
    }
    forall id | id in s'.b.table ensures Joined(s', kids, id) {
      assert Joined(s, kids, id);
      BeingJoinedSame(keyOf, s, s', t, id);
    }
  }

  lemma GiverStays<R>(keyOf: R -> string, s: TreeState<R>, s': TreeState<R>, t: nat, id: Id)
    requires Turned(s, s', t) && CallersOk(keyOf, s)
    requires id in s.giver && GiverOk(s, id)
    requires s.giver[id] == t && Wins(s.b, s.callers[t], id) ==> Wins(s'.b, s'.callers[t], id)
    ensures id in s'.giver && GiverOk(s', id)
  {
    var u := s.giver[id];
    if u != t { OtherSame(keyOf, s, s', t, u, id); }
  }

  lemma RecordsKept<R(!new)>(
      keyOf: R -> string, base: TreeState<R>, s: TreeState<R>, s': TreeState<R>, t: nat)
    requires Turned(s, s', t) && CallersOk(keyOf, s) && RecordsOk(keyOf, base, s)
    requires s'.b.table == s.b.table && s'.giver == s.giver && s'.refs == s.refs
    requires forall id | id in s.b.table && id in s.held :: id in s'.held && s'.held[id] == s.held[id]
    requires forall id :: Awaits(s'.b, s'.callers[t], id) == Awaits(s.b, s.callers[t], id)
    requires forall id :: Wins(s.b, s.callers[t], id) ==> Wins(s'.b, s'.callers[t], id)
    ensures RecordsOk(keyOf, base, s')
  {
    forall id | id in s'.b.table ensures HeldOk(keyOf, base, s', id) {
      assert HeldOk(keyOf, base, s, id);
    }
    forall id | id in s'.giver ensures GiverOk(s', id) {
      GiverStays(keyOf, s, s', t, id);
    }
    forall id ensures Counted(s', id) {
      assert Counted(s, id);
      AwaitedSame(keyOf, s, s', t, id);
      if id in s.b.table { assert HeldOk(keyOf, base, s, id); }
    }
  }

  // ----- The steps that change a record -----

  /** Only the caller that gave a node its record can owe the reference on it. */
  lemma AwaitsItsGift<R>(keyOf: R -> string, s: TreeState<R>, u: nat, id: Id)
    requires CallersOk(keyOf, s) && u in s.callers && Awaits(s.b, s.callers[u], id)
    ensures Gave(s, u, id)
  {
    assert CallerOk(keyOf, s, u);
  }

  /** Caller t takes the reference it owes. */
  lemma RecordsReferenced<R(!new)>(
      keyOf: R -> string, base: TreeState<R>, s: TreeState<R>, s': TreeState<R>, t: nat, id: Id)
    requires Turned(s, s', t) && CallersOk(keyOf, s) && RecordsOk(keyOf, base, s)
    requires s'.b.table == s.b.table && s'.giver == s.giver && s'.refs == s.refs + multiset{id}
    requires forall n | n in s.b.table && n in s.held :: n in s'.held && s'.held[n] == s.held[n]
    requires forall n :: Awaits(s.b, s.callers[t], n) <==> n == id
    requires forall n :: !Awaits(s'.b, s'.callers[t], n)
    requires forall n :: Wins(s.b, s.callers[t], n) ==> Wins(s'.b, s'.callers[t], n)
    ensures RecordsOk(keyOf, base, s')
  {
    AwaitsItsGift(keyOf, s, t, id);
    assert GiverOk(s, id) && HeldOk(keyOf, base, s, id) && Counted(s, id) && Awaited(s, id);
    if Awaited(s', id) {
      var u :| u in s'.callers && Awaits(s'.b, s'.callers[u], id);
      OtherSame(keyOf, s, s', t, u, id);
      AwaitsItsGift(keyOf, s, u, id);
      assert false;
    }
    forall n | n in s'.b.table ensures HeldOk(keyOf, base, s', n) {
      assert HeldOk(keyOf, base, s, n);
    }
    forall n | n in s'.giver ensures GiverOk(s', n) {
      GiverStays(keyOf, s, s', t, n);
    }
    forall n ensures Counted(s', n) {
      assert Counted(s, n);
      if n != id { AwaitedSame(keyOf, s, s', t, n); }
      if n in s.b.table { assert HeldOk(keyOf, base, s, n); }
    }
  }

  /** Caller t gives a node its record: a node it has just published, or one that had none. */
  lemma RecordsGiven<R(!new)>(
      keyOf: R -> string, base: TreeState<R>, s: TreeState<R>, s': TreeState<R>, t: nat, id: Id)
    requires Turned(s, s', t) && CallersOk(keyOf, s) && RecordsOk(keyOf, base, s)
    requires s'.b.table == s.b.table + {id} && s'.giver == s.giver[id := t] && s'.refs == s.refs
    requires id !in s.b.table ==> id !in base.b.table
    requires id in s.b.table ==> id in s.held && s.held[id].Empty?
    requires NodeAt(s'.b, id, s.callers[t].key) && keyOf(s.callers[t].record) == s.callers[t].key
    requires id in s'.held && s'.held[id] == Held(s.callers[t].record)
    requires forall n | n in s.b.table && n in s.held && n != id :: n in s'.held && s'.held[n] == s.held[n]
    requires forall n :: !Awaits(s.b, s.callers[t], n)
    requires forall n :: Awaits(s'.b, s'.callers[t], n) <==> n == id
    requires forall n :: !(n in s.giver && s.giver[n] == t)
    requires Wins(s'.b, s'.callers[t], id)
    ensures RecordsOk(keyOf, base, s')
  {
    hide CallersOk, Joins, Wins, Under, CallerOk;
    assert Awaited(s', id) && Counted(s, id);
    forall n | n in s'.b.table ensures HeldOk(keyOf, base, s', n) {
      if n in s.b.table { assert HeldOk(keyOf, base, s, n); }
    }
    forall n | n in s'.giver ensures GiverOk(s', n) {
      if n != id { GiverStays(keyOf, s, s', t, n); }
    }
    forall n ensures Counted(s', n) {
      assert Counted(s, n);
      if n != id { AwaitedSame(keyOf, s, s', t, n); }
      if n in s.b.table { assert HeldOk(keyOf, base, s, n); }
    }
  }

  /** Caller t publishes a node without a record. */
  lemma RecordsPublished<R(!new)>(
      keyOf: R -> string, base: TreeState<R>, s: TreeState<R>, s': TreeState<R>, t: nat, id: Id)
    requires Turned(s, s', t) && CallersOk(keyOf, s) && RecordsOk(keyOf, base, s)
    requires s'.b.table == s.b.table + {id} && s'.giver == s.giver && s'.refs == s.refs && s'.held == s.held
    requires id !in s.b.table && id in s'.b.nodes && id in s.held && s.held[id].Empty?
    requires forall n :: Awaits(s'.b, s'.callers[t], n) == Awaits(s.b, s.callers[t], n)
    requires forall n :: Wins(s.b, s.callers[t], n) ==> Wins(s'.b, s'.callers[t], n)
    ensures RecordsOk(keyOf, base, s')
  {
    assert id in s.giver ==> GiverOk(s, id);
    forall n | n in s'.b.table ensures HeldOk(keyOf, base, s', n) {
      if n in s.b.table { assert HeldOk(keyOf, base, s, n); }
    }
    forall n | n in s'.giver ensures GiverOk(s', n) {
      GiverStays(keyOf, s, s', t, n);
    }
    forall n ensures Counted(s', n) {
      assert Counted(s, n);
      AwaitedSame(keyOf, s, s', t, n);
    }
  }

  // ----- The steps that change the tree -----

  lemma ListOf<R>(s: TreeState<R>, kids: map<Id, seq<Id>>, q: Id, j: nat)
    requires Lists(s, kids) && q in kids && j < |kids[q]|
    ensures kids[q][j] in s.b.table && Read(s.parent, kids[q][j]) == To(q)
  {
    assert ListOk(s.b.table, s.parent, s.first, s.sibling, q, kids[q]);
    assert KidAt(s.b.table, s.parent, s.sibling, q, kids[q], j);
  }

  /** A node that a caller has yet to join to its parent is in no child list. */
  lemma InNoList<R>(s: TreeState<R>, kids: map<Id, seq<Id>>, t: nat, id: Id)
    requires Lists(s, kids) && AllJoined(s, kids) && id in s.b.table
    requires t in s.callers && Joins(s.b, s.callers[t], id)
    ensures forall q | q in kids :: id !in kids[q]
  {
    assert BeingJoined(s, id) && Joined(s, kids, id);
    forall q | q in kids && id in kids[q] ensures false {
      var j :| 0 <= j < |kids[q]| && kids[q][j] == id;
      ListOf(s, kids, q, j);
    }
  }

  /** The node is in its bucket, and has no children yet. */
  lemma TreePublished<R>(
      keyOf: R -> string, s: TreeState<R>, s': TreeState<R>, t: nat, kids: map<Id, seq<Id>>, id: Id)
    requires Turned(s, s', t) && CallersOk(keyOf, s)
    requires Rooted(s.b, s.parent) && Lists(s, kids) && AllJoined(s, kids)
    requires id !in s.b.table && s'.b.table == s.b.table + {id} && id in s'.b.nodes
    requires s'.parent == s.parent && s'.first == s.first && s'.sibling == s.sibling
    requires Read(s.first, id).Null? && ParentIs(s.b, s'.b.nodes[id].key, Read(s.parent, id))
    requires forall n | n != id :: Joins(s'.b, s'.callers[t], n) == Joins(s.b, s.callers[t], n)
    requires Read(s.parent, id).To? ==> Joins(s'.b, s'.callers[t], id)
    ensures Rooted(s'.b, s'.parent) && Lists(s', kids[id := []]) && AllJoined(s', kids[id := []])
  {
    hide CallersOk, CallerOk, Joins, LastCut;
    var kids' := kids[id := []];
    forall n | n in s'.b.table
      ensures n in s'.b.nodes && ParentIs(s'.b, s'.b.nodes[n].key, Read(s'.parent, n))
    {
      ParentStays(s, s', s'.b.nodes[n].key, Read(s.parent, n));
    }
    forall q | q in kids' ensures ListOk(s'.b.table, s'.parent, s'.first, s'.sibling, q, kids'[q]) {
      if q != id {
        assert ListOk(s.b.table, s.parent, s.first, s.sibling, q, kids[q]);
        forall j | 0 <= j < |kids[q]| ensures KidAt(s'.b.table, s'.parent, s'.sibling, q, kids[q], j) {
          assert KidAt(s.b.table, s.parent, s.sibling, q, kids[q], j);
        }
      }
    }
    forall n | n in s'.b.table ensures Joined(s', kids', n) {
      if n == id {
        assert Read(s.parent, id).To? ==> BeingJoined(s', id);
        if Read(s.parent, id).To? && id in kids'[Read(s.parent, id).id] {
          var q := Read(s.parent, id).id;
          var j :| 0 <= j < |kids[q]| && kids[q][j] == id;
          ListOf(s, kids, q, j);
          assert false;
        }
      } else {
        assert Joined(s, kids, n);
        BeingJoinedSame(keyOf, s, s', t, n);
      }
    }
  }

  /** The sibling link of a node that is in no list. */
  lemma TreeStored<R>(
      keyOf: R -> string, s: TreeState<R>, s': TreeState<R>, t: nat, kids: map<Id, seq<Id>>, id: Id)
    requires Turned(s, s', t) && CallersOk(keyOf, s)
    requires Rooted(s.b, s.parent) && Lists(s, kids) && AllJoined(s, kids)
    requires s'.b.table == s.b.table && s'.parent == s.parent && s'.first == s.first
    requires forall n | n != id :: Read(s'.sibling, n) == Read(s.sibling, n)
    requires forall q | q in kids :: id !in kids[q]
    requires forall n :: Joins(s'.b, s'.callers[t], n) == Joins(s.b, s.callers[t], n)
    ensures Rooted(s'.b, s'.parent) && Lists(s', kids) && AllJoined(s', kids)
  {
    RootedStays(s, s');
    forall q | q in kids ensures ListOk(s'.b.table, s'.parent, s'.first, s'.sibling, q, kids[q]) {
      assert ListOk(s.b.table, s.parent, s.first, s.sibling, q, kids[q]);
      forall j | 0 <= j < |kids[q]| ensures KidAt(s'.b.table, s'.parent, s'.sibling, q, kids[q], j) {
        assert KidAt(s.b.table, s.parent, s.sibling, q, kids[q], j);
        assert kids[q][j] in kids[q];
      }
    }
    forall n | n in s'.b.table ensures Joined(s', kids, n) {
      assert Joined(s, kids, n);
      BeingJoinedSame(keyOf, s, s', t, n);
    }
  }

  /** The swap that makes a node the first child of its parent. */
  lemma TreeJoined<R>(
      keyOf: R -> string, s: TreeState<R>, s': TreeState<R>, t: nat, kids: map<Id, seq<Id>>, q: Id, id: Id)
    requires Turned(s, s', t) && CallersOk(keyOf, s)
    requires Rooted(s.b, s.parent) && Lists(s, kids) && AllJoined(s, kids)
    requires s'.b == s.b && s'.parent == s.parent && s'.sibling == s.sibling && s'.first == s.first[q := To(id)]
    requires id in s.b.table && Read(s.parent, id) == To(q) && q in kids
    requires Read(s.sibling, id) == Read(s.first, q)
    requires Joins(s.b, s.callers[t], id)
    requires forall n | n != id :: Joins(s'.b, s'.callers[t], n) == Joins(s.b, s.callers[t], n)
    requires !BeingJoined(s', id)
    ensures Rooted(s'.b, s'.parent) && Lists(s', kids[q := [id] + kids[q]]) && AllJoined(s', kids[q := [id] + kids[q]])
  {
    hide CallersOk, KidAt;
    var kids' := kids[q := [id] + kids[q]];
    RootedStays(s, s');
    InNoList(s, kids, t, id);
    forall n | n in kids' ensures ListOk(s'.b.table, s'.parent, s'.first, s'.sibling, n, kids'[n]) {
      assert ListOk(s.b.table, s.parent, s.first, s.sibling, n, kids[n]);
      if n == q {
        FirstKid(s.b.table, s.parent, s.first, s.sibling, q, kids[q], id);
      }
    }
    forall n | n in s'.b.table ensures Joined(s', kids', n) {
      assert Joined(s, kids, n);
      if n != id { BeingJoinedSame(keyOf, s, s', t, n); }
    }
  }

  /** A node in front of a child list. */
  lemma FirstKid(
      table: set<Id>, parent: map<Id, Ptr>, first: map<Id, Ptr>, sibling: map<Id, Ptr>, q: Id, c: seq<Id>, id: Id)
    requires ListOk(table, parent, first, sibling, q, c) && id !in c
    requires id in table && Read(parent, id) == To(q) && Read(sibling, id) == Read(first, q)
    ensures ListOk(table, parent, first[q := To(id)], sibling, q, [id] + c)
  {
    var c' := [id] + c;
    forall j | 0 <= j < |c'| ensures KidAt(table, parent, sibling, q, c', j) {
      if j > 0 { assert KidAt(table, parent, sibling, q, c, j - 1); }
    }
  }

  // ----- Every kind of step -----

  /** The bucket layer as its callers see it. */
  ghost predicate BucketOk(hash: string -> dword, b: State<string>) {
    && b.nBuckets > 0 && NodesKnown(b)
    && (forall k | k in b.threads :: Reports(TreeForests.PathKeys(hash), b, b.threads[k]))
    && (forall k, l | k in b.threads && l in b.threads && b.threads[k].op.Insert? && b.threads[k].op == b.threads[l].op
          :: k == l)
  }

  lemma BucketIsOk(hash: string -> dword, base: set<Id>, b: State<string>, cs: seq<seq<Id>>)
    requires Inv(TreeForests.PathKeys(hash), base, b, cs)
    ensures BucketOk(hash, b)
  {
    var ops := TreeForests.PathKeys(hash);
    forall k | k in b.threads ensures Reports(ops, b, b.threads[k]) {
      CallReports(ops, base, b, cs, k);
    }
    NodesDistinct(ops, base, b, cs);
  }

  lemma NodesDistinct(ops: KeyOps<string>, base: set<Id>, b: State<string>, cs: seq<seq<Id>>)
    requires Inv(ops, base, b, cs)
    ensures NodesApart(b.threads)
  {
    hide TableOk, ThreadsOk, CountOk, RefsOk, Lawful;
    assert Opened(0);
  }

  /** To the tree and its records, the caller is what it was. */
  ghost predicate SameRole<R>(b: State<string>, ca: Caller<R>, b': State<string>, ca': Caller<R>) {
    && (forall id :: Joins(b', ca', id) == Joins(b, ca, id))
    && (forall id :: Awaits(b', ca', id) == Awaits(b, ca, id))
    && (forall id :: Wins(b, ca, id) ==> Wins(b', ca', id))
  }

  /** A step of the caller's call or of its own that touches neither the tree nor the records. */
  ghost predicate Quiet<R(!new)>(keyOf: R -> string, s: TreeState<R>, s': TreeState<R>, t: nat) {
    && Turned(s, s', t) && SameTree(s, s') && SameRole(s.b, s.callers[t], s'.b, s'.callers[t])
    && s'.giver == s.giver && s'.refs == s.refs
    && (forall id | id in s.b.table && id in s.held :: id in s'.held && s'.held[id] == s.held[id])
    && (forall u | u in s.callers && u != t :: KeepsSibling(s, s', s.callers[u]))
    && CallsKept(s, s', t) && CallerOk(keyOf, s', t)
  }

  lemma SinceThen<R>(base: TreeState<R>, s: TreeState<R>, s': TreeState<R>, t: nat)
    requires Since(base, s) && Turned(s, s', t)
    ensures Since(base, s')
  {
    assert s'.callers.Keys == s.callers.Keys;
  }

  lemma QuietStep<R(!new)>(
      hash: string -> dword, keyOf: R -> string, base: TreeState<R>, s: TreeState<R>, cs: seq<seq<Id>>,
      kids: map<Id, seq<Id>>, s': TreeState<R>, cs': seq<seq<Id>>, t: nat)
    requires TreeInv(hash, keyOf, base, s, cs, kids) && Quiet(keyOf, s, s', t)
    requires Inv(TreeForests.PathKeys(hash), base.b.table, s'.b, cs')
    ensures TreeInv(hash, keyOf, base, s', cs', kids)
  {
    hide CallerOk, CallsKept, Rooted, Lists, AllJoined, RecordsOk, Joins, Awaits, Wins, Wanted, KeepsSibling,
      ChainOk, Since;
    assert Opened(0);
    SinceThen(base, s, s', t);
    BucketIsOk(hash, base.b.table, s.b, cs);
    CallersKept(keyOf, s, s', t);
    TreeKept(keyOf, s, s', t, kids);
    RecordsKept(keyOf, base, s, s', t);
  }

  /** Neither a node nor a record waits for the caller. */
  predicate Idle(pc: CallerPc) {
    pc.Begun? || pc.Cutting? || pc.Looking? || pc.Adding? || pc.Filling? || (pc.Ended? && !pc.status.Ok?)
  }

  lemma IdleRole<R>(b: State<string>, ca: Caller<R>, b': State<string>, ca': Caller<R>)
    requires Idle(ca.pc) && Idle(ca'.pc)
    ensures SameRole(b, ca, b', ca')
  {
  }

  /** The caller goes on using its call, or it was over. */
  ghost predicate SameCall(b: State<string>, pc: CallerPc, pc': CallerPc) {
    && (forall k | Uses(pc', k) :: Uses(pc, k))
    && (forall k | k in b.threads && Uses(pc, k) :: Uses(pc', k) || b.threads[k].pc.Done?)
  }

  /** A step that only moves the caller on. */
  lemma MoveOn<R(!new)>(
      hash: string -> dword, keyOf: R -> string, base: TreeState<R>, s: TreeState<R>, cs: seq<seq<Id>>,
      kids: map<Id, seq<Id>>, t: nat, pc: CallerPc)
    requires TreeInv(hash, keyOf, base, s, cs, kids) && t in s.callers
    requires SameCall(s.b, s.callers[t].pc, pc) && SameRole(s.b, s.callers[t], s.b, s.callers[t].(pc := pc))
    requires CallerOk(keyOf, Go(s, t, pc), t)
    ensures TreeInv(hash, keyOf, base, Go(s, t, pc), cs, kids)
  {
    hide Since, CallsApart, CallerOk, Rooted, Lists, AllJoined, RecordsOk, Joins, Awaits, Wins, Wanted, SameRole,
      TableOk;
    assert Opened(0);
    assert Turned(s, Go(s, t, pc), t);
    QuietStep(hash, keyOf, base, s, cs, kids, Go(s, t, pc), cs, t);
  }

  // ----- Looking for an ancestor -----

  /** The first node to be added, for a key without an ancestor in the table, is a root. */
  lemma FirstStop(key: string)
    requires key != ""
    ensures Stop(key, NextCut(key, 1)) && LastCut(key[..NextCut(key, 1)]) == 0
  {
    LastCutOfPrefix(key, NextCut(key, 1), NextCut(key, 1));
  }

  /** The node to be added after the one for key[..c] hangs under that one. */
  lemma NextStop(key: string, c: nat)
    requires IsCut(key, c)
    ensures var e := NextCut(key, c + 1);
      Stop(key, e) && LastCut(key[..e]) == c && key[..e][..LastCut(key[..e])] == key[..c]
  {
    var e := NextCut(key, c + 1);
    LastCutOfPrefix(key, e, e);
    assert key[..e][..c] == key[..c];
  }

  lemma RootIs(b: State<string>, path: string)
    requires LastCut(path) == 0
    ensures ParentIs(b, path, Null)
  {
  }

  lemma NextParent(b: State<string>, key: string, c: nat, node: Id)
    requires IsCut(key, c) && NodeAt(b, node, key[..c])
    ensures Stop(key, NextCut(key, c + 1)) && ParentIs(b, key[..NextCut(key, c + 1)], To(node))
  {
    NextStop(key, c);
  }

  /** What a search has found is the node of that path. */
  lemma FoundIs(hash: string -> dword, b: State<string>, k: nat)
    requires BucketOk(hash, b) && k in b.threads && b.threads[k].pc.Done?
    requires b.threads[k].pc.result.Found? || b.threads[k].pc.result.AlreadyExists?
    ensures NodeAt(b, b.threads[k].pc.result.id, b.threads[k].key)
  {
    assert Reports(TreeForests.PathKeys(hash), b, b.threads[k]);
    assert TreeForests.PathKeys(hash).equal == TreeForests.SamePath;
  }

  /** The caller's own steps in InsertRecord's first loop. */
  lemma LookOn<R(!new)>(
      hash: string -> dword, keyOf: R -> string, base: TreeState<R>, s: TreeState<R>, cs: seq<seq<Id>>,
      kids: map<Id, seq<Id>>, t: nat, pc: CallerPc)
    requires TreeInv(hash, keyOf, base, s, cs, kids) && t in s.callers
    requires var ca := s.callers[t];
      match ca.pc
      case Begun => pc == Cutting(|ca.key|)
      case Cutting(end) => end <= |ca.key| && ca.key != "" && pc == Adding(NextCut(ca.key, 1), Null)
      case Looking(c, k) =>
        && c < |ca.key| && k in s.b.threads && s.b.threads[k].pc.Done?
        && pc == Looked(ca.key, c, s.b.threads[k].pc.result)
      case _ => false
    ensures TreeInv(hash, keyOf, base, Go(s, t, pc), cs, kids)
  {
    hide TreeInv, LastCut, SameRole, ParentIs, NodeAt, BucketOk, NextCut;
    var ca := s.callers[t];
    CallerIsOk(hash, keyOf, base, s, cs, kids, t);
    match ca.pc {
      case Cutting(end) =>
        FirstStop(ca.key);
        RootIs(s.b, ca.key[..NextCut(ca.key, 1)]);
      case Looking(c, k) =>
        if s.b.threads[k].pc.result.Found? {
          FoundIs(hash, s.b, k);
          NextParent(s.b, ca.key, c, s.b.threads[k].pc.result.id);
        }
      case _ =>
    }
    IdleRole(s.b, ca, s.b, ca.(pc := pc));
    MoveOn(hash, keyOf, base, s, cs, kids, t, pc);
  }

  /** The ancestor of length c is a wanted path, and so is the key. */
  lemma StopIsWanted<R>(s: TreeState<R>, t: nat, c: nat)
    requires t in s.callers && Stop(s.callers[t].key, c)
    ensures Wanted(s.callers, s.callers[t].key[..c])
  {
    var key := s.callers[t].key;
    assert c == |key| ==> key[..c] == key;
    assert Under(key[..c], key);
  }

  /** A call begins: nothing but the memory of its node is touched. */
  ghost predicate CallBegins<R>(
      hash: string -> dword, s: TreeState<R>, s': TreeState<R>, t: nat, call: nat, op: Op, path: string) {
    && t in s.callers && t in s'.callers && Unused(s.b, call, op)
    && s'.b == Called(TreeForests.PathKeys(hash), s.b, call, op, path)
    && s'.callers == s.callers[t := s.callers[t].(pc := s'.callers[t].pc)]
    && s'.giver == s.giver && s'.refs == s.refs
    && (forall n | n in s.b.nodes ::
          && Read(s'.parent, n) == Read(s.parent, n) && Read(s'.first, n) == Read(s.first, n)
          && Read(s'.sibling, n) == Read(s.sibling, n)
          && (n in s.held ==> n in s'.held && s'.held[n] == s.held[n]))
    && (s'.callers[t].pc.Looking? || s'.callers[t].pc.Inserting?) && s'.callers[t].pc.call == call
    && Idle(s.callers[t].pc) && !s.callers[t].pc.Looking? && Wanted(s.callers, path)
  }

  lemma CallTurns<R>(
      hash: string -> dword, s: TreeState<R>, s': TreeState<R>, t: nat, call: nat, op: Op, path: string)
    requires CallBegins(hash, s, s', t, call, op, path)
    ensures Turned(s, s', t) && CallsKept(s, s', t) && s'.b.nodes.Keys >= s.b.nodes.Keys
    ensures SameRole(s.b, s.callers[t], s'.b, s'.callers[t])
  {
    hide Joins, Awaits, Wins, Wanted;
    NewCallRole(s.b, s.callers[t], s'.b, s'.callers[t]);
  }

  lemma CallQuiet<R(!new)>(
      hash: string -> dword, keyOf: R -> string, s: TreeState<R>, s': TreeState<R>, t: nat, call: nat, op: Op,
      path: string)
    requires CallBegins(hash, s, s', t, call, op, path) && NodesKnown(s.b)
    requires (forall id | id in s.b.table :: id in s.b.nodes) && CallerOk(keyOf, s', t)
    ensures Quiet(keyOf, s, s', t)
  {
    hide CallerOk, Wanted, SameRole;
    CallTurns(hash, s, s', t, call, op, path);
    hide Turned, CallsKept;
  }

  lemma NewCallRole<R>(b: State<string>, ca: Caller<R>, b': State<string>, ca': Caller<R>)
    requires Idle(ca.pc)
    requires ca'.pc.Looking? || ca'.pc.Inserting?
    requires ca'.pc.call in b'.threads && b'.threads[ca'.pc.call].pc.Waiting?
    ensures SameRole(b, ca, b', ca')
  {
  }

  lemma CutIsStop(key: string, c: nat)
    requires IsCut(key, c)
    ensures Stop(key, c) && c < |key|
  {
  }

  lemma TableKnown(hash: string -> dword, base: set<Id>, b: State<string>, cs: seq<seq<Id>>)
    requires Inv(TreeForests.PathKeys(hash), base, b, cs)
    ensures forall id | id in b.table :: id in b.nodes
  {
    forall id | id in b.table ensures id in b.nodes {
      InNodes(TreeForests.PathKeys(hash), b.nBuckets, b.mem, b.nodes, b.table, cs, id);
    }
  }

  /** A call begins in a sound table. */
  lemma CallOn<R(!new)>(
      hash: string -> dword, keyOf: R -> string, base: TreeState<R>, s: TreeState<R>, cs: seq<seq<Id>>,
      kids: map<Id, seq<Id>>, s': TreeState<R>, t: nat, call: nat, op: Op, path: string)
    requires TreeInv(hash, keyOf, base, s, cs, kids)
    requires CallBegins(hash, s, s', t, call, op, path) && CallerOk(keyOf, s', t)
    ensures TreeInv(hash, keyOf, base, s', cs, kids)
  {
    hide CallBegins, CallerOk, Rooted, Lists, AllJoined, RecordsOk, CallersOk, ChainOk, Quiet;
    assert Opened(0);
    BucketIsOk(hash, base.b.table, s.b, cs);
    TableKnown(hash, base.b.table, s.b, cs);
    CallQuiet(hash, keyOf, s, s', t, call, op, path);
    CallLeaves(hash, s, s', t, call, op, path);
    CallInv(TreeForests.PathKeys(hash), base.b.table, s.b, cs, call, op, path);
    QuietStep(hash, keyOf, base, s, cs, kids, s', cs, t);
  }

  lemma CallLeaves<R>(
      hash: string -> dword, s: TreeState<R>, s': TreeState<R>, t: nat, call: nat, op: Op, path: string)
    requires CallBegins(hash, s, s', t, call, op, path)
    ensures Unused(s.b, call, op) && s'.b == Called(TreeForests.PathKeys(hash), s.b, call, op, path)
  {
  }

  /** A search for an ancestor begins. */
  lemma FindOn<R(!new)>(
      hash: string -> dword, keyOf: R -> string, base: TreeState<R>, s: TreeState<R>, cs: seq<seq<Id>>,
      kids: map<Id, seq<Id>>, t: nat, c: nat, call: nat)
    requires TreeInv(hash, keyOf, base, s, cs, kids) && t in s.callers && call !in s.b.threads
    requires s.callers[t].pc.Cutting? && IsCut(s.callers[t].key, c)
    ensures var b' := Called(TreeForests.PathKeys(hash), s.b, call, Find, s.callers[t].key[..c]);
      TreeInv(hash, keyOf, base, Go(s.(b := b'), t, Looking(c, call)), cs, kids)
  {
    hide TreeInv, Wanted, IsCut;
    var key := s.callers[t].key;
    CutIsStop(key, c);
    CallerIsOk(hash, keyOf, base, s, cs, kids, t);
    StopIsWanted(s, t, c);
    var b' := Called(TreeForests.PathKeys(hash), s.b, call, Find, key[..c]);
    CallOn(hash, keyOf, base, s, cs, kids, Go(s.(b := b'), t, Looking(c, call)), t, call, Find, key[..c]);
  }

  lemma CallerIsOk<R(!new)>(
      hash: string -> dword, keyOf: R -> string, base: TreeState<R>, s: TreeState<R>, cs: seq<seq<Id>>,
      kids: map<Id, seq<Id>>, t: nat)
    requires TreeInv(hash, keyOf, base, s, cs, kids) && t in s.callers
    ensures CallerOk(keyOf, s, t) && BucketOk(hash, s.b)
    ensures forall id | id in s.b.table :: id in s.b.nodes
  {
    hide CallerOk, RecordsOk, Lists, AllJoined, CallsServe, CallsApart, BucketOk, Rooted;
    assert Opened(0);
    BucketIsOk(hash, base.b.table, s.b, cs);
    TableKnown(hash, base.b.table, s.b, cs);
  }

  // ----- Adding a node -----

  lemma AllocationBegins<R>(hash: string -> dword, s: TreeState<R>, t: nat, call: nat, id: Id)
    requires t in s.callers && s.callers[t].pc.Adding? && s.callers[t].pc.end <= |s.callers[t].key|
    requires call !in s.b.threads && id !in s.b.nodes && Wanted(s.callers, s.callers[t].key[..s.callers[t].pc.end])
    ensures CallBegins(hash, s, Allocates(hash, s, t, call, id), t, call, Insert(id),
                       s.callers[t].key[..s.callers[t].pc.end])
  {
    hide Wanted;
  }

  lemma AllocatingCaller<R>(
      hash: string -> dword, keyOf: R -> string, s: TreeState<R>, t: nat, call: nat, id: Id)
    requires t in s.callers && s.callers[t].pc.Adding? && CallerOk(keyOf, s, t)
    requires call !in s.b.threads && id !in s.b.nodes
    ensures CallerOk(keyOf, Allocates(hash, s, t, call, id), t)
  {
    hide LastCut, IsCut;
    var ca := s.callers[t];
    var s' := Allocates(hash, s, t, call, id);
    assert ParentIs(s'.b, ca.key[..ca.pc.end], ca.pc.parent);
  }

  lemma AllocateOn<R(!new)>(
      hash: string -> dword, keyOf: R -> string, base: TreeState<R>, s: TreeState<R>, cs: seq<seq<Id>>,
      kids: map<Id, seq<Id>>, t: nat, call: nat, id: Id)
    requires TreeInv(hash, keyOf, base, s, cs, kids) && t in s.callers && call !in s.b.threads && id !in s.b.nodes
    requires s.callers[t].pc.Adding? && s.callers[t].pc.end <= |s.callers[t].key|
    ensures TreeInv(hash, keyOf, base, Allocates(hash, s, t, call, id), cs, kids)
  {
    hide TreeInv, Wanted, IsCut, BucketOk, Allocates, CallBegins, ParentIs;
    var key, end := s.callers[t].key, s.callers[t].pc.end;
    CallerIsOk(hash, keyOf, base, s, cs, kids, t);
    StopIsWanted(s, t, end);
    AllocationBegins(hash, s, t, call, id);
    AllocatingCaller(hash, keyOf, s, t, call, id);
    hide CallerOk;
    CallOn(hash, keyOf, base, s, cs, kids, Allocates(hash, s, t, call, id), t, call, Insert(id), key[..end]);
  }

  // ----- The steps in the bucket -----

  /** A step in the bucket layer for the call of t, which may give its node the caller's record. */
  ghost predicate CallMoves<R>(s: TreeState<R>, s': TreeState<R>, t: nat) {
    && t in s.callers && (s.callers[t].pc.Looking? || s.callers[t].pc.Inserting?)
    && var k := s.callers[t].pc.call;
    && k in s.b.threads && Advances(s.b, s'.b, k) && Wanted(s.callers, s.b.threads[k].key)
    && s'.callers == s.callers && s'.parent == s.parent && s'.first == s.first && s'.sibling == s.sibling
    && s'.held == s.held
    && (s'.giver == s.giver || (s.b.threads[k].op.Insert? && s.b.threads[k].op.node !in s.giver
                                && s'.giver == s.giver[s.b.threads[k].op.node := t]))
  }

  lemma CallTurned<R>(s: TreeState<R>, s': TreeState<R>, t: nat)
    requires CallMoves(s, s', t)
    ensures Turned(s, s', t) && CallsKept(s, s', t)
    ensures forall u | u in s.callers && u != t :: KeepsSibling(s, s', s.callers[u])
  {
    assert s.callers == s.callers[t := s.callers[t]];
  }

  /** Neither the swap that publishes the node nor the step that references its record. */
  lemma CallRole<R>(hash: string -> dword, s: TreeState<R>, s': TreeState<R>, t: nat)
    requires CallMoves(s, s', t) && s'.b.table == s.b.table && BucketOk(hash, s.b)
    requires s.callers[t].pc.Inserting? && s.callers[t].pc.end == |s.callers[t].key| ==>
      !s.b.threads[s.callers[t].pc.call].pc.Published?
    ensures SameRole(s.b, s.callers[t], s'.b, s'.callers[t])
  {
    assert Reports(TreeForests.PathKeys(hash), s.b, s.b.threads[s.callers[t].pc.call]);
  }

  /** The swap that publishes the caller's node. */
  ghost predicate Publishes<R>(s: TreeState<R>, s': TreeState<R>, t: nat) {
    && CallMoves(s, s', t) && s.callers[t].pc.Inserting?
    && var th := s.b.threads[s.callers[t].pc.call];
    && th.op.Insert? && !HasPublished(th.pc) && s'.b.table == s.b.table + {th.op.node}
    && HasPublished(s'.b.threads[s.callers[t].pc.call].pc)
    && s'.refs == s.refs
    && s'.giver == if s.callers[t].pc.end == |s.callers[t].key| then s.giver[th.op.node := t] else s.giver
  }

  /** The caller's own condition after a step of its call. */
  lemma CallerMoved<R>(hash: string -> dword, keyOf: R -> string, s: TreeState<R>, s': TreeState<R>, t: nat)
    requires CallMoves(s, s', t) && CallerOk(keyOf, s, t) && BucketOk(hash, s.b)
    requires Publishes(s, s', t) || s'.b.table == s.b.table
    ensures CallerOk(keyOf, s', t)
  {
    hide LastCut, IsCut;
    var ca := s.callers[t];
    if ca.pc.Inserting? {
      assert Reports(TreeForests.PathKeys(hash), s.b, s.b.threads[ca.pc.call]);
      CallTurned(s, s', t);
      ParentStays(s, s', ca.key[..ca.pc.end], ca.pc.parent);
    }
  }

  /** A step of a call that neither publishes its node nor references its record. */
  lemma AdvanceQuiet<R(!new)>(
      hash: string -> dword, keyOf: R -> string, s: TreeState<R>, s': TreeState<R>, t: nat)
    requires CallMoves(s, s', t) && s'.b.table == s.b.table && s'.giver == s.giver && s'.refs == s.refs
    requires BucketOk(hash, s.b) && CallerOk(keyOf, s, t)
    requires s.callers[t].pc.Inserting? && s.callers[t].pc.end == |s.callers[t].key| ==>
      !s.b.threads[s.callers[t].pc.call].pc.Published?
    ensures Quiet(keyOf, s, s', t)
  {
    hide CallerOk, SameRole, Wanted, Turned, CallsKept, KeepsSibling;
    CallTurned(s, s', t);
    CallRole(hash, s, s', t);
    assert Reports(TreeForests.PathKeys(hash), s.b, s.b.threads[s.callers[t].pc.call]);
    CallerMoved(hash, keyOf, s, s', t);
  }

  /** What makes a step: the caller's part, the bucket layer, the tree and the records. */
  lemma StepMade<R(!new)>(
      hash: string -> dword, keyOf: R -> string, base: TreeState<R>, s: TreeState<R>, s': TreeState<R>,
      cs: seq<seq<Id>>, kids: map<Id, seq<Id>>, t: nat)
    requires Turned(s, s', t) && CallersOk(keyOf, s) && NodesKnown(s.b) && CallsKept(s, s', t)
    requires forall u | u in s.callers && u != t :: KeepsSibling(s, s', s.callers[u])
    requires CallerOk(keyOf, s', t)
    requires Inv(TreeForests.PathKeys(hash), base.b.table, s'.b, cs) && Since(base, s)
    requires Rooted(s'.b, s'.parent) && Lists(s', kids) && AllJoined(s', kids) && RecordsOk(keyOf, base, s')
    ensures TreeInv(hash, keyOf, base, s', cs, kids)
  {
    hide CallerOk, CallsKept, Rooted, Lists, AllJoined, RecordsOk, Wanted, KeepsSibling, ChainOk, Since;
    CallersKept(keyOf, s, s', t);
    SinceThen(base, s, s', t);
  }

  lemma PublishTree<R>(
      hash: string -> dword, keyOf: R -> string, s: TreeState<R>, s': TreeState<R>, t: nat, kids: map<Id, seq<Id>>)
    requires Publishes(s, s', t) && BucketOk(hash, s.b) && CallersOk(keyOf, s)
    requires Rooted(s.b, s.parent) && Lists(s, kids) && AllJoined(s, kids)
    ensures var kids' := kids[s.b.threads[s.callers[t].pc.call].op.node := []];
      Rooted(s'.b, s'.parent) && Lists(s', kids') && AllJoined(s', kids')
  {
    hide CallsServe, CallsApart, Rooted, Lists, AllJoined, IsCut, LastCut;
    var k := s.callers[t].pc.call;
    var id := s.b.threads[k].op.node;
    assert Reports(TreeForests.PathKeys(hash), s.b, s.b.threads[k]) && CallerOk(keyOf, s, t);
    CallTurned(s, s', t);
    TreePublished(keyOf, s, s', t, kids, id);
  }

  lemma PublishRecords<R(!new)>(
      hash: string -> dword, keyOf: R -> string, base: TreeState<R>, s: TreeState<R>, s': TreeState<R>, t: nat)
    requires Publishes(s, s', t) && BucketOk(hash, s.b) && CallersOk(keyOf, s) && RecordsOk(keyOf, base, s)
    ensures RecordsOk(keyOf, base, s')
  {
    hide CallsServe, CallsApart, IsCut, LastCut, HeldOk, Counted, CallsKept, KeepsSibling, ParentIs;
    var ca := s.callers[t];
    var k := ca.pc.call;
    var id := s.b.threads[k].op.node;
    assert Reports(TreeForests.PathKeys(hash), s.b, s.b.threads[k]) && CallerOk(keyOf, s, t);
    CallTurned(s, s', t);
    if ca.pc.end == |ca.key| {
      assert ca.key[..ca.pc.end] == ca.key;
      forall n | n in s.giver ensures s.giver[n] != t { assert GiverOk(s, n); }
      RecordsGiven(keyOf, base, s, s', t, id);
    } else {
      RecordsPublished(keyOf, base, s, s', t, id);
    }
  }

  lemma LookMoves<R(!new)>(hash: string -> dword, keyOf: R -> string, s: TreeState<R>, t: nat)
    requires BucketOk(hash, s.b) && CallersOk(keyOf, s) && t in s.callers && s.callers[t].pc.Looking?
    ensures s.callers[t].pc.call in s.b.threads
    ensures var s' := s.(b := Advance(TreeForests.PathKeys(hash), s.b, s.callers[t].pc.call));
      CallMoves(s, s', t) && s'.b.table == s.b.table
  {
    hide Advance, Wanted, CallsApart, IsCut;
    var k := s.callers[t].pc.call;
    assert CallerOk(keyOf, s, t) && Reports(TreeForests.PathKeys(hash), s.b, s.b.threads[k]);
    AdvanceMoves(TreeForests.PathKeys(hash), s.b, k);
  }

  lemma InsertTurnMoves<R(!new)>(
      hash: string -> dword, keyOf: R -> string, base: TreeState<R>, s: TreeState<R>, t: nat)
    requires BucketOk(hash, s.b) && CallersOk(keyOf, s) && RecordsOk(keyOf, base, s)
    requires t in s.callers && s.callers[t].pc.Inserting?
    ensures s.callers[t].pc.call in s.b.threads && s.b.threads[s.callers[t].pc.call].op.Insert?
    ensures var s' := InsertTurn(hash, s, t); CallMoves(s, s', t) && (s'.b.table != s.b.table ==> Publishes(s, s', t))
    ensures var s' := InsertTurn(hash, s, t);
      s'.b.table == s.b.table ==> s'.giver == s.giver && !s'.b.threads[s.callers[t].pc.call].pc.Published?
  {
    hide Advance, Wanted, CallsApart, IsCut, Stop, HeldOk, Counted, ParentIs, NodesKnown, HasPublished, Read, Gift;
    var k := s.callers[t].pc.call;
    assert CallerOk(keyOf, s, t);
    var id := s.b.threads[k].op.node;
    assert Reports(TreeForests.PathKeys(hash), s.b, s.b.threads[k]);
    AdvanceMoves(TreeForests.PathKeys(hash), s.b, k);
    assert id in s.giver ==> GiverOk(s, id);
  }

  /** The caller's next step is one of its call. */
  predicate BucketTurn<R>(s: TreeState<R>, t: nat)
    requires t in s.callers
  {
    var pc := s.callers[t].pc;
    (pc.Looking? || pc.Inserting?) && pc.call in s.b.threads && !s.b.threads[pc.call].pc.Done?
  }

  /** A step of a search. */
  lemma SearchOn<R(!new)>(
      hash: string -> dword, keyOf: R -> string, base: TreeState<R>, s: TreeState<R>, cs: seq<seq<Id>>,
      kids: map<Id, seq<Id>>, t: nat) returns (cs': seq<seq<Id>>)
    requires TreeInv(hash, keyOf, base, s, cs, kids) && t in s.callers
    requires s.callers[t].pc.Looking? && BucketTurn(s, t)
    ensures var b' := Advance(TreeForests.PathKeys(hash), s.b, s.callers[t].pc.call);
      TreeInv(hash, keyOf, base, s.(b := b'), cs', kids) && Closer(b', cs', s.b, cs)
  {
    hide Closer, Advance, CallerOk, CallersOk, Rooted, Lists, AllJoined, RecordsOk, CallMoves, ChainOk, BucketOk, Quiet;
    CallerIsOk(hash, keyOf, base, s, cs, kids, t);
    assert Opened(0);
    LookMoves(hash, keyOf, s, t);
    var s' := s.(b := Advance(TreeForests.PathKeys(hash), s.b, s.callers[t].pc.call));
    cs' := StepIsCloser(TreeForests.PathKeys(hash), base.b.table, s.b, cs, s.callers[t].pc.call);
    AdvanceQuiet(hash, keyOf, s, s', t);
    QuietStep(hash, keyOf, base, s, cs, kids, s', cs', t);
  }

  /** The record of the node that was published is referenced. */
  lemma ReferenceRecords<R(!new)>(
      hash: string -> dword, keyOf: R -> string, base: TreeState<R>, s: TreeState<R>, s': TreeState<R>, t: nat)
    requires CallMoves(s, s', t) && s.callers[t].pc.Inserting? && s.callers[t].pc.end == |s.callers[t].key|
    requires s'.b.table == s.b.table && s'.giver == s.giver
    requires var k := s.callers[t].pc.call;
      && s.b.threads[k].pc.Published? && !s'.b.threads[k].pc.Published? && s.b.threads[k].op.Insert?
      && s'.refs == s.refs + multiset{s.b.threads[k].op.node}
    requires CallersOk(keyOf, s) && RecordsOk(keyOf, base, s)
    ensures RecordsOk(keyOf, base, s')
  {
    hide CallersOk, RecordsOk, CallsKept, KeepsSibling;
    CallTurned(s, s', t);
    RecordsReferenced(keyOf, base, s, s', t, s.b.threads[s.callers[t].pc.call].op.node);
  }

  lemma ReferenceTree<R(!new)>(
      keyOf: R -> string, s: TreeState<R>, s': TreeState<R>, t: nat, kids: map<Id, seq<Id>>)
    requires CallMoves(s, s', t) && s.callers[t].pc.Inserting? && s'.b.table == s.b.table && CallersOk(keyOf, s)
    requires HasPublished(s.b.threads[s.callers[t].pc.call].pc)
    requires Rooted(s.b, s.parent) && Lists(s, kids) && AllJoined(s, kids)
    ensures Rooted(s'.b, s'.parent) && Lists(s', kids) && AllJoined(s', kids)
  {
    hide CallersOk, CallsKept, KeepsSibling, Rooted, Lists, AllJoined;
    CallTurned(s, s', t);
    TreeKept(keyOf, s, s', t, kids);
  }

  /** A step of an insertion into a bucket. */
  lemma InsertOn<R(!new)>(
      hash: string -> dword, keyOf: R -> string, base: TreeState<R>, s: TreeState<R>, cs: seq<seq<Id>>,
      kids: map<Id, seq<Id>>, t: nat) returns (cs': seq<seq<Id>>, kids': map<Id, seq<Id>>)
    requires TreeInv(hash, keyOf, base, s, cs, kids) && t in s.callers
    requires s.callers[t].pc.Inserting? && BucketTurn(s, t)
    ensures s.b.threads[s.callers[t].pc.call].op.Insert?
    ensures TreeInv(hash, keyOf, base, InsertTurn(hash, s, t), cs', kids')
    ensures Closer(InsertTurn(hash, s, t).b, cs', s.b, cs)
  {
    hide Closer, Advance, CallerOk, CallersOk, Rooted, Lists, AllJoined, RecordsOk, CallMoves, ChainOk, Quiet, Turned,
      CallsKept, KeepsSibling, Publishes, Advances;
    CallerIsOk(hash, keyOf, base, s, cs, kids, t);
    assert Opened(0);
    InsertTurnMoves(hash, keyOf, base, s, t);
    var s' := InsertTurn(hash, s, t);
    var k := s.callers[t].pc.call;
    cs' := StepIsCloser(TreeForests.PathKeys(hash), base.b.table, s.b, cs, k);
    CallTurned(s, s', t);
    CallerMoved(hash, keyOf, s, s', t);
    kids' := kids;
    if s'.b.table != s.b.table {
      kids' := kids[s.b.threads[k].op.node := []];
      PublishTree(hash, keyOf, s, s', t, kids);
      PublishRecords(hash, keyOf, base, s, s', t);
      StepMade(hash, keyOf, base, s, s', cs', kids', t);
    } else if s.b.threads[k].pc.Published? && s.callers[t].pc.end == |s.callers[t].key| {
      ReferenceTree(keyOf, s, s', t, kids);
      ReferenceRecords(hash, keyOf, base, s, s', t);
      StepMade(hash, keyOf, base, s, s', cs', kids', t);
    } else {
      AdvanceQuiet(hash, keyOf, s, s', t);
      QuietStep(hash, keyOf, base, s, cs, kids, s', cs', t);
    }
  }

  /** An insertion into a bucket is over. */
  lemma ReturnOn<R(!new)>(
      hash: string -> dword, keyOf: R -> string, base: TreeState<R>, s: TreeState<R>, cs: seq<seq<Id>>,
      kids: map<Id, seq<Id>>, t: nat)
    requires TreeInv(hash, keyOf, base, s, cs, kids) && t in s.callers && s.callers[t].pc.Inserting?
    requires var k := s.callers[t].pc.call;
      k in s.b.threads && s.b.threads[k].op.Insert? && s.b.threads[k].pc.Done?
    ensures var k := s.callers[t].pc.call;
      var pc := Returned(s.callers[t], s.b.threads[k].op.node, s.b.threads[k].pc.result);
      TreeInv(hash, keyOf, base, Go(s, t, pc), cs, kids)
  {
    hide TreeInv;
    var k := s.callers[t].pc.call;
    CallerIsOk(hash, keyOf, base, s, cs, kids, t);
    ReturnedRole(hash, keyOf, s, t);
    ReturnedCaller(hash, keyOf, s, t);
    MoveOn(hash, keyOf, base, s, cs, kids, t,
           Returned(s.callers[t], s.b.threads[k].op.node, s.b.threads[k].pc.result));
  }

  lemma ReturnedRole<R(!new)>(hash: string -> dword, keyOf: R -> string, s: TreeState<R>, t: nat)
    requires t in s.callers && s.callers[t].pc.Inserting? && CallerOk(keyOf, s, t) && BucketOk(hash, s.b)
    requires s.b.threads[s.callers[t].pc.call].pc.Done?
    ensures var ca := s.callers[t];
      var pc := Returned(ca, s.b.threads[ca.pc.call].op.node, s.b.threads[ca.pc.call].pc.result);
      SameCall(s.b, ca.pc, pc) && SameRole(s.b, ca, s.b, ca.(pc := pc))
  {
    hide LastCut, IsCut, ParentIs, NextCut, Read;
    assert Reports(TreeForests.PathKeys(hash), s.b, s.b.threads[s.callers[t].pc.call]);
  }

  lemma ReturnedCaller<R(!new)>(hash: string -> dword, keyOf: R -> string, s: TreeState<R>, t: nat)
    requires t in s.callers && s.callers[t].pc.Inserting? && CallerOk(keyOf, s, t) && BucketOk(hash, s.b)
    requires s.b.threads[s.callers[t].pc.call].pc.Done?
    ensures var ca := s.callers[t];
      CallerOk(keyOf, Go(s, t, Returned(ca, s.b.threads[ca.pc.call].op.node, s.b.threads[ca.pc.call].pc.result)), t)
  {
    hide LastCut, IsCut, ParentIs, NextCut, Read;
    var ca := s.callers[t];
    var th := s.b.threads[ca.pc.call];
    assert Reports(TreeForests.PathKeys(hash), s.b, th);
    if ca.pc.end < |ca.key| {
      if th.pc.result.Inserted? { NextParent(s.b, ca.key, ca.pc.end, th.op.node); }
      else { FoundIs(hash, s.b, ca.pc.call); NextParent(s.b, ca.key, ca.pc.end, th.pc.result.id); }
    } else {
      assert ca.key[..ca.pc.end] == ca.key;
      if th.pc.result.AlreadyExists? { FoundIs(hash, s.b, ca.pc.call); }
      else { assert Gave(Go(s, t, Returned(ca, th.op.node, th.pc.result)), t, th.op.node); }
    }
  }

  // ----- Joining a node to its parent -----

  /** Nobody else joins the node of the caller's call. */
  lemma SoleJoiner<R>(hash: string -> dword, s: TreeState<R>, t: nat, u: nat, id: Id)
    requires BucketOk(hash, s.b) && CallsApart(s.callers) && t in s.callers && u in s.callers
    requires Joins(s.b, s.callers[t], id) && Joins(s.b, s.callers[u], id)
    ensures u == t
  {
    assert Uses(s.callers[t].pc, s.callers[t].pc.call) && Uses(s.callers[u].pc, s.callers[u].pc.call);
  }

  /** The sibling link of a node is nobody else's business. */
  lemma OwnSibling<R>(hash: string -> dword, s: TreeState<R>, s': TreeState<R>, t: nat, u: nat)
    requires BucketOk(hash, s.b) && CallsApart(s.callers) && t in s.callers && u in s.callers && u != t
    requires s.callers[t].pc.Joining? && s.callers[t].pc.call in s.b.threads
    requires var th := s.b.threads[s.callers[t].pc.call];
      th.op.Insert? && forall n | n != th.op.node :: Read(s'.sibling, n) == Read(s.sibling, n)
    ensures KeepsSibling(s, s', s.callers[u])
  {
    assert Uses(s.callers[t].pc, s.callers[t].pc.call);
  }

  /** The caller has read the first child, or has to read it again. */
  lemma PhaseOn<R(!new)>(
      hash: string -> dword, keyOf: R -> string, base: TreeState<R>, s: TreeState<R>, cs: seq<seq<Id>>,
      kids: map<Id, seq<Id>>, t: nat, phase: Phase)
    requires TreeInv(hash, keyOf, base, s, cs, kids) && t in s.callers && s.callers[t].pc.Joining?
    requires !phase.Comparing?
    ensures TreeInv(hash, keyOf, base, Go(s, t, s.callers[t].pc.(phase := phase)), cs, kids)
  {
    hide TreeInv, BucketOk, LastCut, IsCut, ParentIs;
    CallerIsOk(hash, keyOf, base, s, cs, kids, t);
    MoveOn(hash, keyOf, base, s, cs, kids, t, s.callers[t].pc.(phase := phase));
  }

  /** The caller's node is published, and the caller is joining it to its parent. */
  ghost predicate AtJoin<R>(hash: string -> dword, keyOf: R -> string, s: TreeState<R>, t: nat) {
    && BucketOk(hash, s.b) && CallersOk(keyOf, s) && t in s.callers && s.callers[t].pc.Joining?
    && s.callers[t].pc.call in s.b.threads && s.b.threads[s.callers[t].pc.call].op.Insert?
  }

  ghost function JoinNode<R>(s: TreeState<R>, t: nat): Id
    requires t in s.callers && s.callers[t].pc.Joining?
    requires s.callers[t].pc.call in s.b.threads && s.b.threads[s.callers[t].pc.call].op.Insert?
  {
    s.b.threads[s.callers[t].pc.call].op.node
  }

  lemma JoinFacts<R>(hash: string -> dword, keyOf: R -> string, s: TreeState<R>, t: nat)
    requires AtJoin(hash, keyOf, s, t)
    ensures CallerOk(keyOf, s, t) && CallsApart(s.callers) && NodesKnown(s.b)
    ensures var ca := s.callers[t]; var id := JoinNode(s, t);
      && Joins(s.b, ca, id) && NodeAt(s.b, id, ca.key[..ca.pc.end]) && Read(s.parent, id) == To(ca.pc.above)
      && Wanted(s.callers, s.b.threads[ca.pc.call].key) && s.b.threads[ca.pc.call].pc.Done?
      && (ca.pc.phase.Comparing? ==> Read(s.sibling, id) == ca.pc.phase.cur)
  {
    hide LastCut, IsCut, Wanted, ParentIs, CallsApart, NodesKnown;
    assert CallerOk(keyOf, s, t);
    assert Reports(TreeForests.PathKeys(hash), s.b, s.b.threads[s.callers[t].pc.call]);
  }

  lemma StoreTurns<R(!new)>(hash: string -> dword, keyOf: R -> string, s: TreeState<R>, t: nat, cur: Ptr)
    requires AtJoin(hash, keyOf, s, t)
    ensures var s' := Stored(s, t, JoinNode(s, t), cur);
      && Turned(s, s', t) && CallsKept(s, s', t) && CallerOk(keyOf, s', t)
      && SameRole(s.b, s.callers[t], s'.b, s'.callers[t])
      && forall u | u in s.callers && u != t :: KeepsSibling(s, s', s.callers[u])
  {
    hide LastCut, IsCut, Wanted, ParentIs, CallersOk, BucketOk, KeepsSibling;
    JoinFacts(hash, keyOf, s, t);
    var s' := Stored(s, t, JoinNode(s, t), cur);
    forall u | u in s.callers && u != t ensures KeepsSibling(s, s', s.callers[u]) {
      OwnSibling(hash, s, s', t, u);
    }
  }

  lemma StoreOn<R(!new)>(
      hash: string -> dword, keyOf: R -> string, base: TreeState<R>, s: TreeState<R>, cs: seq<seq<Id>>,
      kids: map<Id, seq<Id>>, t: nat, cur: Ptr)
    requires TreeInv(hash, keyOf, base, s, cs, kids) && AtJoin(hash, keyOf, s, t)
    ensures TreeInv(hash, keyOf, base, Stored(s, t, JoinNode(s, t), cur), cs, kids)
  {
    hide Lists, AllJoined, Rooted, RecordsOk, CallersOk, CallerOk, ChainOk, Turned, CallsKept, KeepsSibling, Joins,
      Awaits, Wins, BucketOk;
    assert Opened(0);
    var s' := Stored(s, t, JoinNode(s, t), cur);
    JoinFacts(hash, keyOf, s, t);
    StoreTurns(hash, keyOf, s, t, cur);
    InNoList(s, kids, t, JoinNode(s, t));
    TreeStored(keyOf, s, s', t, kids, JoinNode(s, t));
    RecordsKept(keyOf, base, s, s', t);
    StepMade(hash, keyOf, base, s, s', cs, kids, t);
  }

  lemma SwapTurns<R(!new)>(hash: string -> dword, keyOf: R -> string, s: TreeState<R>, t: nat)
    requires AtJoin(hash, keyOf, s, t) && s.callers[t].pc.above in s.b.table
    ensures var s' := Swapped(s, t, JoinNode(s, t));
      && Turned(s, s', t) && CallsKept(s, s', t) && CallerOk(keyOf, s', t)
      && (forall u | u in s.callers && u != t :: KeepsSibling(s, s', s.callers[u]))
  {
    hide LastCut, IsCut, Wanted, ParentIs, CallersOk, BucketOk, CallerOk, NodeAt;
    JoinFacts(hash, keyOf, s, t);
    JoinedCaller(keyOf, s, Swapped(s, t, JoinNode(s, t)), t);
  }

  lemma SwapRole<R>(hash: string -> dword, keyOf: R -> string, s: TreeState<R>, t: nat)
    requires AtJoin(hash, keyOf, s, t)
    ensures var ca, ca' := s.callers[t], Swapped(s, t, JoinNode(s, t)).callers[t];
      && (forall id | id != JoinNode(s, t) :: Joins(s.b, ca', id) == Joins(s.b, ca, id))
      && (forall id :: Awaits(s.b, ca', id) == Awaits(s.b, ca, id))
      && (forall id :: Wins(s.b, ca, id) ==> Wins(s.b, ca', id))
    ensures !BeingJoined(Swapped(s, t, JoinNode(s, t)), JoinNode(s, t))
  {
    hide CallersOk, BucketOk, CallerOk;
    JoinFacts(hash, keyOf, s, t);
    var s' := Swapped(s, t, JoinNode(s, t));
    forall u | u in s'.callers ensures !Joins(s'.b, s'.callers[u], JoinNode(s, t)) {
      if u != t && Joins(s.b, s.callers[u], JoinNode(s, t)) { SoleJoiner(hash, s, t, u, JoinNode(s, t)); }
    }
  }

  lemma SwapOn<R(!new)>(
      hash: string -> dword, keyOf: R -> string, base: TreeState<R>, s: TreeState<R>, cs: seq<seq<Id>>,
      kids: map<Id, seq<Id>>, t: nat) returns (kids': map<Id, seq<Id>>)
    requires TreeInv(hash, keyOf, base, s, cs, kids) && AtJoin(hash, keyOf, s, t)
    requires s.callers[t].pc.phase.Comparing? && Read(s.first, s.callers[t].pc.above) == s.callers[t].pc.phase.cur
    ensures TreeInv(hash, keyOf, base, Swapped(s, t, JoinNode(s, t)), cs, kids')
  {
    hide AllJoined, ListOk, Rooted, RecordsOk, CallersOk, CallerOk, ChainOk, Turned, CallsKept, KeepsSibling, Joins,
      Awaits, Wins, BucketOk, BeingJoined;
    assert Opened(0);
    var id, q := JoinNode(s, t), s.callers[t].pc.above;
    var s' := Swapped(s, t, id);
    JoinFacts(hash, keyOf, s, t);
    ParentInTable(s, kids, id);
    SwapTurns(hash, keyOf, s, t);
    SwapRole(hash, keyOf, s, t);
    kids' := kids[q := [id] + kids[q]];
    TreeJoined(keyOf, s, s', t, kids, q, id);
    RecordsKept(keyOf, base, s, s', t);
    StepMade(hash, keyOf, base, s, s', cs, kids', t);
  }

  lemma ParentInTable<R>(s: TreeState<R>, kids: map<Id, seq<Id>>, id: Id)
    requires AllJoined(s, kids) && Lists(s, kids) && id in s.b.table && Read(s.parent, id).To?
    ensures Read(s.parent, id).id in kids && Read(s.parent, id).id in s.b.table
  {
    assert Joined(s, kids, id);
  }

  lemma JoinedCaller<R>(keyOf: R -> string, s: TreeState<R>, s': TreeState<R>, t: nat)
    requires t in s.callers && s.callers[t].pc.Joining? && CallerOk(keyOf, s, t)
    requires s'.b == s.b && s'.giver == s.giver && t in s'.callers
    requires var ca := s.callers[t]; var node := s.b.threads[ca.pc.call].op.node;
      NodeAt(s.b, node, ca.key[..ca.pc.end]) && s'.callers[t] == ca.(pc := After(ca.key, ca.pc.end, node))
    ensures CallerOk(keyOf, s', t)
  {
    hide LastCut, IsCut, ParentIs;
    var ca := s.callers[t];
    var node := s.b.threads[ca.pc.call].op.node;
    if ca.pc.end < |ca.key| { NextParent(s.b, ca.key, ca.pc.end, node); }
    else { assert Gave(s', t, node); }
  }

  // ----- The key had a node already -----

  lemma GivesNothing<R(!new)>(keyOf: R -> string, base: TreeState<R>, s: TreeState<R>, t: nat)
    requires RecordsOk(keyOf, base, s) && t in s.callers && Idle(s.callers[t].pc)
    ensures forall id | id in s.giver :: s.giver[id] != t
  {
    forall id | id in s.giver ensures s.giver[id] != t { assert GiverOk(s, id); }
  }

  lemma NotGiven<R(!new)>(keyOf: R -> string, base: TreeState<R>, s: TreeState<R>, id: Id)
    requires RecordsOk(keyOf, base, s) && id in s.b.table && id in s.held && s.held[id].Empty?
    ensures id !in s.giver && !HadRecord(base, id)
  {
    assert HeldOk(keyOf, base, s, id);
  }

  lemma FillTurns<R(!new)>(keyOf: R -> string, base: TreeState<R>, s: TreeState<R>, t: nat, id: Id)
    requires t in s.callers && s.callers[t].pc == Filling(id) && CallerOk(keyOf, s, t)
    requires id in s.held && s.held[id].Empty? && id !in s.giver
    ensures var s' := FilledWith(s, t, id);
      && Turned(s, s', t) && CallsKept(s, s', t) && CallerOk(keyOf, s', t)
      && (forall n :: Joins(s'.b, s'.callers[t], n) == Joins(s.b, s.callers[t], n))
      && (forall u | u in s.callers && u != t :: KeepsSibling(s, s', s.callers[u]))
  {
  }

  lemma FillOn<R(!new)>(
      hash: string -> dword, keyOf: R -> string, base: TreeState<R>, s: TreeState<R>, cs: seq<seq<Id>>,
      kids: map<Id, seq<Id>>, t: nat, id: Id)
    requires TreeInv(hash, keyOf, base, s, cs, kids) && t in s.callers && s.callers[t].pc == Filling(id)
    requires id in s.held && s.held[id].Empty?
    ensures TreeInv(hash, keyOf, base, FilledWith(s, t, id), cs, kids)
  {
    hide Lists, AllJoined, Rooted, CallersOk, ChainOk, HeldOk, Counted, RecordsOk, Turned, CallsKept, KeepsSibling,
      BucketOk, Joins, Since, Extends, SameTree, Grows, LastCut, Read, Wanted, NodesKnown;
    CallerIsOk(hash, keyOf, base, s, cs, kids, t);
    assert Opened(0);
    var s' := FilledWith(s, t, id);
    NodesAreKnown(hash, s.b);
    GivesNothing(keyOf, base, s, t);
    NotGiven(keyOf, base, s, id);
    FillTurns(keyOf, base, s, t, id);
    TreeKept(keyOf, s, s', t, kids);
    RecordsGiven(keyOf, base, s, s', t, id);
    StepMade(hash, keyOf, base, s, s', cs, kids, t);
  }

  lemma NodesAreKnown(hash: string -> dword, b: State<string>)
    requires BucketOk(hash, b)
    ensures NodesKnown(b)
  {
  }

  /** The record that was put into a node without one is referenced. */
  lemma FilledOn<R(!new)>(
      hash: string -> dword, keyOf: R -> string, base: TreeState<R>, s: TreeState<R>, cs: seq<seq<Id>>,
      kids: map<Id, seq<Id>>, t: nat, id: Id)
    requires TreeInv(hash, keyOf, base, s, cs, kids) && t in s.callers && s.callers[t].pc == Filled(id)
    ensures TreeInv(hash, keyOf, base, Go(s.(refs := s.refs + multiset{id}), t, Ended(HashTables.Ok)), cs, kids)
  {
    hide Lists, AllJoined, Rooted, CallersOk, ChainOk, HeldOk, Counted, RecordsOk, CallsKept, KeepsSibling, BucketOk;
    CallerIsOk(hash, keyOf, base, s, cs, kids, t);
    assert Opened(0);
    var s' := Go(s.(refs := s.refs + multiset{id}), t, Ended(HashTables.Ok));
    NodesAreKnown(hash, s.b);
    FilledTurns(keyOf, s, s', t, id);
    hide Turned;
    TreeKept(keyOf, s, s', t, kids);
    RecordsReferenced(keyOf, base, s, s', t, id);
    StepMade(hash, keyOf, base, s, s', cs, kids, t);
  }

  lemma FilledTurns<R>(keyOf: R -> string, s: TreeState<R>, s': TreeState<R>, t: nat, id: Id)
    requires t in s.callers && s.callers[t].pc == Filled(id) && CallerOk(keyOf, s, t)
    requires s' == Go(s.(refs := s.refs + multiset{id}), t, Ended(HashTables.Ok))
    ensures Turned(s, s', t) && CallsKept(s, s', t) && CallerOk(keyOf, s', t)
    ensures forall u | u in s.callers && u != t :: KeepsSibling(s, s', s.callers[u])
  {
    assert Gave(s', t, id);
  }

  /** The record pointer was not null. */
  lemma RefusedOn<R(!new)>(
      hash: string -> dword, keyOf: R -> string, base: TreeState<R>, s: TreeState<R>, cs: seq<seq<Id>>,
      kids: map<Id, seq<Id>>, t: nat)
    requires TreeInv(hash, keyOf, base, s, cs, kids) && t in s.callers && s.callers[t].pc.Filling?
    requires s.callers[t].pc.node in s.held ==> s.held[s.callers[t].pc.node].Held?
    ensures TreeInv(hash, keyOf, base, Go(s, t, Ended(HashTables.AlreadyExists)), cs, kids)
  {
    hide TreeInv, BucketOk;
    CallerIsOk(hash, keyOf, base, s, cs, kids, t);
    var id := s.callers[t].pc.node;
    HeldKnown(hash, keyOf, base, s, cs, kids, id);
    assert NodeAt(s.b, id, s.callers[t].key);
    IdleRole(s.b, s.callers[t], s.b, s.callers[t].(pc := Ended(HashTables.AlreadyExists)));
    MoveOn(hash, keyOf, base, s, cs, kids, t, Ended(HashTables.AlreadyExists));
  }

  lemma HeldKnown<R(!new)>(
      hash: string -> dword, keyOf: R -> string, base: TreeState<R>, s: TreeState<R>, cs: seq<seq<Id>>,
      kids: map<Id, seq<Id>>, id: Id)
    requires TreeInv(hash, keyOf, base, s, cs, kids) && id in s.b.table
    ensures id in s.held && id in s.b.nodes
  {
    hide CallersOk, Lists, AllJoined, Rooted, ChainOk, Counted;
    assert Opened(0);
    assert HeldOk(keyOf, base, s, id);
  }

  lemma AtJoinIs<R(!new)>(
      hash: string -> dword, keyOf: R -> string, base: TreeState<R>, s: TreeState<R>, cs: seq<seq<Id>>,
      kids: map<Id, seq<Id>>, t: nat)
    requires TreeInv(hash, keyOf, base, s, cs, kids) && t in s.callers && s.callers[t].pc.Joining?
    ensures AtJoin(hash, keyOf, s, t)
  {
    hide BucketOk, CallsApart, CallsServe, Lists, AllJoined, Rooted, RecordsOk, ChainOk;
    CallerIsOk(hash, keyOf, base, s, cs, kids, t);
    assert Opened(0);
  }

  /** What the steps take for granted. */
  predicate Guarded<R>(s: TreeState<R>, t: nat)
    requires t in s.callers
  {
    var key := s.callers[t].key;
    match s.callers[t].pc
    case Cutting(end) => key != "" && end <= |key|
    case Looking(c, k) => c < |key| && k in s.b.threads
    case Adding(end, _) => end <= |key|
    case Inserting(end, _, k) => end <= |key| && k in s.b.threads && s.b.threads[k].op.Insert?
    case Joining(end, _, k, _) => end <= |key| && k in s.b.threads && s.b.threads[k].op.Insert?
    case _ => key != ""
  }

  lemma JoinTurnShape<R>(s: TreeState<R>, t: nat, node: Id) returns (pc: CallerPc)
    requires t in s.callers && s.callers[t].pc.Joining?
    ensures pc == After(s.callers[t].key, s.callers[t].pc.end, node) || (pc.Joining? && pc.end == s.callers[t].pc.end)
    ensures var s' := JoinTurn(s, t, node);
      s'.callers == s.callers[t := s.callers[t].(pc := pc)] && s'.b == s.b
  {
    hide After;
    var ca := s.callers[t];
    match ca.pc.phase
    case Reading => pc := ca.pc.(phase := Storing(Read(s.first, ca.pc.above)));
    case Storing(cur) => pc := ca.pc.(phase := Comparing(cur));
    case Comparing(cur) =>
      pc := if Read(s.first, ca.pc.above) == cur then After(ca.key, ca.pc.end, node) else ca.pc.(phase := Reading);
  }

  lemma TurnJoins<R>(
      hash: string -> dword, s: TreeState<R>, t: nat, call: nat, id: Id, memory: bool)
    requires t in s.callers && Guarded(s, t) && s.b.nBuckets > 0 && s.callers[t].pc.Joining?
    ensures Turn(hash, s, t, call, id, memory) == JoinTurn(s, t, s.b.threads[s.callers[t].pc.call].op.node)
  {
    hide Advance, Called, Allocates, InsertTurn, JoinTurn, FilledWith, Returned, LastCutBefore, IsCut;
  }

  lemma Guards<R(!new)>(
      hash: string -> dword, keyOf: R -> string, base: TreeState<R>, s: TreeState<R>, cs: seq<seq<Id>>,
      kids: map<Id, seq<Id>>, t: nat)
    requires TreeInv(hash, keyOf, base, s, cs, kids) && t in s.callers
    ensures Guarded(s, t)
  {
    hide TreeInv, LastCut, BucketOk;
    CallerIsOk(hash, keyOf, base, s, cs, kids, t);
  }

  lemma SearchTurnInv<R(!new)>(
      hash: string -> dword, keyOf: R -> string, base: TreeState<R>, s: TreeState<R>, cs: seq<seq<Id>>,
      kids: map<Id, seq<Id>>, t: nat, call: nat, id: Id, memory: bool) returns (cs': seq<seq<Id>>)
    requires TreeInv(hash, keyOf, base, s, cs, kids) && t in s.callers && call !in s.b.threads && id !in s.b.nodes
    requires s.callers[t].pc.Begun? || s.callers[t].pc.Cutting? || s.callers[t].pc.Looking?
    ensures TreeInv(hash, keyOf, base, Turn(hash, s, t, call, id, memory), cs', kids)
    ensures if BucketTurn(s, t) then Closer(Turn(hash, s, t, call, id, memory).b, cs', s.b, cs) else cs' == cs
  {
    hide TreeInv, Closer, Advance, Called, CallerOk, NextCut, LastCutBefore, Looked;
    Guards(hash, keyOf, base, s, cs, kids, t);
    var ca := s.callers[t];
    cs' := cs;
    match ca.pc {
      case Begun => LookOn(hash, keyOf, base, s, cs, kids, t, Cutting(|ca.key|));
      case Cutting(end) =>
        if end <= |ca.key| && ca.key != "" {
          if LastCutBefore(ca.key, end) == 0 {
            LookOn(hash, keyOf, base, s, cs, kids, t, Adding(NextCut(ca.key, 1), Null));
          } else {
            FindOn(hash, keyOf, base, s, cs, kids, t, LastCutBefore(ca.key, end), call);
          }
        }
      case Looking(c, k) =>
        if k in s.b.threads && c < |ca.key| {
          if s.b.threads[k].pc.Done? {
            LookOn(hash, keyOf, base, s, cs, kids, t, Looked(ca.key, c, s.b.threads[k].pc.result));
          } else {
            cs' := SearchOn(hash, keyOf, base, s, cs, kids, t);
          }
        }
    }
  }

  lemma AddTurnInv<R(!new)>(
      hash: string -> dword, keyOf: R -> string, base: TreeState<R>, s: TreeState<R>, cs: seq<seq<Id>>,
      kids: map<Id, seq<Id>>, t: nat, call: nat, id: Id, memory: bool)
      returns (cs': seq<seq<Id>>, kids': map<Id, seq<Id>>)
    requires TreeInv(hash, keyOf, base, s, cs, kids) && t in s.callers && call !in s.b.threads && id !in s.b.nodes
    requires !s.callers[t].pc.Begun? && !s.callers[t].pc.Cutting? && !s.callers[t].pc.Looking?
    ensures TreeInv(hash, keyOf, base, Turn(hash, s, t, call, id, memory), cs', kids')
    ensures if BucketTurn(s, t) then Closer(Turn(hash, s, t, call, id, memory).b, cs', s.b, cs) else cs' == cs
  {
    hide TreeInv, Closer, Advance, Called, CallerOk, Allocates, Returned, InsertTurn, JoinTurn, FilledWith;
    Guards(hash, keyOf, base, s, cs, kids, t);
    cs', kids' := cs, kids;
    match s.callers[t].pc {
      case Adding(end, parent) =>
        if end <= |s.callers[t].key| {
          if memory { AllocateOn(hash, keyOf, base, s, cs, kids, t, call, id); }
          else { GiveUp(hash, keyOf, base, s, cs, kids, t); }
        }
      case Inserting(end, parent, k) =>
        if k in s.b.threads && s.b.threads[k].op.Insert? {
          if s.b.threads[k].pc.Done? { ReturnOn(hash, keyOf, base, s, cs, kids, t); }
          else { cs', kids' := InsertOn(hash, keyOf, base, s, cs, kids, t); }
        }
      case Joining(end, q, k, phase) =>
        if k in s.b.threads && s.b.threads[k].op.Insert? { kids' := JoinOn(hash, keyOf, base, s, cs, kids, t); }
      case Filling(node) =>
        if node in s.held && s.held[node].Empty? { FillOn(hash, keyOf, base, s, cs, kids, t, node); }
        else { RefusedOn(hash, keyOf, base, s, cs, kids, t); }
      case Filled(node) => FilledOn(hash, keyOf, base, s, cs, kids, t, node);
      case Ended(_) =>
    }
  }

  /** Every step of every caller keeps the invariant; one in the bucket layer brings the end closer there. */
  lemma TurnInv<R(!new)>(
      hash: string -> dword, keyOf: R -> string, base: TreeState<R>, s: TreeState<R>, cs: seq<seq<Id>>,
      kids: map<Id, seq<Id>>, t: nat, call: nat, id: Id, memory: bool)
      returns (cs': seq<seq<Id>>, kids': map<Id, seq<Id>>)
    requires TreeInv(hash, keyOf, base, s, cs, kids) && t in s.callers && call !in s.b.threads && id !in s.b.nodes
    ensures TreeInv(hash, keyOf, base, Turn(hash, s, t, call, id, memory), cs', kids')
    ensures if BucketTurn(s, t) then Closer(Turn(hash, s, t, call, id, memory).b, cs', s.b, cs) else cs' == cs
  {
    hide TreeInv, Turn, Closer;
    if s.callers[t].pc.Begun? || s.callers[t].pc.Cutting? || s.callers[t].pc.Looking? {
      cs' := SearchTurnInv(hash, keyOf, base, s, cs, kids, t, call, id, memory);
      kids' := kids;
    } else {
      cs', kids' := AddTurnInv(hash, keyOf, base, s, cs, kids, t, call, id, memory);
    }
  }

  lemma TreeStepInv<R(!new)>(
      hash: string -> dword, keyOf: R -> string, base: TreeState<R>, s: TreeState<R>, cs: seq<seq<Id>>,
      kids: map<Id, seq<Id>>, s': TreeState<R>) returns (cs': seq<seq<Id>>, kids': map<Id, seq<Id>>)
    requires TreeInv(hash, keyOf, base, s, cs, kids) && TreeStep(hash, s, s')
    ensures TreeInv(hash, keyOf, base, s', cs', kids')
  {
    hide TreeInv, Turn;
    var t, call, id, memory :|
      && t in s.callers && s.b.nBuckets > 0 && call !in s.b.threads && id !in s.b.nodes
      && s' == Turn(hash, s, t, call, id, memory);
    cs', kids' := TurnInv(hash, keyOf, base, s, cs, kids, t, call, id, memory);
  }

  /** No memory for the node. */
  lemma GiveUp<R(!new)>(
      hash: string -> dword, keyOf: R -> string, base: TreeState<R>, s: TreeState<R>, cs: seq<seq<Id>>,
      kids: map<Id, seq<Id>>, t: nat)
    requires TreeInv(hash, keyOf, base, s, cs, kids) && t in s.callers && s.callers[t].pc.Adding?
    ensures TreeInv(hash, keyOf, base, Go(s, t, Ended(HashTables.OutOfMemory)), cs, kids)
  {
    hide TreeInv, BucketOk;
    CallerIsOk(hash, keyOf, base, s, cs, kids, t);
    IdleRole(s.b, s.callers[t], s.b, s.callers[t].(pc := Ended(HashTables.OutOfMemory)));
    MoveOn(hash, keyOf, base, s, cs, kids, t, Ended(HashTables.OutOfMemory));
  }

  lemma JoinOn<R(!new)>(
      hash: string -> dword, keyOf: R -> string, base: TreeState<R>, s: TreeState<R>, cs: seq<seq<Id>>,
      kids: map<Id, seq<Id>>, t: nat) returns (kids': map<Id, seq<Id>>)
    requires TreeInv(hash, keyOf, base, s, cs, kids) && t in s.callers && s.callers[t].pc.Joining?
    requires s.callers[t].pc.call in s.b.threads && s.b.threads[s.callers[t].pc.call].op.Insert?
    ensures TreeInv(hash, keyOf, base, JoinTurn(s, t, s.b.threads[s.callers[t].pc.call].op.node), cs, kids')
  {
    hide TreeInv, AtJoin;
    AtJoinIs(hash, keyOf, base, s, cs, kids, t);
    kids' := kids;
    match s.callers[t].pc.phase
    case Reading =>
      PhaseOn(hash, keyOf, base, s, cs, kids, t, Storing(Read(s.first, s.callers[t].pc.above)));
    case Storing(cur) => StoreOn(hash, keyOf, base, s, cs, kids, t, cur);
    case Comparing(cur) =>
      if Read(s.first, s.callers[t].pc.above) == cur { kids' := SwapOn(hash, keyOf, base, s, cs, kids, t); }
      else { PhaseOn(hash, keyOf, base, s, cs, kids, t, Reading); }
  }
}

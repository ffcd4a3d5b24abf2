/**
 Concurrent insertion into one TREE_HASH_TABLE: what holds in every run.
 */
module SharedTreeRuns {
  import opened HashKeys
  import HashTables
  import opened Opening
  import TreeForests
  import opened SharedCalls
  import opened SharedInsert
  import opened SharedTree
  import opened SharedTreeSteps
  import opened TreeFamily
  import opened TreePaths
  import opened Words

  /** A quiescent table that is sound in both views, and insertions about to begin on it. */
  ghost predicate TreeInit<R(!new)>(hash: string -> dword, keyOf: R -> string, s: TreeState<R>) {
    && Init(TreeForests.PathKeys(hash), s.b) && s.b.threads == map[]
    && Rooted(s.b, s.parent) && (exists kids :: Lists(s, kids) && AllJoined(s, kids))
    && (forall id | id in s.b.table ::
          id in s.held && id in s.b.nodes && (s.held[id].Held? ==> keyOf(s.held[id].r) == s.b.nodes[id].key))
    && (forall id :: s.refs[id] == if HadRecord(s, id) then 1 else 0)
    && s.giver == map[]
    && (forall t | t in s.callers ::
          s.callers[t].pc.Begun? && s.callers[t].key != "" && keyOf(s.callers[t].record) == s.callers[t].key)
  }

  /** The table Initialize makes: n empty buckets. */
  ghost function NewTree<R>(n: nat, callers: map<nat, Caller<R>>): TreeState<R> {
    TreeState(State(n, map[], map[], map[], multiset{}, 0, {}),
              map[], map[], map[], map[], multiset{}, callers, map[])
  }

  /** Insertions can begin on a new table. */
  lemma NewTreeInit<R(!new)>(hash: string -> dword, keyOf: R -> string, n: nat, callers: map<nat, Caller<R>>)
    requires n > 0
    requires forall t | t in callers ::
      callers[t].pc.Begun? && callers[t].key != "" && keyOf(callers[t].record) == callers[t].key
    ensures TreeInit(hash, keyOf, NewTree(n, callers))
  {
    var s := NewTree(n, callers);
    var ops := TreeForests.PathKeys(hash);
    var cs := seq(n, _ => []);
    assert TableOk(ops, n, s.b.mem, s.b.nodes, s.b.table, cs);
    assert Lawful(ops);
    assert Lists(s, map[]) && AllJoined(s, map[]);
  }

  lemma TreeInitInv<R(!new)>(hash: string -> dword, keyOf: R -> string, s: TreeState<R>)
    returns (cs: seq<seq<Id>>, kids: map<Id, seq<Id>>)
    requires TreeInit(hash, keyOf, s)
    ensures TreeInv(hash, keyOf, s, s, cs, kids)
  {
    hide IsInv, ChainOk, Rooted, Lists, AllJoined, Lawful;
    cs := InitInv(TreeForests.PathKeys(hash), s.b);
    kids :| Lists(s, kids) && AllJoined(s, kids);
    forall id ensures Counted(s, id) {
      assert !Awaited(s, id);
    }
  }

  /** A run: some interleaving of the callers' steps. */
  ghost predicate TreeRun<R(!new)>(hash: string -> dword, keyOf: R -> string, run: seq<TreeState<R>>) {
    && |run| > 0 && TreeInit(hash, keyOf, run[0])
    && forall k | 0 <= k < |run| - 1 :: TreeStep(hash, run[k], run[k + 1])
  }

  lemma {:induction false} TreeRunInv<R(!new)>(hash: string -> dword, keyOf: R -> string, run: seq<TreeState<R>>)
    returns (cs: seq<seq<Id>>, kids: map<Id, seq<Id>>)
    requires TreeRun(hash, keyOf, run)
    ensures TreeInv(hash, keyOf, run[0], run[|run| - 1], cs, kids)
    decreases |run|
  {
    hide TreeInit, TreeInv, TreeStep;
    if |run| == 1 {
      cs, kids := TreeInitInv(hash, keyOf, run[0]);
    } else {
      var before := run[..|run| - 1];
      assert TreeRun(hash, keyOf, before) by {
        forall k | 0 <= k < |before| - 1 ensures TreeStep(hash, before[k], before[k + 1]) {
          assert TreeStep(hash, run[k], run[k + 1]);
        }
      }
      cs, kids := TreeRunInv(hash, keyOf, before);
      assert TreeStep(hash, run[|run| - 2], run[|run| - 2 + 1]);
      cs, kids := TreeStepInv(hash, keyOf, run[0], run[|run| - 2], cs, kids, run[|run| - 1]);
    }
  }

  ghost predicate HasNode<R>(s: TreeState<R>, path: string) {
    exists id :: NodeAt(s.b, id, path)
  }

  /** Wherever the path of a node can be cut there is a node for the front part. */
  lemma {:induction false} AncestorThere<R>(s: TreeState<R>, id: Id, c: nat)
    requires Rooted(s.b, s.parent) && id in s.b.table
    requires id in s.b.nodes && IsCut(s.b.nodes[id].key, c)
    ensures HasNode(s, s.b.nodes[id].key[..c])
    decreases |s.b.nodes[id].key|
  {
    var path := s.b.nodes[id].key;
    var q := Read(s.parent, id).id;
    assert NodeAt(s.b, q, path[..LastCut(path)]);
    if c < LastCut(path) {
      assert s.b.nodes[q].key[..c] == path[..c];
      AncestorThere(s, q, c);
    }
  }

  ghost predicate AtRest<R>(s: TreeState<R>) {
    forall t | t in s.callers :: s.callers[t].pc.Ended?
  }

  /** Each child list is exactly the nodes with this parent. */
  ghost predicate Families<R>(s: TreeState<R>, kids: map<Id, seq<Id>>) {
    && Lists(s, kids)
    && forall id, q | id in s.b.table && q in kids :: id in kids[q] <==> Read(s.parent, id) == To(q)
  }

  /** In every state of every interleaving the buckets are sorted by hash and free of duplicates, no node is
      without its ancestors, and every child list is well linked.  Once all callers are done, the child lists
      are complete, and the count of the nodes and the references on the records are right. */
  lemma BothViewsSound<R(!new)>(hash: string -> dword, keyOf: R -> string, run: seq<TreeState<R>>)
    requires TreeRun(hash, keyOf, run)
    ensures var s := run[|run| - 1];
      && (exists cs :: TableOk(TreeForests.PathKeys(hash), s.b.nBuckets, s.b.mem, s.b.nodes, s.b.table, cs))
      && (forall id, c: nat | id in s.b.table && id in s.b.nodes && IsCut(s.b.nodes[id].key, c) ::
            HasNode(s, s.b.nodes[id].key[..c]))
      && (exists kids :: Lists(s, kids) && AllJoined(s, kids))
      && (AtRest(s) ==>
            && s.b.nItems == |s.b.table|
            && (exists kids :: Families(s, kids))
            && forall id :: s.refs[id] == if HadRecord(s, id) then 1 else 0)
  {
    hide RecordsOk, CallersOk, Lists, AllJoined, ChainOk, IsInv, Families;
    var s := run[|run| - 1];
    var cs, kids := TreeRunInv(hash, keyOf, run);
    assert Opened(0);
    forall id, c: nat | id in s.b.table && id in s.b.nodes && IsCut(s.b.nodes[id].key, c)
      ensures HasNode(s, s.b.nodes[id].key[..c])
    {
      AncestorThere(s, id, c);
    }
    if AtRest(s) {
      RestingTree(s, kids);
      RestingCount(hash, keyOf, run[0], s, cs);
      RestingRecords(keyOf, run[0], s);
    }
  }

  lemma RestingTree<R>(s: TreeState<R>, kids: map<Id, seq<Id>>)
    requires AtRest(s) && Lists(s, kids) && AllJoined(s, kids)
    ensures Families(s, kids)
  {
    forall id, q | id in s.b.table && q in kids ensures id in kids[q] <==> Read(s.parent, id) == To(q) {
      assert Joined(s, kids, id);
      if id in kids[q] {
        var j :| 0 <= j < |kids[q]| && kids[q][j] == id;
        ListOf(s, kids, q, j);
      }
    }
  }

  lemma RestingCount<R(!new)>(
      hash: string -> dword, keyOf: R -> string, base: TreeState<R>, s: TreeState<R>, cs: seq<seq<Id>>)
    requires AtRest(s) && Inv(TreeForests.PathKeys(hash), base.b.table, s.b, cs) && CallersOk(keyOf, s)
    ensures s.b.nItems == |s.b.table|
  {
    hide CallerOk, CallsApart, ChainOk, TableOk, InTable, RefsOk, OwnersOk, ThreadsOk, Lawful;
    assert Opened(0);
    assert UncountedThreads(s.b.threads) == {};
  }

  lemma RestingRecords<R(!new)>(keyOf: R -> string, base: TreeState<R>, s: TreeState<R>)
    requires AtRest(s) && RecordsOk(keyOf, base, s)
    ensures forall id :: s.refs[id] == if HadRecord(s, id) then 1 else 0
  {
    forall id ensures s.refs[id] == if HadRecord(s, id) then 1 else 0 {
      assert Counted(s, id) && !Awaited(s, id);
    }
  }

  /** Nodes are made for the keys of the callers and their ancestors only; and once all callers are done, there is
      one for each of these, whatever the interleaving, unless memory ran out. */
  lemma PathsAreWanted<R(!new)>(hash: string -> dword, keyOf: R -> string, run: seq<TreeState<R>>, path: string)
    requires TreeRun(hash, keyOf, run)
    ensures var s := run[|run| - 1];
      && (HasNode(s, path) ==> HasNode(run[0], path) || Wanted(run[0].callers, path))
      && (HasNode(run[0], path) ==> HasNode(s, path))
      && (AtRest(s) && (forall t | t in s.callers :: !s.callers[t].pc.status.OutOfMemory?) ==>
            Wanted(run[0].callers, path) ==> HasNode(s, path))
  {
    hide TreeInv, HasNode, Wanted, NodeAt;
    var s := run[|run| - 1];
    var cs, kids := TreeRunInv(hash, keyOf, run);
    KnownPaths(hash, keyOf, run[0], s, cs, kids, path);
    if AtRest(s) && Wanted(run[0].callers, path) && forall t | t in s.callers :: !s.callers[t].pc.status.OutOfMemory? {
      WantedThere(hash, keyOf, run[0], s, cs, kids, path);
    }
  }

  lemma WantedThere<R(!new)>(
      hash: string -> dword, keyOf: R -> string, base: TreeState<R>, s: TreeState<R>, cs: seq<seq<Id>>,
      kids: map<Id, seq<Id>>, path: string)
    requires TreeInv(hash, keyOf, base, s, cs, kids) && AtRest(s) && Wanted(base.callers, path)
    requires forall t | t in s.callers :: !s.callers[t].pc.status.OutOfMemory?
    ensures HasNode(s, path)
  {
    hide TreeInv, Rooted;
    var t :| t in base.callers && Under(path, base.callers[t].key);
    SameCaller(hash, keyOf, base, s, cs, kids, t);
    EndedCaller(hash, keyOf, base, s, cs, kids, t);
    var id :| NodeAt(s.b, id, s.callers[t].key);
    if path != s.callers[t].key { AncestorThere(s, id, |path|); }
  }

  lemma SameCaller<R(!new)>(
      hash: string -> dword, keyOf: R -> string, base: TreeState<R>, s: TreeState<R>, cs: seq<seq<Id>>,
      kids: map<Id, seq<Id>>, t: nat)
    requires TreeInv(hash, keyOf, base, s, cs, kids) && t in base.callers
    ensures t in s.callers && s.callers[t].key == base.callers[t].key
    ensures s.callers[t].record == base.callers[t].record
  {
    hide Lists, AllJoined, Rooted, CallersOk, RecordsOk, ChainOk;
    assert Opened(0);
  }

  lemma KnownPaths<R(!new)>(
      hash: string -> dword, keyOf: R -> string, base: TreeState<R>, s: TreeState<R>, cs: seq<seq<Id>>,
      kids: map<Id, seq<Id>>, path: string)
    requires TreeInv(hash, keyOf, base, s, cs, kids) && Init(TreeForests.PathKeys(hash), base.b)
    ensures HasNode(s, path) ==> HasNode(base, path) || Wanted(base.callers, path)
    ensures HasNode(base, path) ==> HasNode(s, path)
  {
    hide Lists, AllJoined, Rooted, CallerOk, CallsApart, Counted, HeldOk, ChainOk;
    assert Opened(0);
    if HasNode(base, path) {
      var id :| NodeAt(base.b, id, path);
      assert NodeAt(s.b, id, path);
    }
    if HasNode(s, path) {
      var id :| NodeAt(s.b, id, path);
      if id in base.b.table {
        BaseKnown(hash, base.b, id);
        assert NodeAt(base.b, id, path);
      } else {
        MadeForCaller(hash, keyOf, base, s, cs, id);
      }
    }
  }

  lemma BaseKnown(hash: string -> dword, b: State<string>, id: Id)
    requires Init(TreeForests.PathKeys(hash), b) && id in b.table
    ensures id in b.nodes
  {
    var ops := TreeForests.PathKeys(hash);
    var cs :| TableOk(ops, b.nBuckets, b.mem, b.nodes, b.table, cs);
    InNodes(ops, b.nBuckets, b.mem, b.nodes, b.table, cs, id);
  }

  lemma MadeForCaller<R(!new)>(
      hash: string -> dword, keyOf: R -> string, base: TreeState<R>, s: TreeState<R>, cs: seq<seq<Id>>, id: Id)
    requires Inv(TreeForests.PathKeys(hash), base.b.table, s.b, cs) && Since(base, s) && CallsServe(s)
    requires id in s.b.table && id in s.b.nodes && id !in base.b.table
    ensures Wanted(base.callers, s.b.nodes[id].key)
  {
    BucketIsOk(hash, base.b.table, s.b, cs);
    assert HasOwner(s.b.threads, id) by { assert Opened(0); }
    var k :| k in s.b.threads && s.b.threads[k].op == Insert(id);
    assert Reports(TreeForests.PathKeys(hash), s.b, s.b.threads[k]);
    var t :| t in s.callers && Under(s.b.threads[k].key, s.callers[t].key);
    assert t in base.callers;
  }

  /** A caller that is done, with or without success, leaves a record under its key, unless memory ran out. */
  lemma EndedCaller<R(!new)>(
      hash: string -> dword, keyOf: R -> string, base: TreeState<R>, s: TreeState<R>, cs: seq<seq<Id>>,
      kids: map<Id, seq<Id>>, t: nat)
    requires TreeInv(hash, keyOf, base, s, cs, kids) && t in s.callers
    requires s.callers[t].pc.Ended? && !s.callers[t].pc.status.OutOfMemory?
    ensures Rooted(s.b, s.parent) && !s.callers[t].pc.status.InvalidArgument?
    ensures exists id :: NodeAt(s.b, id, s.callers[t].key) && HadRecord(s, id)
    ensures s.callers[t].pc.status.Ok? ==> exists id :: Gave(s, t, id) && NodeAt(s.b, id, s.callers[t].key)
  {
    hide Lists, AllJoined, Rooted, CallsApart, CallsServe, Counted, HeldOk, ChainOk;
    assert Opened(0);
    assert CallerOk(keyOf, s, t);
    if s.callers[t].pc.status.Ok? {
      var id :| Gave(s, t, id);
      assert GiverOk(s, id);
      assert NodeAt(s.b, id, s.callers[t].key) && HadRecord(s, id);
    } else {
      var id :| NodeAt(s.b, id, s.callers[t].key) && id in s.held && s.held[id].Held?;
      assert HadRecord(s, id);
    }
  }

  /** A key has one node. */
  lemma SameNode<R(!new)>(
      hash: string -> dword, keyOf: R -> string, base: TreeState<R>, s: TreeState<R>, cs: seq<seq<Id>>,
      kids: map<Id, seq<Id>>, a: Id, b: Id, path: string)
    requires TreeInv(hash, keyOf, base, s, cs, kids) && NodeAt(s.b, a, path) && NodeAt(s.b, b, path)
    ensures a == b
  {
    hide Lists, AllJoined, Rooted, CallersOk, RecordsOk, ChainOk;
    assert Opened(0);
    KeyIsUnique(TreeForests.PathKeys(hash), s.b.nBuckets, s.b.mem, s.b.nodes, s.b.table, cs, a, b);
  }

  /** Among any number of concurrent inserts of one key, one at most succeeds; none does if the key had a record
      before, and that record stays.  When the callers are done and none of them lacked memory, a key that had no
      record has that of exactly one of them, and all others were told that it exists. */
  lemma OneRecordPerKey<R(!new)>(
      hash: string -> dword, keyOf: R -> string, run: seq<TreeState<R>>, t: nat) returns (id: Id, winner: nat)
    requires TreeRun(hash, keyOf, run) && t in run[|run| - 1].callers
    requires var s := run[|run| - 1];
      && AtRest(s) && !s.callers[t].pc.status.OutOfMemory?
    ensures var s := run[|run| - 1]; var key := s.callers[t].key;
      && NodeAt(s.b, id, key) && id in s.held && s.held[id].Held?
      && (forall n | NodeAt(s.b, n, key) :: n == id)
      && if HadRecord(run[0], id) then
           && s.held[id] == run[0].held[id]
           && forall u | u in s.callers && s.callers[u].key == key :: !s.callers[u].pc.status.Ok?
         else
           && winner in s.callers && s.callers[winner].key == key && s.callers[winner].pc == Ended(HashTables.Ok)
           && s.held[id] == Held(s.callers[winner].record)
           && forall u | u in s.callers && s.callers[u].key == key && u != winner :: !s.callers[u].pc.status.Ok?
  {
    hide TreeInv, CallerOk;
    var s := run[|run| - 1];
    var key := s.callers[t].key;
    var cs, kids := TreeRunInv(hash, keyOf, run);
    EndedCaller(hash, keyOf, run[0], s, cs, kids, t);
    id :| NodeAt(s.b, id, key) && HadRecord(s, id);
    forall n | NodeAt(s.b, n, key) ensures n == id { SameNode(hash, keyOf, run[0], s, cs, kids, n, id, key); }
    Given(hash, keyOf, run[0], s, cs, kids, id);
    winner := if id in s.giver then s.giver[id] else t;
    forall u | u in s.callers && s.callers[u].key == key && s.callers[u].pc.status.Ok? ensures Gave(s, u, id) {
      EndedCaller(hash, keyOf, run[0], s, cs, kids, u);
    }
  }

  /** Where the record of a node comes from. */
  lemma Given<R(!new)>(
      hash: string -> dword, keyOf: R -> string, base: TreeState<R>, s: TreeState<R>, cs: seq<seq<Id>>,
      kids: map<Id, seq<Id>>, id: Id)
    requires TreeInv(hash, keyOf, base, s, cs, kids) && HadRecord(s, id)
    ensures HadRecord(base, id) ==> id !in s.giver && s.held[id] == base.held[id]
    ensures !HadRecord(base, id) ==> id in s.giver && GiverOk(s, id)
  {
    hide Lists, AllJoined, Rooted, CallersOk, Counted, ChainOk;
    assert Opened(0);
    assert HeldOk(keyOf, base, s, id);
  }

  // ----- Memory -----

  /** Caller t makes the step; `memory` says whether a node can be allocated. */
  ghost predicate TakesTurn<R>(hash: string -> dword, s: TreeState<R>, s': TreeState<R>, t: nat, memory: bool) {
    exists call, id ::
      && t in s.callers && s.b.nBuckets > 0 && call !in s.b.threads && id !in s.b.nodes
      && s' == Turn(hash, s, t, call, id, memory)
  }

  predicate LacksMemory<R>(ca: Caller<R>) { ca.pc == Ended(HashTables.OutOfMemory) }

  lemma CutLacksNone<R>(
      hash: string -> dword, s: TreeState<R>, t: nat, call: nat, id: Id, memory: bool, u: nat)
    requires t in s.callers && s.b.nBuckets > 0 && u in s.callers && !LacksMemory(s.callers[u])
    requires s.callers[t].pc.Begun? || s.callers[t].pc.Cutting?
    ensures var s' := Turn(hash, s, t, call, id, memory);
      u in s'.callers && (LacksMemory(s'.callers[u]) ==> u == t && s.callers[t].pc.Adding? && !memory)
  {
    hide Advance, Called, NextCut, LastCutBefore, Allocates, InsertTurn, JoinTurn, FilledWith, Returned, Looked;
  }

  lemma LookLacksNone<R>(
      hash: string -> dword, s: TreeState<R>, t: nat, call: nat, id: Id, memory: bool, u: nat)
    requires t in s.callers && s.b.nBuckets > 0 && u in s.callers && !LacksMemory(s.callers[u])
    requires s.callers[t].pc.Looking?
    ensures var s' := Turn(hash, s, t, call, id, memory);
      u in s'.callers && (LacksMemory(s'.callers[u]) ==> u == t && s.callers[t].pc.Adding? && !memory)
  {
    hide Advance, Called, NextCut, LastCutBefore, Allocates, InsertTurn, JoinTurn, FilledWith, Returned;
  }

  lemma AddLacksMemory<R>(
      hash: string -> dword, s: TreeState<R>, t: nat, call: nat, id: Id, memory: bool, u: nat)
    requires t in s.callers && s.b.nBuckets > 0 && u in s.callers && !LacksMemory(s.callers[u])
    requires s.callers[t].pc.Adding? || s.callers[t].pc.Filling? || s.callers[t].pc.Filled? || s.callers[t].pc.Ended?
    ensures var s' := Turn(hash, s, t, call, id, memory);
      u in s'.callers && (LacksMemory(s'.callers[u]) ==> u == t && s.callers[t].pc.Adding? && !memory)
  {
    hide Advance, Called, NextCut, LastCutBefore, InsertTurn, JoinTurn, Returned;
  }

  lemma InsertLacksNone<R>(
      hash: string -> dword, s: TreeState<R>, t: nat, call: nat, id: Id, memory: bool, u: nat)
    requires t in s.callers && s.b.nBuckets > 0 && u in s.callers && !LacksMemory(s.callers[u])
    requires s.callers[t].pc.Inserting?
    ensures var s' := Turn(hash, s, t, call, id, memory);
      u in s'.callers && (LacksMemory(s'.callers[u]) ==> u == t && s.callers[t].pc.Adding? && !memory)
  {
    hide Advance, Called, NextCut, LastCutBefore, Allocates, FilledWith, Looked, JoinTurn;
  }

  lemma JoinTurnLacksNone<R>(s: TreeState<R>, t: nat, node: Id, u: nat)
    requires t in s.callers && s.callers[t].pc.Joining? && u in s.callers && !LacksMemory(s.callers[u])
    ensures u in JoinTurn(s, t, node).callers && !LacksMemory(JoinTurn(s, t, node).callers[u])
  {
    hide NextCut, JoinTurn;
    var pc := JoinTurnShape(s, t, node);
  }

  lemma JoinLacksNone<R>(
      hash: string -> dword, s: TreeState<R>, t: nat, call: nat, id: Id, memory: bool, u: nat)
    requires t in s.callers && s.b.nBuckets > 0 && u in s.callers && !LacksMemory(s.callers[u])
    requires s.callers[t].pc.Joining?
    ensures var s' := Turn(hash, s, t, call, id, memory);
      u in s'.callers && (LacksMemory(s'.callers[u]) ==> u == t && s.callers[t].pc.Adding? && !memory)
  {
    hide Advance, Called, NextCut, LastCutBefore, Allocates, FilledWith, Looked, InsertTurn, Returned, JoinTurn;
    var k := s.callers[t].pc.call;
    if k in s.b.threads && s.b.threads[k].op.Insert? {
      JoinTurnLacksNone(s, t, s.b.threads[k].op.node, u);
    }
  }

  /** Only a caller that wants a node and finds no memory for it ends for lack of memory. */
  lemma TurnLacksMemory<R>(
      hash: string -> dword, s: TreeState<R>, t: nat, call: nat, id: Id, memory: bool, u: nat)
    requires t in s.callers && s.b.nBuckets > 0 && u in s.callers && !LacksMemory(s.callers[u])
    ensures var s' := Turn(hash, s, t, call, id, memory);
      u in s'.callers && (LacksMemory(s'.callers[u]) ==> u == t && s.callers[t].pc.Adding? && !memory)
  {
    hide Turn;
    match s.callers[t].pc
    case Begun => CutLacksNone(hash, s, t, call, id, memory, u);
    case Cutting(_) => CutLacksNone(hash, s, t, call, id, memory, u);
    case Looking(_, _) => LookLacksNone(hash, s, t, call, id, memory, u);
    case Inserting(_, _, _) => InsertLacksNone(hash, s, t, call, id, memory, u);
    case Joining(_, _, _, _) => JoinLacksNone(hash, s, t, call, id, memory, u);
    case _ => AddLacksMemory(hash, s, t, call, id, memory, u);
  }

  lemma StepLacksMemory<R>(hash: string -> dword, s: TreeState<R>, s': TreeState<R>, t: nat, memory: bool, u: nat)
    requires TakesTurn(hash, s, s', t, memory) && u in s.callers && !LacksMemory(s.callers[u])
    ensures u in s'.callers && (LacksMemory(s'.callers[u]) ==> u == t && s.callers[t].pc.Adding? && !memory)
  {
    hide Turn;
    var call, id :| call !in s.b.threads && id !in s.b.nodes && s' == Turn(hash, s, t, call, id, memory);
    TurnLacksMemory(hash, s, t, call, id, memory, u);
  }

  /** The caller wanted a node, and there was no memory for it: with memory the step would have been another. */
  ghost predicate Refused<R>(hash: string -> dword, s: TreeState<R>, s': TreeState<R>, t: nat) {
    && t in s.callers && s.callers[t].pc.Adding? && t in s'.callers && LacksMemory(s'.callers[t])
    && TakesTurn(hash, s, s', t, false) && !TakesTurn(hash, s, s', t, true)
  }

  lemma TurnOf<R>(hash: string -> dword, s: TreeState<R>, s': TreeState<R>) returns (t: nat, memory: bool)
    requires TreeStep(hash, s, s')
    ensures TakesTurn(hash, s, s', t, memory)
  {
    hide Turn;
    var u, call, id, m :|
      && u in s.callers && s.b.nBuckets > 0 && call !in s.b.threads && id !in s.b.nodes
      && s' == Turn(hash, s, u, call, id, m);
    t, memory := u, m;
  }

  lemma BeforeLast<R(!new)>(hash: string -> dword, keyOf: R -> string, run: seq<TreeState<R>>)
    requires TreeRun(hash, keyOf, run) && |run| > 1
    ensures var before := run[..|run| - 1];
      TreeRun(hash, keyOf, before) && before[|before| - 1] == run[|run| - 2]
    ensures TreeStep(hash, run[|run| - 2], run[|run| - 1])
  {
    hide TreeInit, TreeStep;
    var before := run[..|run| - 1];
    forall k | 0 <= k < |before| - 1 ensures TreeStep(hash, before[k], before[k + 1]) {
      assert TreeStep(hash, run[k], run[k + 1]);
    }
    assert TreeStep(hash, run[|run| - 2], run[|run| - 2 + 1]);
  }

  /** A caller that ends for lack of memory was refused a node that it wanted. */
  lemma {:induction false} OutOfMemoryMeansRefused<R(!new)>(
      hash: string -> dword, keyOf: R -> string, run: seq<TreeState<R>>, t: nat) returns (k: nat)
    requires TreeRun(hash, keyOf, run) && t in run[|run| - 1].callers && LacksMemory(run[|run| - 1].callers[t])
    ensures k < |run| - 1 && Refused(hash, run[k], run[k + 1], t)
    decreases |run|
  {
    hide TreeInv, TreeStep, TakesTurn;
    k := 0;
    if |run| > 1 {
      var s, s' := run[|run| - 2], run[|run| - 1];
      BeforeLast(hash, keyOf, run);
      SameCallers(hash, keyOf, run, t);
      if LacksMemory(s.callers[t]) {
        k := OutOfMemoryMeansRefused(hash, keyOf, run[..|run| - 1], t);
      } else {
        k := |run| - 2;
        var u, memory := TurnOf(hash, s, s');
        StepLacksMemory(hash, s, s', u, memory, t);
        if TakesTurn(hash, s, s', t, true) { StepLacksMemory(hash, s, s', t, true, t); }
      }
    }
  }

  lemma SameCallers<R(!new)>(hash: string -> dword, keyOf: R -> string, run: seq<TreeState<R>>, t: nat)
    requires TreeRun(hash, keyOf, run) && |run| > 1 && t in run[|run| - 1].callers
    ensures t in run[|run| - 2].callers
  {
    hide TreeInit, TreeStep, IsTreeInv;
    BeforeLast(hash, keyOf, run);
    var cs, kids := TreeRunInv(hash, keyOf, run);
    KnownCaller(hash, keyOf, run[0], run[|run| - 1], cs, kids, t);
    cs, kids := TreeRunInv(hash, keyOf, run[..|run| - 1]);
    SameCaller(hash, keyOf, run[0], run[|run| - 2], cs, kids, t);
  }

  lemma KnownCaller<R(!new)>(
      hash: string -> dword, keyOf: R -> string, base: TreeState<R>, s: TreeState<R>, cs: seq<seq<Id>>,
      kids: map<Id, seq<Id>>, t: nat)
    requires TreeInv(hash, keyOf, base, s, cs, kids) && t in s.callers
    ensures t in base.callers
  {
    hide Lists, AllJoined, Rooted, CallersOk, RecordsOk, ChainOk;
    assert Opened(0);
  }

  /** No step finds memory lacking. */
  ghost predicate MemoryLasts<R>(hash: string -> dword, run: seq<TreeState<R>>) {
    forall k | 0 <= k < |run| - 1 :: StepWithMemory(hash, run[k], run[k + 1])
  }

  ghost predicate StepWithMemory<R>(hash: string -> dword, s: TreeState<R>, s': TreeState<R>) {
    exists t :: TakesTurn(hash, s, s', t, true)
  }

  lemma NeverOutOfMemory<R(!new)>(hash: string -> dword, keyOf: R -> string, run: seq<TreeState<R>>, t: nat)
    requires TreeRun(hash, keyOf, run) && MemoryLasts(hash, run) && t in run[|run| - 1].callers
    ensures !LacksMemory(run[|run| - 1].callers[t])
  {
    hide TreeInit, TreeStep, TakesTurn;
    if LacksMemory(run[|run| - 1].callers[t]) {
      var k := OutOfMemoryMeansRefused(hash, keyOf, run, t);
      assert StepWithMemory(hash, run[k], run[k + 1]);
      var u :| TakesTurn(hash, run[k], run[k + 1], u, true);
      StepLacksMemory(hash, run[k], run[k + 1], u, true, t);
    }
  }

  /** With memory every insert succeeds or is told that the key has a record: when all are done, a key that had
      none has that of exactly one of its inserts, and all others were refused. */
  lemma AllKeysInserted<R(!new)>(hash: string -> dword, keyOf: R -> string, run: seq<TreeState<R>>, t: nat)
    returns (id: Id, winner: nat)
    requires TreeRun(hash, keyOf, run) && MemoryLasts(hash, run)
    requires AtRest(run[|run| - 1]) && t in run[|run| - 1].callers
    ensures var s := run[|run| - 1]; var key := s.callers[t].key;
      && NodeAt(s.b, id, key) && id in s.held && s.held[id].Held?
      && (forall n | NodeAt(s.b, n, key) :: n == id)
      && if HadRecord(run[0], id) then
           && s.held[id] == run[0].held[id]
           && forall u | u in s.callers && s.callers[u].key == key :: s.callers[u].pc == Ended(HashTables.AlreadyExists)
         else
           && winner in s.callers && s.callers[winner].key == key && s.callers[winner].pc == Ended(HashTables.Ok)
           && s.held[id] == Held(s.callers[winner].record)
           && forall u | u in s.callers && s.callers[u].key == key && u != winner ::
                s.callers[u].pc == Ended(HashTables.AlreadyExists)
  {
    hide TreeInit, TreeStep, MemoryLasts, NodeAt, HadRecord, AtRest;
    var s := run[|run| - 1];
    forall u | u in s.callers
      ensures s.callers[u].pc in {Ended(HashTables.Ok), Ended(HashTables.AlreadyExists)}
    {
      EndsWell(hash, keyOf, run, u);
    }
    assert AtRest(s) && !s.callers[t].pc.status.OutOfMemory?;
    id, winner := OneRecordPerKey(hash, keyOf, run, t);
  }

  lemma EndsWell<R(!new)>(hash: string -> dword, keyOf: R -> string, run: seq<TreeState<R>>, u: nat)
    requires TreeRun(hash, keyOf, run) && MemoryLasts(hash, run)
    requires AtRest(run[|run| - 1]) && u in run[|run| - 1].callers
    ensures run[|run| - 1].callers[u].pc in {Ended(HashTables.Ok), Ended(HashTables.AlreadyExists)}
  {
    hide TreeInit, TreeStep, IsTreeInv, MemoryLasts;
    var s := run[|run| - 1];
    NeverOutOfMemory(hash, keyOf, run, u);
    var cs, kids := TreeRunInv(hash, keyOf, run);
    assert s.callers[u].pc.Ended? && s.callers[u].pc != Ended(HashTables.OutOfMemory);
    EndedCaller(hash, keyOf, run[0], s, cs, kids, u);
  }

  /** With memory the paths are, when all inserts are done, exactly those that were there, the keys, and their
      ancestors. */
  lemma PathsAreExactly<R(!new)>(hash: string -> dword, keyOf: R -> string, run: seq<TreeState<R>>, path: string)
    requires TreeRun(hash, keyOf, run) && MemoryLasts(hash, run) && AtRest(run[|run| - 1])
    ensures HasNode(run[|run| - 1], path) <==> HasNode(run[0], path) || Wanted(run[0].callers, path)
  {
    hide TreeInit, TreeStep, MemoryLasts, HasNode, Wanted;
    var s := run[|run| - 1];
    forall u | u in s.callers ensures !s.callers[u].pc.status.OutOfMemory? {
      NeverOutOfMemory(hash, keyOf, run, u);
    }
    PathsAreWanted(hash, keyOf, run, path);
  }
}

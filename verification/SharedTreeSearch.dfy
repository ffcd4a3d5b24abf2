/**
 Concurrent insertion into one TREE_HASH_TABLE: the search for an ancestor pays.

 An insertion looks for its longest ancestor first.  Whatever happens around it, it finds one that was there
 before, and so never makes a node, not even one that would be thrown away, for an ancestor that had one.
 */
module SharedTreeSearch {
  import opened HashKeys
  import opened Opening
  import opened SharedCalls
  import opened SharedInsert
  import opened SharedTree
  import opened SharedTreeRuns
  import opened SharedTreeSteps
  import TreeForests
  import opened TreePaths
  import opened Words

  /** No cut from `end` on had a node. */
  ghost predicate NoneFrom<R>(base: TreeState<R>, key: string, end: nat) {
    forall d: nat {:trigger IsCut(key, d)} | end <= d && IsCut(key, d) :: !HasNode(base, key[..d])
  }

  /** Where the caller is, no cut from there on had a node. */
  ghost predicate Spares<R>(base: TreeState<R>, ca: Caller<R>) {
    match ca.pc
    case Cutting(end) => NoneFrom(base, ca.key, end)
    case Looking(c, _) => NoneFrom(base, ca.key, c + 1)
    case Adding(end, _) => NoneFrom(base, ca.key, end)
    case Inserting(end, _, _) => NoneFrom(base, ca.key, end)
    case Joining(end, _, _, _) => NoneFrom(base, ca.key, end)
    case _ => true
  }

  /** A call that has started saw the key if it was there before. */
  ghost predicate Saw<R>(base: TreeState<R>, th: Thread<string>) {
    HasNode(base, th.key) && !th.pc.Waiting? ==> th.sawKey
  }

  ghost predicate Sparing<R>(base: TreeState<R>, s: TreeState<R>) {
    && (forall t | t in s.callers :: Spares(base, s.callers[t]))
    && (forall k | k in s.b.threads :: Saw(base, s.b.threads[k]))
  }

  // ----- The calls -----

  lemma BaseHasKey<R(!new)>(
      hash: string -> dword, keyOf: R -> string, base: TreeState<R>, s: TreeState<R>, cs: seq<seq<Id>>,
      kids: map<Id, seq<Id>>, path: string)
    requires TreeInv(hash, keyOf, base, s, cs, kids) && HasNode(base, path)
    ensures HasKey(TreeForests.PathKeys(hash), s.b.nodes, s.b.table, path)
  {
    hide SharedTree.Lists, SharedTree.AllJoined, SharedTree.Rooted, SharedTree.CallersOk, ChainOk;
    assert Opened(0);
    var id :| NodeAt(base.b, id, path);
    assert id in s.b.table && id in s.b.nodes && s.b.nodes[id].key == path;
  }

  lemma AdvanceSaw<R(!new)>(
      hash: string -> dword, keyOf: R -> string, base: TreeState<R>, s: TreeState<R>, cs: seq<seq<Id>>,
      kids: map<Id, seq<Id>>, call: nat, k: nat)
    requires TreeInv(hash, keyOf, base, s, cs, kids) && call in s.b.threads
    requires forall k | k in s.b.threads :: Saw(base, s.b.threads[k])
    ensures var b' := Advance(TreeForests.PathKeys(hash), s.b, call); k in b'.threads ==> Saw(base, b'.threads[k])
  {
    hide IsTreeInv, Advance, HasKey, HasNode;
    var ops := TreeForests.PathKeys(hash);
    if Searching(s.b.threads[call].pc) { SearchTouches(ops, s.b, call); } else { InsertTouches(ops, s.b, call); }
    if k == call && HasNode(base, s.b.threads[call].key) {
      BaseHasKey(hash, keyOf, base, s, cs, kids, s.b.threads[call].key);
    }
  }

  /** A search that finds nothing is right about what was there before. */
  lemma NotFoundMeansNone<R(!new)>(
      hash: string -> dword, keyOf: R -> string, base: TreeState<R>, s: TreeState<R>, cs: seq<seq<Id>>,
      kids: map<Id, seq<Id>>, t: nat)
    requires TreeInv(hash, keyOf, base, s, cs, kids) && Sparing(base, s) && t in s.callers
    requires s.callers[t].pc.Looking? && s.callers[t].pc.call in s.b.threads
    requires var th := s.b.threads[s.callers[t].pc.call]; th.pc.Done? && !th.pc.result.Found?
    ensures s.callers[t].pc.cut <= |s.callers[t].key| && !HasNode(base, s.callers[t].key[..s.callers[t].pc.cut])
  {
    hide IsTreeInv, HasNode, BucketOk, LastCut;
    CallerIsOk(hash, keyOf, base, s, cs, kids, t);
    SawNothing(hash, keyOf, base, s, cs, kids, s.callers[t].pc.call);
    assert Saw(base, s.b.threads[s.callers[t].pc.call]);
  }

  lemma SawNothing<R(!new)>(
      hash: string -> dword, keyOf: R -> string, base: TreeState<R>, s: TreeState<R>, cs: seq<seq<Id>>,
      kids: map<Id, seq<Id>>, k: nat)
    requires TreeInv(hash, keyOf, base, s, cs, kids) && k in s.b.threads && s.b.threads[k].op.Find?
    requires s.b.threads[k].pc.Done? && !s.b.threads[k].pc.result.Found?
    ensures !s.b.threads[k].sawKey
  {
    hide SharedTree.Lists, SharedTree.AllJoined, SharedTree.Rooted, SharedTree.RecordsOk, SharedTree.CallersOk, ChainOk;
    assert Opened(0);
    assert ThreadOk(TreeForests.PathKeys(hash), s.b.nBuckets, s.b.mem, s.b.nodes, s.b.table, cs, s.b.threads[k]);
  }

  // ----- The steps -----

  /** What a step does to the calls. */
  ghost predicate BucketStep(hash: string -> dword, b: State<string>, b': State<string>, call: nat) {
    || b' == b
    || (b.nBuckets > 0 && exists k :: k in b.threads && b' == Advance(TreeForests.PathKeys(hash), b, k))
    || (exists op, path :: b' == Called(TreeForests.PathKeys(hash), b, call, op, path))
  }

  lemma CallsSaw<R(!new)>(
      hash: string -> dword, keyOf: R -> string, base: TreeState<R>, s: TreeState<R>, cs: seq<seq<Id>>,
      kids: map<Id, seq<Id>>, b': State<string>, call: nat)
    requires TreeInv(hash, keyOf, base, s, cs, kids) && BucketStep(hash, s.b, b', call)
    requires forall k | k in s.b.threads :: Saw(base, s.b.threads[k])
    ensures forall k | k in b'.threads :: Saw(base, b'.threads[k])
  {
    hide TreeInv, Advance, HasNode;
    if s.b.nBuckets > 0 && exists k :: k in s.b.threads && b' == Advance(TreeForests.PathKeys(hash), s.b, k) {
      var c :| c in s.b.threads && b' == Advance(TreeForests.PathKeys(hash), s.b, c);
      forall k | k in b'.threads ensures Saw(base, b'.threads[k]) {
        AdvanceSaw(hash, keyOf, base, s, cs, kids, c, k);
      }
    }
  }

  /** The next cut, and the cuts after it. */
  lemma NoneFromNext<R>(base: TreeState<R>, key: string, c: nat, e: nat)
    requires NoneFrom(base, key, c) && c <= e
    ensures NoneFrom(base, key, e)
  {
  }

  /** Without a cut below `end`, none from the first cut on had a node. */
  lemma NoneFromFirst<R>(base: TreeState<R>, key: string, end: nat)
    requires end <= |key| && key != "" && NoneFrom(base, key, end) && LastCutBefore(key, end) == 0
    ensures NoneFrom(base, key, NextCut(key, 1))
  {
  }

  /** The last cut below `end` is looked for; the ones above it had no nodes. */
  lemma NoneAbove<R>(base: TreeState<R>, key: string, end: nat)
    requires end <= |key| && NoneFrom(base, key, end)
    ensures NoneFrom(base, key, LastCutBefore(key, end) + 1)
  {
  }

  /** That a step does to t what it may, and to no other caller anything. */
  ghost predicate Spared<R>(
      hash: string -> dword, base: TreeState<R>, s: TreeState<R>, s': TreeState<R>, t: nat, call: nat)
    requires t in s.callers
  {
    && t in s'.callers && s'.callers == s.callers[t := s'.callers[t]] && Spares(base, s'.callers[t])
    && BucketStep(hash, s.b, s'.b, call)
  }

  lemma CutSpares<R>(
      hash: string -> dword, base: TreeState<R>, s: TreeState<R>, t: nat, call: nat, id: Id, memory: bool)
    requires t in s.callers && Guarded(s, t) && s.b.nBuckets > 0 && Spares(base, s.callers[t])
    requires s.callers[t].pc.Begun? || s.callers[t].pc.Cutting?
    ensures Spared(hash, base, s, Turn(hash, s, t, call, id, memory), t, call)
  {
    hide Advance, Called, Allocates, InsertTurn, JoinTurn, FilledWith, Returned, IsCut, Looked, NextCut, HasNode,
      NoneFrom;
    var ca := s.callers[t];
    if ca.pc.Begun? {
      NoneAtEnd(base, ca.key);
    } else if LastCutBefore(ca.key, ca.pc.end) == 0 {
      NoneFromFirst(base, ca.key, ca.pc.end);
    } else {
      NoneAbove(base, ca.key, ca.pc.end);
    }
  }

  lemma NoneAtEnd<R>(base: TreeState<R>, key: string)
    ensures NoneFrom(base, key, |key|)
  {
  }

  lemma LookSpares<R>(
      hash: string -> dword, base: TreeState<R>, s: TreeState<R>, t: nat, call: nat, id: Id, memory: bool)
    requires t in s.callers && Guarded(s, t) && s.b.nBuckets > 0 && Spares(base, s.callers[t])
    requires s.callers[t].pc.Looking?
    requires var th := s.b.threads[s.callers[t].pc.call];
      th.pc.Done? && !th.pc.result.Found? ==> !HasNode(base, s.callers[t].key[..s.callers[t].pc.cut])
    ensures Spared(hash, base, s, Turn(hash, s, t, call, id, memory), t, call)
  {
    hide Advance, Called, Allocates, InsertTurn, JoinTurn, FilledWith, Returned, HasNode, LastCutBefore;
    var ca := s.callers[t];
    NoneFromNext(base, ca.key, ca.pc.cut + 1, NextCut(ca.key, ca.pc.cut + 1));
    assert s.callers == s.callers[t := s.callers[t]];
  }

  lemma AddSpares<R>(
      hash: string -> dword, base: TreeState<R>, s: TreeState<R>, t: nat, call: nat, id: Id, memory: bool)
    requires t in s.callers && Guarded(s, t) && s.b.nBuckets > 0 && Spares(base, s.callers[t])
    requires s.callers[t].pc.Adding? || s.callers[t].pc.Filling? || s.callers[t].pc.Filled? || s.callers[t].pc.Ended?
    ensures Spared(hash, base, s, Turn(hash, s, t, call, id, memory), t, call)
  {
    hide Advance, InsertTurn, JoinTurn, Returned, HasNode, LastCutBefore, NextCut, NoneFrom, IsCut, Gift;
    assert s.callers == s.callers[t := s.callers[t]];
    if s.callers[t].pc.Adding? && memory {
      var ca := s.callers[t];
      assert Turn(hash, s, t, call, id, memory).b.threads
        == Called(TreeForests.PathKeys(hash), s.b, call, Insert(id), ca.key[..ca.pc.end]).threads;
    }
  }

  lemma InsertSpares<R>(
      hash: string -> dword, base: TreeState<R>, s: TreeState<R>, t: nat, call: nat, id: Id, memory: bool)
    requires t in s.callers && Guarded(s, t) && s.b.nBuckets > 0 && Spares(base, s.callers[t])
    requires s.callers[t].pc.Inserting?
    ensures Spared(hash, base, s, Turn(hash, s, t, call, id, memory), t, call)
  {
    hide Advance, Called, Allocates, JoinTurn, FilledWith, HasNode, LastCutBefore, IsCut, NoneFrom;
    var ca := s.callers[t];
    if ca.pc.end < |ca.key| { NoneFromNext(base, ca.key, ca.pc.end, NextCut(ca.key, ca.pc.end + 1)); }
    assert s.callers == s.callers[t := s.callers[t]];
  }

  lemma AfterSpares<R>(base: TreeState<R>, ca: Caller<R>, end: nat, node: Id)
    requires end <= |ca.key| && NoneFrom(base, ca.key, end)
    ensures Spares(base, ca.(pc := After(ca.key, end, node)))
  {
    hide HasNode, IsCut, NoneFrom, NextCut;
    if end < |ca.key| { NoneFromNext(base, ca.key, end, NextCut(ca.key, end + 1)); }
  }

  lemma JoinTurnSpares<R>(base: TreeState<R>, s: TreeState<R>, t: nat, node: Id)
    requires t in s.callers && s.callers[t].pc.Joining? && s.callers[t].pc.end <= |s.callers[t].key|
    requires Spares(base, s.callers[t])
    ensures var s' := JoinTurn(s, t, node);
      t in s'.callers && s'.callers == s.callers[t := s'.callers[t]] && Spares(base, s'.callers[t]) && s'.b == s.b
  {
    hide NoneFrom, After, JoinTurn;
    var pc := JoinTurnShape(s, t, node);
    AfterSpares(base, s.callers[t], s.callers[t].pc.end, node);
  }

  lemma JoinSpares<R>(
      hash: string -> dword, base: TreeState<R>, s: TreeState<R>, t: nat, call: nat, id: Id, memory: bool)
    requires t in s.callers && Guarded(s, t) && s.b.nBuckets > 0 && Spares(base, s.callers[t])
    requires s.callers[t].pc.Joining?
    ensures Spared(hash, base, s, Turn(hash, s, t, call, id, memory), t, call)
  {
    hide Turn, JoinTurn, Advance, Spares;
    TurnJoins(hash, s, t, call, id, memory);
    JoinTurnSpares(base, s, t, s.b.threads[s.callers[t].pc.call].op.node);
  }

  lemma TurnSpares<R(!new)>(
      hash: string -> dword, keyOf: R -> string, base: TreeState<R>, s: TreeState<R>, cs: seq<seq<Id>>,
      kids: map<Id, seq<Id>>, s': TreeState<R>)
    requires TreeInv(hash, keyOf, base, s, cs, kids) && Sparing(base, s) && TreeStep(hash, s, s')
    ensures Sparing(base, s')
  {
    hide IsTreeInv, Turn, Saw, BucketStep, Spares;
    var t, call, id, memory :|
      && t in s.callers && s.b.nBuckets > 0 && call !in s.b.threads && id !in s.b.nodes
      && s' == Turn(hash, s, t, call, id, memory);
    Guards(hash, keyOf, base, s, cs, kids, t);
    match s.callers[t].pc {
      case Begun => CutSpares(hash, base, s, t, call, id, memory);
      case Cutting(_) => CutSpares(hash, base, s, t, call, id, memory);
      case Looking(_, k) =>
        if s.b.threads[k].pc.Done? && !s.b.threads[k].pc.result.Found? {
          NotFoundMeansNone(hash, keyOf, base, s, cs, kids, t);
        }
        LookSpares(hash, base, s, t, call, id, memory);
      case Inserting(_, _, _) => InsertSpares(hash, base, s, t, call, id, memory);
      case Joining(_, _, _, _) => JoinSpares(hash, base, s, t, call, id, memory);
      case _ => AddSpares(hash, base, s, t, call, id, memory);
    }
    CallsSaw(hash, keyOf, base, s, cs, kids, s'.b, call);
  }

  lemma {:induction false} RunSpares<R(!new)>(hash: string -> dword, keyOf: R -> string, run: seq<TreeState<R>>)
    requires TreeRun(hash, keyOf, run)
    ensures Sparing(run[0], run[|run| - 1])
    decreases |run|
  {
    hide TreeStep, Saw, IsTreeInv;
    if |run| > 1 {
      BeforeLast(hash, keyOf, run);
      RunSpares(hash, keyOf, run[..|run| - 1]);
      var cs, kids := TreeRunInv(hash, keyOf, run[..|run| - 1]);
      TurnSpares(hash, keyOf, run[0], run[|run| - 2], cs, kids, run[|run| - 1]);
    }
  }

  /** In every state of every run, an insertion is about to make, or has made, a node only for its key itself and for
      ancestors that had none when the insertions began. */
  lemma OnlyMissingNodesMade<R(!new)>(hash: string -> dword, keyOf: R -> string, run: seq<TreeState<R>>, t: nat)
    requires TreeRun(hash, keyOf, run) && t in run[|run| - 1].callers
    requires var pc := run[|run| - 1].callers[t].pc; pc.Adding? || pc.Inserting? || pc.Joining?
    ensures var ca := run[|run| - 1].callers[t];
      ca.pc.end == |ca.key| || (ca.pc.end < |ca.key| && !HasNode(run[0], ca.key[..ca.pc.end]))
  {
    hide TreeInit, TreeStep, HasNode, LastCut, BucketOk;
    RunSpares(hash, keyOf, run);
    var cs, kids := TreeRunInv(hash, keyOf, run);
    var s := run[|run| - 1];
    CallerIsOk(hash, keyOf, run[0], s, cs, kids, t);
    assert Spares(run[0], s.callers[t]);
    var ca := s.callers[t];
    assert Stop(ca.key, ca.pc.end);
  }
}

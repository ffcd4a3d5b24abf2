/**
 Why the retry loop of InsertRecord ends: every step of every thread brings all of them closer to the end.

 A retry costs a thread its walk, but it is made only by a thread whose view was stale, and a view becomes stale
 only when another thread publishes its node, which every thread does at most once.
 */
module SharedProgress {
  import opened HashKeys
  import opened Opening
  import opened SharedInsert
  import opened Words

  // ----- The measure: publications to come, stale views, steps to go -----

  /** The inserters that may still publish their node. */
  function Unpublished<K>(threads: map<nat, Thread<K>>): set<nat> {
    set t | t in threads && threads[t].op.Insert? && !threads[t].pc.Done? && !HasPublished(threads[t].pc)
  }

  /** What the thread read from the cell it stands at is no longer there. */
  predicate IsStale(mem: map<Loc, Ptr>, pc: Pc) {
    (pc.Walking? || pc.Linking? || pc.Swapping?) && Load(mem, pc.prev) != pc.cur
  }

  function Stale<K>(mem: map<Loc, Ptr>, threads: map<nat, Thread<K>>): set<nat> {
    set t | t in threads && IsStale(mem, threads[t].pc)
  }

  function IndexIn(c: seq<Id>, id: Id): (j: nat)
    ensures j <= |c| && (j < |c| ==> c[j] == id) && forall k | 0 <= k < j :: c[k] != id
  {
    if c == [] || c[0] == id then 0 else IndexIn(c[1..], id) + 1
  }

  /** An upper bound for the steps of a thread that need not retry. */
  function StepsLeft(pc: Pc, c: seq<Id>): nat {
    match pc
    case Waiting => |c| + 6
    case Start => |c| + 5
    case Walking(_, cur) => 4 + if cur.To? then |c| - IndexIn(c, cur.id) else 0
    case Linking(_, _) => 3
    case Swapping(_, _) => 2
    case Published => 2
    case Referenced => 1
    case Done(_) => 0
  }

  function Left<K>(th: Thread<K>, cs: seq<seq<Id>>): nat
    requires cs != []
  {
    StepsLeft(th.pc, cs[th.hash % |cs|])
  }

  ghost function Sum<K>(threads: map<nat, Thread<K>>, cs: seq<seq<Id>>): nat
    requires cs != []
    decreases |threads|
  {
    if threads == map[] then 0
    else
      var t :| t in threads;
      Left(threads[t], cs) + Sum(threads - {t}, cs)
  }

  lemma {:induction false} SumOf<K>(threads: map<nat, Thread<K>>, cs: seq<seq<Id>>, t: nat)
    requires cs != [] && t in threads
    ensures Sum(threads, cs) == Left(threads[t], cs) + Sum(threads - {t}, cs)
    decreases |threads|
  {
    var u :| u in threads && Sum(threads, cs) == Left(threads[u], cs) + Sum(threads - {u}, cs);
    if u != t {
      SumOf(threads - {u}, cs, t);
      SumOf(threads - {t}, cs, u);
      assert threads - {u} - {t} == threads - {t} - {u};
    }
  }

  lemma SumUpdated<K>(threads: map<nat, Thread<K>>, cs: seq<seq<Id>>, t: nat, th: Thread<K>)
    requires cs != [] && t in threads
    ensures Sum(threads[t := th], cs) == Sum(threads, cs) - Left(threads[t], cs) + Left(th, cs)
  {
    SumOf(threads, cs, t);
    SumOf(threads[t := th], cs, t);
    assert threads[t := th] - {t} == threads - {t};
  }

  /** The measure of one state is smaller than that of another. */
  ghost predicate Closer<K>(s': State<K>, cs': seq<seq<Id>>, s: State<K>, cs: seq<seq<Id>>)
    requires cs != [] && cs' != []
  {
    var u, u' := |Unpublished(s.threads)|, |Unpublished(s'.threads)|;
    var v, v' := |Stale(s.mem, s.threads)|, |Stale(s'.mem, s'.threads)|;
    u' < u || (u' == u && (v' < v || (v' == v && Sum(s'.threads, cs') < Sum(s.threads, cs))))
  }

  // ----- How one thread's move shows -----

  lemma UnpublishedMoves<K>(threads: map<nat, Thread<K>>, threads': map<nat, Thread<K>>, t: nat)
    requires t in threads && t in threads' && threads' == threads[t := threads'[t]]
    requires t in Unpublished(threads') ==> t in Unpublished(threads)
    ensures |Unpublished(threads')| <= |Unpublished(threads)|
  {
    var U, U' := Unpublished(threads), Unpublished(threads');
    assert U' == if t in U && t !in U' then U - {t} else U;
  }

  lemma StaleMoves<K>(s: State<K>, s': State<K>, t: nat)
    requires t in s.threads && t in s'.threads && s'.threads == s.threads[t := s'.threads[t]]
    requires forall u | u in s.threads && u != t :: IsStale(s'.mem, s.threads[u].pc) == IsStale(s.mem, s.threads[u].pc)
    requires IsStale(s'.mem, s'.threads[t].pc) ==> IsStale(s.mem, s.threads[t].pc)
    ensures |Stale(s'.mem, s'.threads)| <= |Stale(s.mem, s.threads)|
    ensures IsStale(s.mem, s.threads[t].pc) && !IsStale(s'.mem, s'.threads[t].pc) ==>
              |Stale(s'.mem, s'.threads)| < |Stale(s.mem, s.threads)|
  {
    hide IsStale;
    var V, V' := Stale(s.mem, s.threads), Stale(s'.mem, s'.threads);
    assert V' == if t in V && t !in V' then V - {t} else V;
  }

  /** Thread t moves on without publishing; the others see the memory as they did. */
  lemma MoveIsCloser<K>(s: State<K>, s': State<K>, cs: seq<seq<Id>>, t: nat)
    requires cs != [] && t in s.threads && t in s'.threads && s'.threads == s.threads[t := s'.threads[t]]
    requires s'.threads[t].op == s.threads[t].op && s'.threads[t].hash == s.threads[t].hash
    requires forall u | u in s.threads && u != t :: IsStale(s'.mem, s.threads[u].pc) == IsStale(s.mem, s.threads[u].pc)
    requires t in Unpublished(s'.threads) ==> t in Unpublished(s.threads)
    requires IsStale(s'.mem, s'.threads[t].pc) ==> IsStale(s.mem, s.threads[t].pc)
    requires Left(s'.threads[t], cs) < Left(s.threads[t], cs)
          || (IsStale(s.mem, s.threads[t].pc) && !IsStale(s'.mem, s'.threads[t].pc))
    ensures Closer(s', cs, s, cs)
  {
    SumUpdated(s.threads, cs, t, s'.threads[t]);
    UnpublishedMoves(s.threads, s'.threads, t);
    StaleMoves(s, s', t);
    hide IsStale, Left, Sum, Unpublished, Stale;
  }

  /** Thread t publishes its node. */
  lemma PublishIsCloser<K>(s: State<K>, s': State<K>, cs: seq<seq<Id>>, cs': seq<seq<Id>>, t: nat)
    requires cs != [] && cs' != [] && t in s.threads && t in s'.threads && s'.threads == s.threads[t := s'.threads[t]]
    requires t in Unpublished(s.threads) && t !in Unpublished(s'.threads)
    ensures Closer(s', cs', s, cs)
  {
    assert Unpublished(s'.threads) == Unpublished(s.threads) - {t};
  }

  lemma IndexOfPosition(c: seq<Id>, q: nat)
    requires q < |c| && forall a, b | 0 <= a < b < |c| :: c[a] != c[b]
    ensures IndexIn(c, c[q]) == q
  {
  }

  /** One link of the walk, from a node that is still in the chain, wherever the thread came from. */
  lemma LinkFollowed<K>(ops: KeyOps<K>, n: nat, mem: map<Loc, Ptr>, nodes: map<Id, Node<K>>, i: nat, c: seq<Id>,
                        th: Thread<K>, p: nat, q: nat)
    requires n > 0 && ChainOk(ops, n, mem, nodes, i, c) && th.pc.Walking? && At(ops, nodes, th, i, c, p, q)
    ensures th.pc.cur.To? ==> th.pc.cur.id in nodes
    ensures th.pc.cur.To? ==>
      StepsLeft(Walking(Next(th.pc.cur.id), Load(mem, Next(th.pc.cur.id))), c) < StepsLeft(th.pc, c)
  {
    hide ChainPlaced, Passed, HasKeyFrom;
    if th.pc.cur.To? {
      IndexOfPosition(c, q);
      assert LocAt(i, c, q + 1) == Next(c[q]);
      assert Load(mem, LocAt(i, c, q + 1)) == PtrAt(c, q + 1);
      if q + 1 < |c| { IndexOfPosition(c, q + 1); }
    }
  }

  lemma PositionOf<K(!new)>(
      ops: KeyOps<K>, base: set<Id>, s: State<K>, cs: seq<seq<Id>>, t: nat) returns (p: nat, q: nat)
    requires Inv(ops, base, s, cs) && t in s.threads
    ensures var i := s.threads[t].hash % s.nBuckets;
      ChainOk(ops, s.nBuckets, s.mem, s.nodes, i, cs[i]) && At(ops, s.nodes, s.threads[t], i, cs[i], p, q)
  {
    hide At, OwnersOk, CountOk, RefsOk, ResultOk, OwnNodeOk;
    assert Opened(0);
    var i := s.threads[t].hash % s.nBuckets;
    assert ThreadOk(ops, s.nBuckets, s.mem, s.nodes, s.table, cs, s.threads[t]) &&
      ChainOk(ops, s.nBuckets, s.mem, s.nodes, i, cs[i]);
    p, q :| At(ops, s.nodes, s.threads[t], i, cs[i], p, q);
  }

  lemma WalkGoesOn<K(!new)>(ops: KeyOps<K>, base: set<Id>, s: State<K>, cs: seq<seq<Id>>, t: nat)
    requires Inv(ops, base, s, cs) && t in s.threads && s.threads[t].pc.Walking?
    ensures var th := s.threads[t]; var pc' := Advance(ops, s, t).threads[t].pc;
      && (th.pc.cur.To? ==> th.pc.cur.id in s.nodes)
      && StepsLeft(pc', cs[th.hash % |cs|]) < StepsLeft(th.pc, cs[th.hash % |cs|])
      && (IsStale(s.mem, pc') ==> IsStale(s.mem, th.pc))
      && !HasPublished(pc')
  {
    var th := s.threads[t];
    var i := th.hash % s.nBuckets;
    var p, q := PositionOf(ops, base, s, cs, t);
    LinkFollowed(ops, s.nBuckets, s.mem, s.nodes, i, cs[i], th, p, q);
    hide ChainOk, At, IsInv;
  }

  // ----- The steps -----

  /** A step that leaves the memory as it is. */
  ghost predicate Quiet<K>(s: State<K>, s': State<K>, t: nat) {
    && s'.mem == s.mem && t in s.threads && t in s'.threads && s'.threads == s.threads[t := s'.threads[t]]
    && s'.threads[t].op == s.threads[t].op && s'.threads[t].hash == s.threads[t].hash
  }

  lemma StartIsCloser<K(!new)>(ops: KeyOps<K>, base: set<Id>, s: State<K>, cs: seq<seq<Id>>, t: nat)
    requires Inv(ops, base, s, cs) && t in s.threads && (s.threads[t].pc.Waiting? || s.threads[t].pc.Start?)
    ensures Closer(Advance(ops, s, t), cs, s, cs)
  {
    var s', i := Advance(ops, s, t), s.threads[t].hash % s.nBuckets;
    var p, q := PositionOf(ops, base, s, cs, t);
    assert LocAt(i, cs[i], 0) == Bucket(i);
    assert Quiet(s, s', t);
    MoveIsCloser(s, s', cs, t);
  }

  lemma WalkIsCloser<K(!new)>(ops: KeyOps<K>, base: set<Id>, s: State<K>, cs: seq<seq<Id>>, t: nat)
    requires Inv(ops, base, s, cs) && t in s.threads && s.threads[t].pc.Walking?
    ensures Closer(Advance(ops, s, t), cs, s, cs)
  {
    WalkGoesOn(ops, base, s, cs, t);
    assert Quiet(s, Advance(ops, s, t), t);
    MoveIsCloser(s, Advance(ops, s, t), cs, t);
  }

  /** Nobody else stands at the cell of a node that is not published. */
  lemma NobodyThere<K(!new)>(ops: KeyOps<K>, base: set<Id>, s: State<K>, cs: seq<seq<Id>>, u: nat, node: Id)
    requires Inv(ops, base, s, cs) && u in s.threads && node !in s.table
    requires s.threads[u].pc.Walking? || s.threads[u].pc.Linking? || s.threads[u].pc.Swapping?
    ensures s.threads[u].pc.prev != Next(node)
  {
    var p, q := PositionOf(ops, base, s, cs, u);
    var c := cs[s.threads[u].hash % s.nBuckets];
    if p > 0 { assert c[p - 1] in InTable(cs); }
  }

  lemma LinkIsCloser<K(!new)>(ops: KeyOps<K>, base: set<Id>, s: State<K>, cs: seq<seq<Id>>, t: nat)
    requires Inv(ops, base, s, cs) && t in s.threads && s.threads[t].pc.Linking?
    ensures Closer(Advance(ops, s, t), cs, s, cs)
  {
    var th, s' := s.threads[t], Advance(ops, s, t);
    assert th.op.Insert? && th.op.node !in s.table by {
      assert Opened(0);
      assert ThreadOk(ops, s.nBuckets, s.mem, s.nodes, s.table, cs, th);
    }
    forall u | u in s.threads ensures IsStale(s'.mem, s.threads[u].pc) == IsStale(s.mem, s.threads[u].pc) {
      var pc := s.threads[u].pc;
      if pc.Walking? || pc.Linking? || pc.Swapping? { NobodyThere(ops, base, s, cs, u, th.op.node); }
    }
    MoveIsCloser(s, s', cs, t);
  }

  /** The compare-and-swap: it publishes, or it fails because the view was stale. */
  lemma SwapIsCloser<K(!new)>(ops: KeyOps<K>, base: set<Id>, s: State<K>, cs: seq<seq<Id>>, t: nat, cs': seq<seq<Id>>)
    requires Inv(ops, base, s, cs) && t in s.threads && s.threads[t].pc.Swapping? && cs' != []
    requires Load(s.mem, s.threads[t].pc.prev) != s.threads[t].pc.cur ==> cs' == cs
    ensures Closer(Advance(ops, s, t), cs', s, cs)
  {
    var th, s' := s.threads[t], Advance(ops, s, t);
    assert th.op.Insert? by {
      assert Opened(0);
      assert ThreadOk(ops, s.nBuckets, s.mem, s.nodes, s.table, cs, th);
    }
    if Load(s.mem, th.pc.prev) == th.pc.cur {
      PublishIsCloser(s, s', cs, cs', t);
    } else {
      assert Quiet(s, s', t);
      MoveIsCloser(s, s', cs, t);
    }
  }

  lemma FinishIsCloser<K(!new)>(ops: KeyOps<K>, base: set<Id>, s: State<K>, cs: seq<seq<Id>>, t: nat)
    requires Inv(ops, base, s, cs) && t in s.threads && (s.threads[t].pc.Published? || s.threads[t].pc.Referenced?)
    ensures Closer(Advance(ops, s, t), cs, s, cs)
  {
    assert s.threads[t].op.Insert? by {
      assert Opened(0);
      assert ThreadOk(ops, s.nBuckets, s.mem, s.nodes, s.table, cs, s.threads[t]);
    }
    assert Quiet(s, Advance(ops, s, t), t);
    MoveIsCloser(s, Advance(ops, s, t), cs, t);
  }

  /** Every step of a thread that is not done brings the system closer to the end, retries included. */
  lemma StepIsCloser<K(!new)>(
      ops: KeyOps<K>, base: set<Id>, s: State<K>, cs: seq<seq<Id>>, t: nat) returns (cs': seq<seq<Id>>)
    requires Inv(ops, base, s, cs) && t in s.threads && !s.threads[t].pc.Done?
    ensures Inv(ops, base, Advance(ops, s, t), cs') && Closer(Advance(ops, s, t), cs', s, cs)
  {
    cs' := cs;
    match s.threads[t].pc
    case Waiting => StartInv(ops, base, s, cs, t); StartIsCloser(ops, base, s, cs, t);
    case Start => StartInv(ops, base, s, cs, t); StartIsCloser(ops, base, s, cs, t);
    case Walking(_, _) => WalkInv(ops, base, s, cs, t); WalkIsCloser(ops, base, s, cs, t);
    case Linking(_, _) => LinkInv(ops, base, s, cs, t); LinkIsCloser(ops, base, s, cs, t);
    case Swapping(_, _) => cs' := SwapInv(ops, base, s, cs, t); SwapIsCloser(ops, base, s, cs, t, cs');
    case Published => ReferenceInv(ops, base, s, cs, t); FinishIsCloser(ops, base, s, cs, t);
    case Referenced => CountInv(ops, base, s, cs, t); FinishIsCloser(ops, base, s, cs, t);
  }

  // ----- The end -----

  /** Some thread that can still move, as long as there is one. */
  ghost predicate Schedules<K(!new)>(pick: State<K> -> nat) {
    forall s: State<K> :: !Quiescent(s) ==> pick(s) in s.threads && !s.threads[pick(s)].pc.Done?
  }

  /** Thread t makes the step from s to s'. */
  ghost predicate Moves<K>(ops: KeyOps<K>, s: State<K>, s': State<K>, t: nat) {
    t in s.threads && s.nBuckets > 0 && s' == Advance(ops, s, t)
  }

  /** However the threads are scheduled, fairly or not, they all come to their ends. */
  lemma {:induction false} AllEnd<K(!new)>(
      ops: KeyOps<K>, base: set<Id>, s: State<K>, cs: seq<seq<Id>>, pick: State<K> -> nat)
    returns (run: seq<State<K>>)
    requires Inv(ops, base, s, cs) && Schedules(pick)
    ensures Run(ops, run) && run[0] == s && Quiescent(run[|run| - 1])
    ensures forall k | 0 <= k < |run| - 1 :: Moves(ops, run[k], run[k + 1], pick(run[k]))
    decreases |Unpublished(s.threads)|, |Stale(s.mem, s.threads)|, Sum(s.threads, cs)
  {
    hide Advance;
    if Quiescent(s) {
      run := [s];
    } else {
      var t := pick(s);
      var cs' := StepIsCloser(ops, base, s, cs, t);
      var rest := AllEnd(ops, base, Advance(ops, s, t), cs', pick);
      run := [s] + rest;
      MovesFirst(ops, s, rest, pick);
    }
  }

  lemma MovesFirst<K(!new)>(ops: KeyOps<K>, s: State<K>, rest: seq<State<K>>, pick: State<K> -> nat)
    requires rest != [] && Run(ops, rest) && Moves(ops, s, rest[0], pick(s))
    requires forall k | 0 <= k < |rest| - 1 :: Moves(ops, rest[k], rest[k + 1], pick(rest[k]))
    ensures Run(ops, [s] + rest)
    ensures forall k | 0 <= k < |rest| :: Moves(ops, ([s] + rest)[k], ([s] + rest)[k + 1], pick(([s] + rest)[k]))
  {
    hide Advance;
    var run := [s] + rest;
    forall k | 0 <= k < |rest| ensures Moves(ops, run[k], run[k + 1], pick(run[k])) && Step(ops, run[k], run[k + 1]) {
      if k > 0 { assert Moves(ops, rest[k - 1], rest[k - 1 + 1], pick(rest[k - 1])); }
    }
  }
}

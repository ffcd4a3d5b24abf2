/**
 Concurrent use of one HASH_TABLE under its shared lock.

 Any number of threads run InsertRecord or FindKey at the same time.  Every read of a link, every
 store to a link, the compare-and-swap that publishes a node, the reference taken on its record and
 the increment of the item count is a step of its own, and the steps of different threads
 interleave freely.  Memory is a map from link cells to the node they point at.
 */
module SharedInsert {
  import opened HashKeys
  import opened Opening
  import opened Words

  type Id = nat
  datatype Ptr = Null | To(id: Id)

  /** A link cell: a bucket slot, or the _pNext field of a node. */
  datatype Loc = Bucket(i: nat) | Next(id: Id)

  datatype Node<K> = Node(key: K, hash: dword)

  datatype Op = Insert(node: Id) | Find

  datatype Result = Inserted | AlreadyExists(id: Id) | Found(id: Id) | NotFound

  datatype Pc =
    | Waiting                      // the shared lock is not taken yet
    | Start                        // about to load the bucket slot
    | Walking(prev: Loc, cur: Ptr) // cur was read from the cell prev
    | Linking(prev: Loc, cur: Ptr) // key not found: about to store the new node's _pNext
    | Swapping(prev: Loc, cur: Ptr)// about to compare-and-swap the cell prev
    | Published                    // swap succeeded, record not referenced yet
    | Referenced                   // record referenced, item not counted yet
    | Done(result: Result)

  /** `sawKey` is a history flag: the key was in the table when the operation started. */
  datatype Thread<K> = Thread(op: Op, key: K, hash: dword, pc: Pc, sawKey: bool)

  /** `table` is a history variable: the nodes published so far. */
  datatype State<K> = State(
    nBuckets: nat,
    mem: map<Loc, Ptr>,
    nodes: map<Id, Node<K>>,
    threads: map<nat, Thread<K>>,
    refs: multiset<Id>,
    nItems: int,
    table: set<Id>)

  /** What one thread does next. */
  ghost function Advance<K>(ops: KeyOps<K>, s: State<K>, t: nat): State<K>
    requires t in s.threads && s.nBuckets > 0
  {
    var th := s.threads[t];
    match th.pc
    case Waiting =>
      s.(threads := s.threads[t := th.(pc := Start, sawKey := HasKey(ops, s.nodes, s.table, th.key))])
    case Start =>
      var prev := Bucket(th.hash % s.nBuckets);
      Goto(s, t, Walking(prev, Load(s.mem, prev)))
    case Walking(prev, Null) =>
      Goto(s, t, if th.op.Insert? then Linking(prev, Null) else Done(NotFound))
    case Walking(prev, To(id)) =>
      if id !in s.nodes then s
      else if s.nodes[id].hash == th.hash && ops.equal(th.key, s.nodes[id].key) then
        Goto(s, t, Done(if th.op.Insert? then AlreadyExists(id) else Found(id)))
      else if s.nodes[id].hash > th.hash then
        Goto(s, t, if th.op.Insert? then Linking(prev, To(id)) else Done(NotFound))
      else
        Goto(s, t, Walking(Next(id), Load(s.mem, Next(id))))
    case Linking(prev, cur) =>
      if th.op.Find? then s
      else Goto(s.(mem := s.mem[Next(th.op.node) := cur]), t, Swapping(prev, cur))
    case Swapping(prev, cur) =>
      if th.op.Find? then s
      else if Load(s.mem, prev) == cur then
        Goto(s.(mem := s.mem[prev := To(th.op.node)], table := s.table + {th.op.node}), t, Published)
      else
        Goto(s, t, Start)
    case Published =>
      if th.op.Find? then s
      else Goto(s.(refs := s.refs + multiset{th.op.node}), t, Referenced)
    case Referenced =>
      Goto(s.(nItems := s.nItems + 1), t, Done(Inserted))
    case Done(_) => s
  }

  function Goto<K>(s: State<K>, t: nat, pc: Pc): State<K>
    requires t in s.threads
  {
    s.(threads := s.threads[t := s.threads[t].(pc := pc)])
  }

  function Load(mem: map<Loc, Ptr>, l: Loc): Ptr {
    if l in mem then mem[l] else Null
  }

  /** Some node of the set carries a key equal to `key`. */
  ghost predicate HasKey<K>(ops: KeyOps<K>, nodes: map<Id, Node<K>>, ids: set<Id>, key: K) {
    exists id :: id in ids && id in nodes && ops.equal(key, nodes[id].key)
  }

  // ----- The chains a memory holds -----

  /** The cell in front of position j of chain c of bucket i, and what it must hold. */
  function LocAt(i: nat, c: seq<Id>, j: nat): Loc
    requires j <= |c|
  {
    if j == 0 then Bucket(i) else Next(c[j - 1])
  }

  function PtrAt(c: seq<Id>, j: nat): Ptr
    requires j <= |c|
  {
    if j < |c| then To(c[j]) else Null
  }

  ghost predicate ChainLinked(mem: map<Loc, Ptr>, i: nat, c: seq<Id>) {
    forall j {:trigger LocAt(i, c, j)} | 0 <= j <= |c| :: Load(mem, LocAt(i, c, j)) == PtrAt(c, j)
  }

  ghost predicate ChainSorted<K>(nodes: map<Id, Node<K>>, c: seq<Id>) {
    && (forall j | 0 <= j < |c| :: c[j] in nodes)
    && (forall a, b | 0 <= a < b < |c| :: nodes[c[a]].hash <= nodes[c[b]].hash)
  }

  /** No two nodes of a chain have equal keys. */
  ghost predicate ChainUnique<K>(ops: KeyOps<K>, nodes: map<Id, Node<K>>, c: seq<Id>)
    requires ChainSorted(nodes, c)
  {
    forall a, b | 0 <= a < b < |c| :: c[a] != c[b] && !ops.equal(nodes[c[a]].key, nodes[c[b]].key)
  }

  ghost predicate ChainPlaced<K>(nodes: map<Id, Node<K>>, n: nat, i: nat, c: seq<Id>)
    requires ChainSorted(nodes, c) && n > 0
  {
    forall j | 0 <= j < |c| :: nodes[c[j]].hash % n == i
  }

  ghost predicate ChainOk<K>(ops: KeyOps<K>, n: nat, mem: map<Loc, Ptr>, nodes: map<Id, Node<K>>, i: nat, c: seq<Id>)
    requires n > 0
  {
    ChainLinked(mem, i, c) && ChainSorted(nodes, c) && ChainUnique(ops, nodes, c) && ChainPlaced(nodes, n, i, c)
  }

  ghost function InTable(cs: seq<seq<Id>>): set<Id> {
    set i, j | 0 <= i < |cs| && 0 <= j < |cs[i]| :: cs[i][j]
  }

  /** The table holds exactly the chains cs: sorted by hash, without duplicates, in the right buckets. */
  ghost predicate TableOk<K>(
      ops: KeyOps<K>, n: nat, mem: map<Loc, Ptr>, nodes: map<Id, Node<K>>, table: set<Id>, cs: seq<seq<Id>>) {
    && 0 < n == |cs|
    && (forall id | id in nodes :: nodes[id].hash == ops.hash(nodes[id].key))
    && (forall i | 0 <= i < |cs| :: ChainOk(ops, n, mem, nodes, i, cs[i]))
    && table == InTable(cs)
  }

  // ----- What each thread knows -----

  /** Everything before position p is known not to be, and to sort before, the key sought. */
  ghost predicate Passed<K>(ops: KeyOps<K>, nodes: map<Id, Node<K>>, th: Thread<K>, c: seq<Id>, p: nat)
    requires p <= |c| && ChainSorted(nodes, c)
  {
    forall x | 0 <= x < p ::
      nodes[c[x]].hash < th.hash || (nodes[c[x]].hash == th.hash && !ops.equal(th.key, nodes[c[x]].key))
  }

  /** prev is the cell in front of position p; cur, if a node, is at a position q >= p, and whatever
      was linked in between since it was read sorts strictly before it. */
  ghost predicate Seen<K>(
      ops: KeyOps<K>, nodes: map<Id, Node<K>>, th: Thread<K>, i: nat, c: seq<Id>, prev: Loc, cur: Ptr, p: nat,
      q: nat)
    requires ChainSorted(nodes, c)
  {
    && p <= q <= |c|
    && prev == LocAt(i, c, p)
    && Passed(ops, nodes, th, c, p)
    && (cur.To? ==> q < |c| && cur.id == c[q])
    && (cur.To? ==> forall x | p <= x < q :: nodes[c[x]].hash < nodes[c[q]].hash)
  }

  ghost predicate HasKeyFrom<K>(ops: KeyOps<K>, nodes: map<Id, Node<K>>, key: K, c: seq<Id>, q: nat)
    requires ChainSorted(nodes, c)
  {
    exists r :: q <= r < |c| && ops.equal(key, nodes[c[r]].key)
  }

  /** The position facts of a thread that holds (prev, cur): a walker that saw the key still has it
      ahead, and one that stopped has a larger hash, or the end of the chain, in front of it. */
  ghost predicate At<K>(ops: KeyOps<K>, nodes: map<Id, Node<K>>, th: Thread<K>, i: nat, c: seq<Id>, p: nat, q: nat)
    requires ChainSorted(nodes, c)
  {
    match th.pc
    case Walking(prev, cur) =>
      && Seen(ops, nodes, th, i, c, prev, cur, p, q)
      && (th.sawKey ==> cur.To? && HasKeyFrom(ops, nodes, th.key, c, q))
    case Linking(prev, cur) =>
      Seen(ops, nodes, th, i, c, prev, cur, p, q) && (cur.To? ==> nodes[c[q]].hash > th.hash) && !th.sawKey
    case Swapping(prev, cur) =>
      Seen(ops, nodes, th, i, c, prev, cur, p, q) && (cur.To? ==> nodes[c[q]].hash > th.hash) && !th.sawKey
    case _ => true
  }

  ghost predicate Positioned<K>(ops: KeyOps<K>, nodes: map<Id, Node<K>>, th: Thread<K>, i: nat, c: seq<Id>)
    requires ChainSorted(nodes, c)
  {
    exists p: nat, q: nat :: At(ops, nodes, th, i, c, p, q)
  }

  predicate HasPublished(pc: Pc) {
    pc.Published? || pc.Referenced? || pc == Done(Inserted)
  }

  predicate Refused(pc: Pc) { pc.Done? && pc.result.AlreadyExists? }

  /** What the result a thread has computed means. */
  ghost predicate ResultOk<K>(ops: KeyOps<K>, nodes: map<Id, Node<K>>, table: set<Id>, th: Thread<K>) {
    && (th.pc.Done? && (th.pc.result.Found? || th.pc.result.AlreadyExists?) ==>
          th.pc.result.id in table && th.pc.result.id in nodes && ops.equal(th.key, nodes[th.pc.result.id].key))
    && (th.pc == Done(NotFound) || HasPublished(th.pc) ==> !th.sawKey)
    && (th.pc.Done? ==> (th.op.Insert? <==> th.pc.result.Inserted? || th.pc.result.AlreadyExists?))
  }

  ghost predicate OwnNodeOk<K>(mem: map<Loc, Ptr>, nodes: map<Id, Node<K>>, table: set<Id>, th: Thread<K>)
    requires th.op.Insert?
  {
    && th.op.node in nodes && nodes[th.op.node] == Node(th.key, th.hash)
    && (HasPublished(th.pc) <==> th.op.node in table)
    && (th.pc.Swapping? ==> Load(mem, Next(th.op.node)) == th.pc.cur)
  }

  ghost predicate ThreadOk<K>(
      ops: KeyOps<K>, n: nat, mem: map<Loc, Ptr>, nodes: map<Id, Node<K>>, table: set<Id>, cs: seq<seq<Id>>,
      th: Thread<K>)
    requires TableOk(ops, n, mem, nodes, table, cs)
  {
    var i := th.hash % n;
    && th.hash == ops.hash(th.key)
    && Positioned(ops, nodes, th, i, cs[i])
    && (th.sawKey ==> HasKey(ops, nodes, table, th.key))
    && ResultOk(ops, nodes, table, th)
    && (th.op.Find? ==> !th.pc.Linking? && !th.pc.Swapping? && !th.pc.Published? && !th.pc.Referenced?)
    && (th.op.Insert? ==> OwnNodeOk(mem, nodes, table, th))
  }

  /** Every inserting thread has a node of its own. */
  ghost predicate NodesApart<K>(threads: map<nat, Thread<K>>) {
    forall t, u | t in threads && u in threads && t != u && threads[t].op.Insert? && threads[u].op.Insert? ::
      threads[t].op.node != threads[u].op.node
  }

  predicate Uncounted(pc: Pc) { pc.Published? || pc.Referenced? }

  /** Threads that have published their node but not yet counted it. */
  ghost function UncountedThreads<K>(threads: map<nat, Thread<K>>): set<nat> {
    set t | t in threads && Uncounted(threads[t].pc)
  }

  ghost predicate Unreferenced<K>(threads: map<nat, Thread<K>>, id: Id) {
    exists t :: t in threads && threads[t].op == Insert(id) && threads[t].pc.Published?
  }

  /** The table holds one reference on each published record, and on no other. */
  ghost predicate RefsOk<K>(threads: map<nat, Thread<K>>, refs: multiset<Id>, table: set<Id>) {
    forall id :: refs[id] == if id in table && !Unreferenced(threads, id) then 1 else 0
  }

  ghost predicate ThreadsOk<K>(
      ops: KeyOps<K>, n: nat, mem: map<Loc, Ptr>, nodes: map<Id, Node<K>>, table: set<Id>, cs: seq<seq<Id>>,
      threads: map<nat, Thread<K>>)
    requires TableOk(ops, n, mem, nodes, table, cs)
  {
    forall t | t in threads :: ThreadOk(ops, n, mem, nodes, table, cs, threads[t])
  }

  ghost predicate HasOwner<K>(threads: map<nat, Thread<K>>, id: Id) {
    exists t :: t in threads && threads[t].op == Insert(id)
  }

  /** Nothing in `base` is lost, and whatever was added to it was added by one of the threads. */
  ghost predicate OwnersOk<K>(base: set<Id>, threads: map<nat, Thread<K>>, table: set<Id>) {
    && NodesApart(threads)
    && base <= table
    && (forall id | id in table && id !in base :: HasOwner(threads, id))
    && (forall t | t in threads && threads[t].op.Insert? :: threads[t].op.node !in base)
  }

  /** The item count lags behind by exactly the inserters between their swap and their increment. */
  ghost predicate CountOk<K>(threads: map<nat, Thread<K>>, nItems: int, table: set<Id>) {
    nItems + |UncountedThreads(threads)| == |table|
  }

  /** The invariant of every interleaving; `base` is what the table held when the threads began.  Closed, but for an
      outline. */
  ghost predicate Inv<K(!new)>(ops: KeyOps<K>, base: set<Id>, s: State<K>, cs: seq<seq<Id>>) {
    && TableOk(ops, s.nBuckets, s.mem, s.nodes, s.table, cs)
    && forall key: nat {:trigger Opened(key)} :: Opened(key) ==> IsInv(ops, base, s, cs)
  }

  ghost predicate IsInv<K(!new)>(ops: KeyOps<K>, base: set<Id>, s: State<K>, cs: seq<seq<Id>>) {
    && Lawful(ops)
    && TableOk(ops, s.nBuckets, s.mem, s.nodes, s.table, cs)
    && ThreadsOk(ops, s.nBuckets, s.mem, s.nodes, s.table, cs, s.threads)
    && OwnersOk(base, s.threads, s.table)
    && CountOk(s.threads, s.nItems, s.table)
    && RefsOk(s.threads, s.refs, s.table)
  }

  /** A quiescent table with any operations about to begin on it. */
  ghost predicate Init<K(!new)>(ops: KeyOps<K>, s: State<K>) {
    && Lawful(ops)
    && (exists cs :: TableOk(ops, s.nBuckets, s.mem, s.nodes, s.table, cs))
    && NodesApart(s.threads)
    && s.nItems == |s.table|
    && (forall id :: s.refs[id] == if id in s.table then 1 else 0)
    && (forall t | t in s.threads :: NotBegun(ops, s, s.threads[t]))
  }

  ghost predicate NotBegun<K>(ops: KeyOps<K>, s: State<K>, th: Thread<K>) {
    && th.pc.Waiting?
    && !th.sawKey
    && th.hash == ops.hash(th.key)
    && (th.op.Insert? ==>
          th.op.node in s.nodes && s.nodes[th.op.node] == Node(th.key, th.hash) && th.op.node !in s.table)
  }

  ghost predicate Step<K>(ops: KeyOps<K>, s: State<K>, s': State<K>) {
    exists t :: t in s.threads && s.nBuckets > 0 && s' == Advance(ops, s, t)
  }

  // ----- Proofs -----

  lemma InitInv<K(!new)>(ops: KeyOps<K>, s: State<K>) returns (cs: seq<seq<Id>>)
    requires Init(ops, s)
    ensures Inv(ops, s.table, s, cs)
  {
    cs :| TableOk(ops, s.nBuckets, s.mem, s.nodes, s.table, cs);
    forall t | t in s.threads ensures ThreadOk(ops, s.nBuckets, s.mem, s.nodes, s.table, cs, s.threads[t]) {
      var th := s.threads[t];
      assert At(ops, s.nodes, th, th.hash % s.nBuckets, cs[th.hash % s.nBuckets], 0, 0);
    }
    assert UncountedThreads(s.threads) == {};
  }

  /** A key that is anywhere in the table is in the chain of its own bucket. */
  lemma KeyInItsChain<K(!new)>(
      ops: KeyOps<K>, n: nat, mem: map<Loc, Ptr>, nodes: map<Id, Node<K>>, table: set<Id>, cs: seq<seq<Id>>, key: K)
    requires Lawful(ops) && TableOk(ops, n, mem, nodes, table, cs)
    requires HasKey(ops, nodes, table, key)
    ensures HasKeyFrom(ops, nodes, key, cs[ops.hash(key) % n], 0)
  {
    var id :| id in table && id in nodes && ops.equal(key, nodes[id].key);
    var i, j :| 0 <= i < |cs| && 0 <= j < |cs[i]| && cs[i][j] == id;
    assert ChainOk(ops, n, mem, nodes, i, cs[i]);
    assert nodes[cs[i][j]].hash % n == i;
  }

  lemma MoveBookkeeping<K>(
      base: set<Id>, threads: map<nat, Thread<K>>, refs: multiset<Id>, nItems: int, table: set<Id>, t: nat,
      th: Thread<K>)
    requires OwnersOk(base, threads, table) && CountOk(threads, nItems, table) && RefsOk(threads, refs, table)
    requires t in threads && th.op == threads[t].op
    requires Uncounted(th.pc) == Uncounted(threads[t].pc) && th.pc.Published? == threads[t].pc.Published?
    ensures OwnersOk(base, threads[t := th], table)
    ensures CountOk(threads[t := th], nItems, table)
    ensures RefsOk(threads[t := th], refs, table)
  {
    var threads' := threads[t := th];
    assert UncountedThreads(threads') == UncountedThreads(threads);
    forall id | id in table && id !in base ensures HasOwner(threads', id) {
      OwnerKept(threads, t, th, id);
    }
    forall id ensures Unreferenced(threads', id) == Unreferenced(threads, id) {
      UnreferencedKept(threads, t, th, id);
    }
  }

  lemma OwnerKept<K>(threads: map<nat, Thread<K>>, t: nat, th: Thread<K>, id: Id)
    requires HasOwner(threads, id) && t in threads && th.op == threads[t].op
    ensures HasOwner(threads[t := th], id)
  {
    var u :| u in threads && threads[u].op == Insert(id);
    assert threads[t := th][u].op == Insert(id);
  }

  lemma UnreferencedKept<K>(threads: map<nat, Thread<K>>, t: nat, th: Thread<K>, id: Id)
    requires t in threads && th.op == threads[t].op && th.pc.Published? == threads[t].pc.Published?
    ensures Unreferenced(threads[t := th], id) == Unreferenced(threads, id)
  {
    if Unreferenced(threads, id) {
      var u :| u in threads && threads[u].op == Insert(id) && threads[u].pc.Published?;
      assert threads[t := th][u].op == Insert(id) && threads[t := th][u].pc.Published?;
    }
  }

  /** A step that only moves thread t, leaving memory, nodes and the table as they were. */
  lemma MoveInv<K(!new)>(ops: KeyOps<K>, base: set<Id>, s: State<K>, cs: seq<seq<Id>>, t: nat, th: Thread<K>)
    requires Inv(ops, base, s, cs) && t in s.threads
    requires th.op == s.threads[t].op && Uncounted(th.pc) == Uncounted(s.threads[t].pc)
    requires th.pc.Published? == s.threads[t].pc.Published?
    requires ThreadOk(ops, s.nBuckets, s.mem, s.nodes, s.table, cs, th)
    ensures Inv(ops, base, s.(threads := s.threads[t := th]), cs)
  {
    assert Opened(0);
    MoveBookkeeping(base, s.threads, s.refs, s.nItems, s.table, t, th);
  }

  lemma StartInv<K(!new)>(ops: KeyOps<K>, base: set<Id>, s: State<K>, cs: seq<seq<Id>>, t: nat)
    requires Inv(ops, base, s, cs) && t in s.threads && (s.threads[t].pc.Start? || s.threads[t].pc.Waiting?)
    ensures Inv(ops, base, Advance(ops, s, t), cs)
  {
    hide ChainSorted, ChainUnique, ChainPlaced, InTable, OwnersOk, CountOk, RefsOk, NodesApart, UncountedThreads;
    assert Opened(0);
    var th := s.threads[t];
    var i := th.hash % s.nBuckets;
    var c := cs[i];
    var th' := Advance(ops, s, t).threads[t];
    assert ChainOk(ops, s.nBuckets, s.mem, s.nodes, i, c);
    if th.pc.Start? {
      assert LocAt(i, c, 0) == Bucket(i);
      if th.sawKey { KeyInItsChain(ops, s.nBuckets, s.mem, s.nodes, s.table, cs, th.key); }
    }
    assert At(ops, s.nodes, th', i, c, 0, 0);
    MoveInv(ops, base, s, cs, t, th');
  }

  lemma WalkPosition<K(!new)>(
      ops: KeyOps<K>, nodes: map<Id, Node<K>>, mem: map<Loc, Ptr>, th: Thread<K>, i: nat, c: seq<Id>, p: nat, q: nat)
    requires Lawful(ops) && ChainSorted(nodes, c) && ChainLinked(mem, i, c)
    requires forall id | id in nodes :: nodes[id].hash == ops.hash(nodes[id].key)
    requires th.hash == ops.hash(th.key)
    requires th.pc.Walking? && th.pc.cur.To? && At(ops, nodes, th, i, c, p, q)
    ensures nodes[c[q]].hash > th.hash ==> !th.sawKey
    ensures nodes[c[q]].hash <= th.hash && !ops.equal(th.key, nodes[c[q]].key) ==>
              At(ops, nodes, th.(pc := Walking(Next(c[q]), Load(mem, Next(c[q])))), i, c, q + 1, q + 1)
  {
    assert LocAt(i, c, q + 1) == Next(c[q]);
    if th.sawKey {
      var r :| q <= r < |c| && ops.equal(th.key, nodes[c[r]].key);
      assert nodes[c[r]].hash == th.hash;
      assert r > q ==> nodes[c[q]].hash <= nodes[c[r]].hash;
      assert r != q ==> q + 1 <= r;
    }
  }

  /** Where a walker goes after looking at the node it holds. */
  function AfterWalk<K>(ops: KeyOps<K>, mem: map<Loc, Ptr>, nodes: map<Id, Node<K>>, th: Thread<K>): Pc
    requires th.pc.Walking? && (th.pc.cur.To? ==> th.pc.cur.id in nodes)
  {
    var stop := if th.op.Insert? then Linking(th.pc.prev, th.pc.cur) else Done(NotFound);
    match th.pc.cur
    case Null => stop
    case To(id) =>
      if nodes[id].hash == th.hash && ops.equal(th.key, nodes[id].key) then
        Done(if th.op.Insert? then AlreadyExists(id) else Found(id))
      else if nodes[id].hash > th.hash then stop
      else Walking(Next(id), Load(mem, Next(id)))
  }

  lemma WalkThread<K(!new)>(
      ops: KeyOps<K>, n: nat, mem: map<Loc, Ptr>, nodes: map<Id, Node<K>>, table: set<Id>, cs: seq<seq<Id>>,
      th: Thread<K>)
    requires Lawful(ops) && TableOk(ops, n, mem, nodes, table, cs)
    requires ThreadOk(ops, n, mem, nodes, table, cs, th) && th.pc.Walking?
    ensures th.pc.cur.To? ==> th.pc.cur.id in nodes
    ensures ThreadOk(ops, n, mem, nodes, table, cs, th.(pc := AfterWalk(ops, mem, nodes, th)))
  {
    hide ChainLinked, ChainUnique, ChainPlaced, HasKeyFrom, PtrAt, LocAt, Load;
    var i := th.hash % n;
    var c := cs[i];
    assert ChainOk(ops, n, mem, nodes, i, c);
    var p: nat, q: nat :| At(ops, nodes, th, i, c, p, q);
    var th' := th.(pc := AfterWalk(ops, mem, nodes, th));
    if th.pc.cur.To? {
      WalkPosition(ops, nodes, mem, th, i, c, p, q);
      assert cs[i][q] in table;
      if th'.pc.Walking? {
        assert At(ops, nodes, th', i, c, q + 1, q + 1);
      } else {
        assert At(ops, nodes, th', i, c, p, q);
      }
    } else {
      assert At(ops, nodes, th', i, c, p, q);
    }
  }

  lemma WalkAdvance<K>(ops: KeyOps<K>, s: State<K>, t: nat)
    requires t in s.threads && s.nBuckets > 0
    requires s.threads[t].pc.Walking? && (s.threads[t].pc.cur.To? ==> s.threads[t].pc.cur.id in s.nodes)
    ensures Advance(ops, s,
      t) == s.(threads := s.threads[t := s.threads[t].(pc := AfterWalk(ops, s.mem, s.nodes, s.threads[t]))])
  {
  }

  lemma WalkInv<K(!new)>(ops: KeyOps<K>, base: set<Id>, s: State<K>, cs: seq<seq<Id>>, t: nat)
    requires Inv(ops, base, s, cs) && t in s.threads && s.threads[t].pc.Walking?
    ensures Inv(ops, base, Advance(ops, s, t), cs)
  {
    assert Opened(0);
    var th := s.threads[t];
    WalkThread(ops, s.nBuckets, s.mem, s.nodes, s.table, cs, th);
    WalkAdvance(ops, s, t);
    MoveInv(ops, base, s, cs, t, th.(pc := AfterWalk(ops, s.mem, s.nodes, th)));
  }

  // ----- Linking the new node: a store to a cell nobody else reads -----

  lemma PrivateCell<K>(
      ops: KeyOps<K>, n: nat, mem: map<Loc, Ptr>, nodes: map<Id, Node<K>>, table: set<Id>, cs: seq<seq<Id>>,
      node: Id, cur: Ptr)
    requires TableOk(ops, n, mem, nodes, table, cs) && node !in table
    ensures TableOk(ops, n, mem[Next(node) := cur], nodes, table, cs)
  {
    var mem' := mem[Next(node) := cur];
    forall i | 0 <= i < |cs| ensures ChainOk(ops, n, mem', nodes, i, cs[i]) {
      var c := cs[i];
      assert ChainOk(ops, n, mem, nodes, i, c);
      forall j {:trigger LocAt(i, c, j)} | 0 <= j <= |c| ensures Load(mem', LocAt(i, c, j)) == PtrAt(c, j) {
        if j > 0 { assert cs[i][j - 1] in table; }
        assert LocAt(i, c, j) != Next(node);
      }
    }
  }

  lemma LinkThreads<K>(
      ops: KeyOps<K>, n: nat, mem: map<Loc, Ptr>, nodes: map<Id, Node<K>>, table: set<Id>, cs: seq<seq<Id>>,
      threads: map<nat, Thread<K>>, t: nat)
    requires TableOk(ops, n, mem, nodes, table, cs) && ThreadsOk(ops, n, mem, nodes, table, cs, threads)
    requires NodesApart(threads)
    requires t in threads && threads[t].pc.Linking?
    ensures threads[t].op.Insert? && threads[t].op.node !in table
    ensures var th := threads[t]; var mem' := mem[Next(th.op.node) := th.pc.cur];
      && TableOk(ops, n, mem', nodes, table, cs)
      && ThreadsOk(ops, n, mem', nodes, table, cs, threads)
      && ThreadOk(ops, n, mem', nodes, table, cs, th.(pc := Swapping(th.pc.prev, th.pc.cur)))
  {
    var th := threads[t];
    var i := th.hash % n;
    assert ThreadOk(ops, n, mem, nodes, table, cs, th);
    var mem' := mem[Next(th.op.node) := th.pc.cur];
    var th' := th.(pc := Swapping(th.pc.prev, th.pc.cur));
    PrivateCell(ops, n, mem, nodes, table, cs, th.op.node, th.pc.cur);
    var p: nat, q: nat :| At(ops, nodes, th, i, cs[i], p, q);
    assert At(ops, nodes, th', i, cs[i], p, q);
    forall u | u in threads ensures ThreadOk(ops, n, mem', nodes, table, cs, threads[u]) {
      assert ThreadOk(ops, n, mem, nodes, table, cs, threads[u]);
    }
  }

  lemma LinkInv<K(!new)>(ops: KeyOps<K>, base: set<Id>, s: State<K>, cs: seq<seq<Id>>, t: nat)
    requires Inv(ops, base, s, cs) && t in s.threads && s.threads[t].pc.Linking?
    ensures Inv(ops, base, Advance(ops, s, t), cs)
  {
    assert Opened(0);
    var th := s.threads[t];
    LinkThreads(ops, s.nBuckets, s.mem, s.nodes, s.table, cs, s.threads, t);
    var s1 := s.(mem := s.mem[Next(th.op.node) := th.pc.cur]);
    MoveInv(ops, base, s1, cs, t, th.(pc := Swapping(th.pc.prev, th.pc.cur)));
  }

  // ----- The compare-and-swap -----

  function Spliced(c: seq<Id>, p: nat, node: Id): seq<Id>
    requires p <= |c|
  {
    c[..p] + [node] + c[p..]
  }

  /** A successful swap happens exactly between the nodes the thread compared with. */
  lemma SwapPoint<K>(
      ops: KeyOps<K>, nodes: map<Id, Node<K>>, mem: map<Loc, Ptr>, th: Thread<K>, i: nat, c: seq<Id>, p: nat, q: nat)
    requires ChainSorted(nodes, c) && ChainLinked(mem, i, c) && ChainUnique(ops, nodes, c)
    requires th.pc.Swapping? && At(ops, nodes, th, i, c, p, q)
    requires Load(mem, th.pc.prev) == th.pc.cur
    ensures th.pc.cur == PtrAt(c, p)
    ensures forall x | p <= x < |c| :: nodes[c[x]].hash > th.hash
  {
    assert Load(mem, LocAt(i, c, p)) == PtrAt(c, p);
  }

  lemma SplicedLinks(mem: map<Loc, Ptr>, i: nat, c: seq<Id>, p: nat, node: Id)
    requires ChainLinked(mem, i, c) && p <= |c| && node !in c && (forall a, b | 0 <= a < b < |c| :: c[a] != c[b])
    requires Load(mem, Next(node)) == PtrAt(c, p)
    ensures ChainLinked(mem[LocAt(i, c, p) := To(node)], i, Spliced(c, p, node))
  {
    var c' := Spliced(c, p, node);
    var mem' := mem[LocAt(i, c, p) := To(node)];
    forall j {:trigger LocAt(i, c', j)} | 0 <= j <= |c'| ensures Load(mem', LocAt(i, c', j)) == PtrAt(c', j) {
      if j <= p {
        assert LocAt(i, c', j) == LocAt(i, c, j);
      } else if j == p + 1 {
        assert LocAt(i, c', j) == Next(node);
      } else {
        assert LocAt(i, c', j) == LocAt(i, c, j - 1);
      }
    }
  }

  lemma SplicedOrder<K(!new)>(
      ops: KeyOps<K>, n: nat, nodes: map<Id, Node<K>>, i: nat, c: seq<Id>, p: nat, node: Id, th: Thread<K>)
    requires Lawful(ops) && n > 0 && ChainSorted(nodes, c) && ChainUnique(ops, nodes, c) && ChainPlaced(nodes, n, i, c)
    requires p <= |c| && Passed(ops, nodes, th, c, p)
    requires forall x | p <= x < |c| :: nodes[c[x]].hash > th.hash
    requires node in nodes && nodes[node] == Node(th.key, th.hash) && th.hash % n == i
    requires forall id | id in nodes :: nodes[id].hash == ops.hash(nodes[id].key)
    requires node !in c
    ensures ChainSorted(nodes, Spliced(c, p, node))
    ensures ChainUnique(ops, nodes, Spliced(c, p, node))
    ensures ChainPlaced(nodes, n, i, Spliced(c, p, node))
  {
    var c' := Spliced(c, p, node);
    forall x | 0 <= x < |c| ensures !ops.equal(nodes[c[x]].key, th.key) && !ops.equal(th.key, nodes[c[x]].key) {
      assert x < p || nodes[c[x]].hash > th.hash;
    }
    forall a, b | 0 <= a < b < |c'| ensures c'[a] != c'[b] && !ops.equal(nodes[c'[a]].key, nodes[c'[b]].key) {
      var a0 := if a <= p then a else a - 1;
      var b0 := if b <= p then b else b - 1;
      assert a != p ==> c'[a] == c[a0];
      assert b != p ==> c'[b] == c[b0];
    }
  }

  lemma SplicedChain<K(!new)>(
      ops: KeyOps<K>, n: nat, nodes: map<Id, Node<K>>, mem: map<Loc, Ptr>, i: nat, c: seq<Id>, p: nat, node: Id,
      th: Thread<K>)
    requires Lawful(ops) && n > 0 && ChainOk(ops, n, mem, nodes, i, c)
    requires p <= |c| && Passed(ops, nodes, th, c, p)
    requires forall x | p <= x < |c| :: nodes[c[x]].hash > th.hash
    requires node in nodes && nodes[node] == Node(th.key, th.hash) && th.hash % n == i
    requires forall id | id in nodes :: nodes[id].hash == ops.hash(nodes[id].key)
    requires node !in c && Load(mem, Next(node)) == PtrAt(c, p)
    ensures ChainOk(ops, n, mem[LocAt(i, c, p) := To(node)], nodes, i, Spliced(c, p, node))
  {
    SplicedOrder(ops, n, nodes, i, c, p, node, th);
    SplicedLinks(mem, i, c, p, node);
  }

  lemma OtherChain<K>(
      ops: KeyOps<K>, n: nat, nodes: map<Id, Node<K>>, mem: map<Loc, Ptr>, i: nat, c: seq<Id>, p: nat, node: Id,
      k: nat, d: seq<Id>)
    requires n > 0 && ChainOk(ops, n, mem, nodes, i, c) && ChainOk(ops, n, mem, nodes, k, d)
    requires p <= |c| && k != i
    ensures ChainOk(ops, n, mem[LocAt(i, c, p) := To(node)], nodes, k, d)
  {
    forall j {:trigger LocAt(k, d, j)} | 0 <= j <= |d|
      ensures Load(mem[LocAt(i, c, p) := To(node)], LocAt(k, d, j)) == PtrAt(d, j)
    {
      if j > 0 && p > 0 {
        assert nodes[d[j - 1]].hash % n == k && nodes[c[p - 1]].hash % n == i;
      }
      assert LocAt(k, d, j) != LocAt(i, c, p);
    }
  }

  lemma SplicedTable(cs: seq<seq<Id>>, i: nat, p: nat, node: Id)
    requires i < |cs| && p <= |cs[i]|
    ensures InTable(cs[i := Spliced(cs[i], p, node)]) == InTable(cs) + {node}
  {
    var cs' := cs[i := Spliced(cs[i], p, node)];
    assert cs'[i][p] == node;
    forall id | id in InTable(cs) ensures id in InTable(cs') {
      var k, j :| 0 <= k < |cs| && 0 <= j < |cs[k]| && cs[k][j] == id;
      assert cs'[k][if k == i && j >= p then j + 1 else j] == id;
    }
    forall id | id in InTable(cs') ensures id in InTable(cs) + {node} {
      var k, j :| 0 <= k < |cs'| && 0 <= j < |cs'[k]| && cs'[k][j] == id;
      if k == i && j > p { assert cs[k][j - 1] == id; }
    }
  }

  lemma SwapTable<K(!new)>(
      ops: KeyOps<K>, n: nat, mem: map<Loc, Ptr>, nodes: map<Id, Node<K>>, table: set<Id>, cs: seq<seq<Id>>, p: nat,
      th: Thread<K>)
    requires Lawful(ops) && TableOk(ops, n, mem, nodes, table, cs)
    requires th.op.Insert? && th.op.node !in table && th.op.node in nodes && nodes[th.op.node] == Node(th.key, th.hash)
    requires p <= |cs[th.hash % n]| && Passed(ops, nodes, th, cs[th.hash % n], p)
    requires forall x | p <= x < |cs[th.hash % n]| :: nodes[cs[th.hash % n][x]].hash > th.hash
    requires Load(mem, Next(th.op.node)) == PtrAt(cs[th.hash % n], p)
    ensures TableOk(ops, n, mem[LocAt(th.hash % n, cs[th.hash % n], p) := To(th.op.node)], nodes, table + {th.op.node},
                    cs[th.hash % n := Spliced(cs[th.hash % n], p, th.op.node)])
  {
    var i := th.hash % n;
    var c := cs[i];
    var mem' := mem[LocAt(i, c, p) := To(th.op.node)];
    var cs' := cs[i := Spliced(c, p, th.op.node)];
    forall x | 0 <= x < |c| ensures c[x] != th.op.node { assert cs[i][x] in table; }
    SplicedTable(cs, i, p, th.op.node);
    forall k | 0 <= k < |cs'| ensures ChainOk(ops, n, mem', nodes, k, cs'[k]) {
      assert ChainOk(ops, n, mem, nodes, k, cs[k]);
      if k == i {
        SplicedChain(ops, n, nodes, mem, i, c, p, th.op.node, th);
      } else {
        OtherChain(ops, n, nodes, mem, i, c, p, th.op.node, k, cs[k]);
      }
    }
  }

  lemma PassedKept<K>(ops: KeyOps<K>, nodes: map<Id, Node<K>>, th: Thread<K>, c: seq<Id>, j: nat, node: Id, p: nat)
    requires ChainSorted(nodes, c) && j <= |c| && node in nodes && p <= |c|
    requires ChainSorted(nodes, Spliced(c, j, node))
    requires forall x | j <= x < |c| :: nodes[c[x]].hash > nodes[node].hash
    requires Passed(ops, nodes, th, c, p)
    ensures Passed(ops, nodes, th, Spliced(c, j, node), if j < p then p + 1 else p)
  {
    var c' := Spliced(c, j, node);
    forall x | 0 <= x < if j < p then p + 1 else p
      ensures nodes[c'[x]].hash < th.hash || (nodes[c'[x]].hash == th.hash && !ops.equal(th.key, nodes[c'[x]].key))
    {
      if x == j {
        assert nodes[c[j]].hash > nodes[node].hash;
      } else {
        assert c'[x] == c[if x < j then x else x - 1];
      }
    }
  }

  lemma SeenKept<K>(
      ops: KeyOps<K>, nodes: map<Id, Node<K>>, th: Thread<K>, i: nat, c: seq<Id>, j: nat, node: Id, prev: Loc,
      cur: Ptr, p: nat, q: nat)
    returns (p': nat, q': nat)
    requires ChainSorted(nodes, c) && j <= |c| && node in nodes
    requires ChainSorted(nodes, Spliced(c, j, node))
    requires forall x | j <= x < |c| :: nodes[c[x]].hash > nodes[node].hash
    requires Seen(ops, nodes, th, i, c, prev, cur, p, q)
    ensures Seen(ops, nodes, th, i, Spliced(c, j, node), prev, cur, p', q')
    ensures q' == if (cur.To? && j <= q) || j < p then q + 1 else q
  {
    hide Passed, PtrAt;
    var c' := Spliced(c, j, node);
    p' := if j < p then p + 1 else p;
    q' := if (cur.To? && j <= q) || j < p then q + 1 else q;
    assert LocAt(i, c', p') == LocAt(i, c, p);
    PassedKept(ops, nodes, th, c, j, node, p);
    if cur.To? {
      assert c'[q'] == c[q];
      forall x | p' <= x < q' ensures nodes[c'[x]].hash < nodes[c'[q']].hash {
        if x == j {
          assert nodes[c[j]].hash > nodes[node].hash;
        } else {
          assert c'[x] == c[if x < j then x else x - 1];
        }
      }
    }
  }

  /** What another thread knew about its chain survives an insertion into it. */
  lemma PositionKept<K>(ops: KeyOps<K>, nodes: map<Id, Node<K>>, i: nat, c: seq<Id>, j: nat, node: Id, th: Thread<K>)
    requires ChainSorted(nodes, c) && j <= |c| && node in nodes
    requires ChainSorted(nodes, Spliced(c, j, node))
    requires forall x | j <= x < |c| :: nodes[c[x]].hash > nodes[node].hash
    requires Positioned(ops, nodes, th, i, c)
    ensures Positioned(ops, nodes, th, i, Spliced(c, j, node))
  {
    var c' := Spliced(c, j, node);
    var p: nat, q: nat :| At(ops, nodes, th, i, c, p, q);
    if th.pc.Walking? || th.pc.Linking? || th.pc.Swapping? {
      var p', q' := SeenKept(ops, nodes, th, i, c, j, node, th.pc.prev, th.pc.cur, p, q);
      if th.pc.Walking? && th.sawKey {
        var r :| q <= r < |c| && ops.equal(th.key, nodes[c[r]].key);
        assert c'[if j <= r then r + 1 else r] == c[r];
      }
      assert At(ops, nodes, th, i, c', p', q');
    } else {
      assert At(ops, nodes, th, i, c', 0, 0);
    }
  }

  /** The setting of a successful swap: th inserts its node at position p of its chain. */
  ghost predicate SwapsAt<K>(
      ops: KeyOps<K>, n: nat, mem: map<Loc, Ptr>, nodes: map<Id, Node<K>>, table: set<Id>, cs: seq<seq<Id>>,
      th: Thread<K>, p: nat)
    requires TableOk(ops, n, mem, nodes, table, cs)
  {
    var c := cs[th.hash % n];
    && th.op.Insert? && th.op.node in nodes && nodes[th.op.node] == Node(th.key, th.hash) && th.op.node !in table
    && p <= |c| && th.pc.Swapping? && th.pc.prev == LocAt(th.hash % n, c, p)
    && Passed(ops, nodes, th, c, p)
    && (forall x | p <= x < |c| :: nodes[c[x]].hash > th.hash)
    && Load(mem, Next(th.op.node)) == PtrAt(c, p)
  }

  lemma SwapPositions<K>(
      ops: KeyOps<K>, n: nat, mem: map<Loc, Ptr>, nodes: map<Id, Node<K>>, table: set<Id>, cs: seq<seq<Id>>,
      th: Thread<K>, p: nat, cs': seq<seq<Id>>, uh: Thread<K>)
    requires TableOk(ops, n, mem, nodes, table, cs) && SwapsAt(ops, n, mem, nodes, table, cs, th, p)
    requires cs' == cs[th.hash % n := Spliced(cs[th.hash % n], p, th.op.node)]
    requires ChainSorted(nodes, Spliced(cs[th.hash % n], p, th.op.node))
    requires ChainOk(ops, n, mem, nodes, uh.hash % n, cs[uh.hash % n])
    requires Positioned(ops, nodes, uh, uh.hash % n, cs[uh.hash % n])
    ensures ChainSorted(nodes, cs'[uh.hash % n])
    ensures Positioned(ops, nodes, uh, uh.hash % n, cs'[uh.hash % n])
  {
    if uh.hash % n == th.hash % n {
      PositionKept(ops, nodes, th.hash % n, cs[th.hash % n], p, th.op.node, uh);
    }
  }

  lemma ResultKept<K>(ops: KeyOps<K>, nodes: map<Id, Node<K>>, table: set<Id>, node: Id, th: Thread<K>)
    requires ResultOk(ops, nodes, table, th)
    ensures ResultOk(ops, nodes, table + {node}, th)
    ensures HasKey(ops, nodes, table, th.key) ==> HasKey(ops, nodes, table + {node}, th.key)
  {
    if HasKey(ops, nodes, table, th.key) {
      var id :| id in table && id in nodes && ops.equal(th.key, nodes[id].key);
      assert id in table + {node};
    }
  }

  lemma PrevInTable<K>(
      ops: KeyOps<K>, n: nat, mem: map<Loc, Ptr>, nodes: map<Id, Node<K>>, table: set<Id>, cs: seq<seq<Id>>,
      th: Thread<K>, p: nat)
    requires TableOk(ops, n, mem, nodes, table, cs) && SwapsAt(ops, n, mem, nodes, table, cs, th, p)
    ensures th.pc.prev.Next? ==> th.pc.prev.id in table
  {
    if p > 0 { assert cs[th.hash % n][p - 1] in table; }
  }

  lemma SwapThreads<K(!new)>(
      ops: KeyOps<K>, n: nat, mem: map<Loc, Ptr>, nodes: map<Id, Node<K>>, table: set<Id>, cs: seq<seq<Id>>,
      threads: map<nat, Thread<K>>, t: nat, p: nat, mem': map<Loc, Ptr>, table': set<Id>, cs': seq<seq<Id>>)
    requires Lawful(ops) && TableOk(ops, n, mem, nodes, table, cs) && ThreadsOk(ops, n, mem, nodes, table, cs, threads)
    requires NodesApart(threads)
    requires t in threads && SwapsAt(ops, n, mem, nodes, table, cs, threads[t], p)
    requires threads[t].sawKey == false
    requires mem' == mem[threads[t].pc.prev := To(threads[t].op.node)] && table' == table + {threads[t].op.node}
    requires cs' == cs[threads[t].hash % n := Spliced(cs[threads[t].hash % n], p, threads[t].op.node)]
    requires TableOk(ops, n, mem', nodes, table', cs')
    ensures ThreadsOk(ops, n, mem', nodes, table', cs', threads[t := threads[t].(pc := Published)])
  {
    hide HasKey, ChainLinked, ChainSorted, ChainUnique, ChainPlaced, InTable, Passed, Seen, Spliced;
    var th := threads[t];
    var threads' := threads[t := th.(pc := Published)];
    PrevInTable(ops, n, mem, nodes, table, cs, th, p);
    assert ChainOk(ops, n, mem', nodes, th.hash % n, cs'[th.hash % n]);
    forall u | u in threads' ensures ThreadOk(ops, n, mem', nodes, table', cs', threads'[u]) {
      var uh := threads[u];
      assert ThreadOk(ops, n, mem, nodes, table, cs, uh);
      ResultKept(ops, nodes, table, th.op.node, uh);
      if u == t {
        assert At(ops, nodes, threads'[t], th.hash % n, cs'[th.hash % n], 0, 0);
      } else {
        assert ChainOk(ops, n, mem, nodes, uh.hash % n, cs[uh.hash % n]);
        SwapPositions(ops, n, mem, nodes, table, cs, th, p, cs', uh);
      }
    }
  }

  lemma SwapSetting<K(!new)>(
      ops: KeyOps<K>, n: nat, mem: map<Loc, Ptr>, nodes: map<Id, Node<K>>, table: set<Id>, cs: seq<seq<Id>>,
      th: Thread<K>) returns (p: nat)
    requires Lawful(ops) && TableOk(ops, n, mem, nodes, table, cs) && ThreadOk(ops, n, mem, nodes, table, cs, th)
    requires th.pc.Swapping? && Load(mem, th.pc.prev) == th.pc.cur
    ensures SwapsAt(ops, n, mem, nodes, table, cs, th, p) && !th.sawKey
    ensures TableOk(ops, n, mem[th.pc.prev := To(th.op.node)], nodes, table + {th.op.node},
                    cs[th.hash % n := Spliced(cs[th.hash % n], p, th.op.node)])
  {
    var i := th.hash % n;
    assert ChainOk(ops, n, mem, nodes, i, cs[i]);
    var q: nat;
    p, q :| At(ops, nodes, th, i, cs[i], p, q);
    SwapPoint(ops, nodes, mem, th, i, cs[i], p, q);
    SwapTable(ops, n, mem, nodes, table, cs, p, th);
  }

  lemma SwapOwners<K>(base: set<Id>, threads: map<nat, Thread<K>>, table: set<Id>, t: nat, th: Thread<K>)
    requires OwnersOk(base, threads, table)
    requires t in threads && th.op == threads[t].op && th.op.Insert?
    ensures OwnersOk(base, threads[t := th], table + {th.op.node})
  {
    var threads' := threads[t := th];
    assert threads'[t].op == Insert(th.op.node);
    forall id | id in table + {th.op.node} && id !in base ensures HasOwner(threads', id) {
      if id != th.op.node { OwnerKept(threads, t, th, id); }
    }
  }

  lemma SwapCounts<K>(
      base: set<Id>, threads: map<nat, Thread<K>>, refs: multiset<Id>, nItems: int, table: set<Id>, t: nat,
      th: Thread<K>)
    requires NodesApart(threads) && CountOk(threads, nItems, table) && RefsOk(threads, refs, table)
    requires t in threads && th.op == threads[t].op && th.op.Insert? && th.op.node !in table
    requires !Uncounted(threads[t].pc) && th.pc.Published?
    ensures CountOk(threads[t := th], nItems, table + {th.op.node})
    ensures RefsOk(threads[t := th], refs, table + {th.op.node})
  {
    var threads' := threads[t := th];
    assert UncountedThreads(threads') == UncountedThreads(threads) + {t};
    assert threads'[t].op == Insert(th.op.node) && threads'[t].pc.Published?;
    assert Unreferenced(threads', th.op.node);
    forall id | id != th.op.node ensures Unreferenced(threads', id) == Unreferenced(threads, id) {
      if Unreferenced(threads, id) {
        var u :| u in threads && threads[u].op == Insert(id) && threads[u].pc.Published?;
        assert threads'[u].op == Insert(id) && threads'[u].pc.Published?;
      }
    }
  }

  lemma SwapInv<K(!new)>(
      ops: KeyOps<K>, base: set<Id>, s: State<K>, cs: seq<seq<Id>>, t: nat) returns (cs': seq<seq<Id>>)
    requires Inv(ops, base, s, cs) && t in s.threads && s.threads[t].pc.Swapping?
    ensures Inv(ops, base, Advance(ops, s, t), cs')
    ensures Load(s.mem, s.threads[t].pc.prev) != s.threads[t].pc.cur ==> cs' == cs
  {
    assert Opened(0);
    var th := s.threads[t];
    assert ThreadOk(ops, s.nBuckets, s.mem, s.nodes, s.table, cs, th);
    if Load(s.mem, th.pc.prev) == th.pc.cur {
      var p := SwapSetting(ops, s.nBuckets, s.mem, s.nodes, s.table, cs, th);
      cs' := cs[th.hash % s.nBuckets := Spliced(cs[th.hash % s.nBuckets], p, th.op.node)];
      SwapThreads(ops, s.nBuckets, s.mem, s.nodes, s.table, cs, s.threads, t, p,
                  s.mem[th.pc.prev := To(th.op.node)], s.table + {th.op.node}, cs');
      SwapOwners(base, s.threads, s.table, t, th.(pc := Published));
      SwapCounts(base, s.threads, s.refs, s.nItems, s.table, t, th.(pc := Published));
    } else {
      cs' := cs;
      RetryThread(ops, s.nBuckets, s.mem, s.nodes, s.table, cs, th);
      MoveInv(ops, base, s, cs, t, th.(pc := Start));
    }
  }

  lemma RetryThread<K>(
      ops: KeyOps<K>, n: nat, mem: map<Loc, Ptr>, nodes: map<Id, Node<K>>, table: set<Id>, cs: seq<seq<Id>>,
      th: Thread<K>)
    requires TableOk(ops, n, mem, nodes, table, cs) && ThreadOk(ops, n, mem, nodes, table, cs, th) && th.pc.Swapping?
    ensures ThreadOk(ops, n, mem, nodes, table, cs, th.(pc := Start))
  {
    assert At(ops, nodes, th.(pc := Start), th.hash % n, cs[th.hash % n], 0, 0);
  }

  // ----- The reference and the count -----

  lemma PostSwapThread<K>(
      ops: KeyOps<K>, n: nat, mem: map<Loc, Ptr>, nodes: map<Id, Node<K>>, table: set<Id>, cs: seq<seq<Id>>,
      th: Thread<K>, pc: Pc)
    requires TableOk(ops, n, mem, nodes, table, cs) && ThreadOk(ops, n, mem, nodes, table, cs, th)
    requires Uncounted(th.pc) && th.op.Insert? && (pc.Referenced? || pc == Done(Inserted))
    ensures ThreadOk(ops, n, mem, nodes, table, cs, th.(pc := pc))
  {
    assert At(ops, nodes, th.(pc := pc), th.hash % n, cs[th.hash % n], 0, 0);
  }

  lemma ReferenceBookkeeping<K>(threads: map<nat, Thread<K>>, refs: multiset<Id>, table: set<Id>, t: nat, th: Thread<K>)
    requires NodesApart(threads) && RefsOk(threads, refs, table)
    requires t in threads && threads[t].pc.Published? && th == threads[t].(pc := Referenced)
    requires th.op.Insert? && th.op.node in table
    ensures RefsOk(threads[t := th], refs + multiset{th.op.node}, table)
  {
    var threads' := threads[t := th];
    assert threads[t].op == Insert(th.op.node);
    assert Unreferenced(threads, th.op.node) && !Unreferenced(threads', th.op.node);
    forall id | id != th.op.node ensures Unreferenced(threads', id) == Unreferenced(threads, id) {
      if Unreferenced(threads, id) {
        var u :| u in threads && threads[u].op == Insert(id) && threads[u].pc.Published?;
        assert threads'[u].op == Insert(id) && threads'[u].pc.Published?;
      }
    }
  }

  lemma CountBookkeeping<K>(
      threads: map<nat, Thread<K>>, refs: multiset<Id>, nItems: int, table: set<Id>, t: nat, th: Thread<K>)
    requires CountOk(threads, nItems, table) && RefsOk(threads, refs, table)
    requires t in threads && threads[t].pc.Referenced? && th == threads[t].(pc := Done(Inserted))
    ensures CountOk(threads[t := th], nItems + 1, table)
    ensures RefsOk(threads[t := th], refs, table)
  {
    assert UncountedThreads(threads[t := th]) == UncountedThreads(threads) - {t};
    forall id ensures Unreferenced(threads[t := th], id) == Unreferenced(threads, id) {
      UnreferencedKept(threads, t, th, id);
    }
  }

  lemma OwnersKept<K>(base: set<Id>, threads: map<nat, Thread<K>>, table: set<Id>, t: nat, th: Thread<K>)
    requires OwnersOk(base, threads, table) && t in threads && th.op == threads[t].op
    ensures OwnersOk(base, threads[t := th], table)
  {
    forall id | id in table && id !in base ensures HasOwner(threads[t := th], id) {
      OwnerKept(threads, t, th, id);
    }
  }

  lemma ReferenceInv<K(!new)>(ops: KeyOps<K>, base: set<Id>, s: State<K>, cs: seq<seq<Id>>, t: nat)
    requires Inv(ops, base, s, cs) && t in s.threads && s.threads[t].pc.Published?
    ensures Inv(ops, base, Advance(ops, s, t), cs)
  {
    hide ChainOk, Lawful, RefsOk, InTable, HasOwner, Unreferenced;
    assert Opened(0);
    var th := s.threads[t];
    var th' := th.(pc := Referenced);
    assert ThreadOk(ops, s.nBuckets, s.mem, s.nodes, s.table, cs, th);
    PostSwapThread(ops, s.nBuckets, s.mem, s.nodes, s.table, cs, th, Referenced);
    OwnersKept(base, s.threads, s.table, t, th');
    ReferenceBookkeeping(s.threads, s.refs, s.table, t, th');
    assert UncountedThreads(s.threads[t := th']) == UncountedThreads(s.threads);
    assert Advance(ops, s, t) == s.(threads := s.threads[t := th'], refs := s.refs + multiset{th.op.node});
  }

  lemma CountInv<K(!new)>(ops: KeyOps<K>, base: set<Id>, s: State<K>, cs: seq<seq<Id>>, t: nat)
    requires Inv(ops, base, s, cs) && t in s.threads && s.threads[t].pc.Referenced?
    ensures Inv(ops, base, Advance(ops, s, t), cs)
  {
    hide ChainOk, Lawful, OwnersOk, CountOk, RefsOk, UncountedThreads, InTable, OwnNodeOk;
    assert Opened(0);
    var th := s.threads[t];
    var th' := th.(pc := Done(Inserted));
    assert ThreadOk(ops, s.nBuckets, s.mem, s.nodes, s.table, cs, th);
    PostSwapThread(ops, s.nBuckets, s.mem, s.nodes, s.table, cs, th, Done(Inserted));
    OwnersKept(base, s.threads, s.table, t, th');
    CountBookkeeping(s.threads, s.refs, s.nItems, s.table, t, th');
    assert Advance(ops, s, t) == s.(threads := s.threads[t := th'], nItems := s.nItems + 1);
  }

  lemma StepInv<K(!new)>(
      ops: KeyOps<K>, base: set<Id>, s: State<K>, cs: seq<seq<Id>>, s': State<K>) returns (cs': seq<seq<Id>>)
    requires Inv(ops, base, s, cs) && Step(ops, s, s')
    ensures Inv(ops, base, s', cs')
  {
    var t :| t in s.threads && s.nBuckets > 0 && s' == Advance(ops, s, t);
    cs' := cs;
    match s.threads[t].pc
    case Waiting => StartInv(ops, base, s, cs, t);
    case Start => StartInv(ops, base, s, cs, t);
    case Walking(_, _) => WalkInv(ops, base, s, cs, t);
    case Linking(_, _) => LinkInv(ops, base, s, cs, t);
    case Swapping(_, _) => cs' := SwapInv(ops, base, s, cs, t);
    case Published => ReferenceInv(ops, base, s, cs, t);
    case Referenced => CountInv(ops, base, s, cs, t);
    case Done(_) =>
  }

  // ----- Main results -----

  /** A run: some interleaving of the threads' steps. */
  ghost predicate Run<K>(ops: KeyOps<K>, run: seq<State<K>>) {
    |run| > 0 && forall k | 0 <= k < |run| - 1 :: Step(ops, run[k], run[k + 1])
  }

  lemma {:induction false} RunInv<K(!new)>(ops: KeyOps<K>, run: seq<State<K>>) returns (cs: seq<seq<Id>>)
    requires Run(ops, run) && Init(ops, run[0])
    ensures Inv(ops, run[0].table, run[|run| - 1], cs)
    decreases |run|
  {
    if |run| == 1 {
      cs := InitInv(ops, run[0]);
    } else {
      var before := run[..|run| - 1];
      assert before[0] == run[0] && before[|before| - 1] == run[|run| - 2];
      forall k | 0 <= k < |before| - 1 ensures Step(ops, before[k], before[k + 1]) {
        assert Step(ops, run[k], run[k + 1]);
      }
      var cs0 := RunInv(ops, before);
      assert Step(ops, run[|run| - 2], run[|run| - 2 + 1]);
      cs := StepInv(ops, run[0].table, run[|run| - 2], cs0, run[|run| - 1]);
    }
  }

  ghost predicate Quiescent<K>(s: State<K>) {
    forall t | t in s.threads :: s.threads[t].pc.Done?
  }

  /** In every state of every interleaving the memory holds chains that are sorted by hash, free of
      duplicates and in their own buckets; the item count lags by the inserters that have swapped but
      not yet counted; and once every thread is done it is the number of nodes, each referenced once. */
  lemma AlwaysWellFormed<K(!new)>(ops: KeyOps<K>, run: seq<State<K>>)
    requires Run(ops, run) && Init(ops, run[0])
    ensures var s := run[|run| - 1];
      && (exists cs :: TableOk(ops, s.nBuckets, s.mem, s.nodes, s.table, cs))
      && run[0].table <= s.table
      && s.nItems + |UncountedThreads(s.threads)| == |s.table|
      && (Quiescent(s) ==> s.nItems == |s.table| && s.refs == multiset(s.table))
  {
    var s := run[|run| - 1];
    var cs := RunInv(ops, run);
    assert Opened(0);
    if Quiescent(s) {
      assert UncountedThreads(s.threads) == {};
      forall id ensures s.refs[id] == multiset(s.table)[id] {
        assert !Unreferenced(s.threads, id);
      }
    }
  }

  /** What no step changes: nodes are immutable, published nodes stay, operations keep their identity,
      and what an operation saw when it started is not revised. */
  ghost predicate Frame<K>(ops: KeyOps<K>, s: State<K>, s': State<K>) {
    && s'.nodes == s.nodes && s.table <= s'.table && s'.threads.Keys == s.threads.Keys
    && forall t | t in s.threads ::
         && s'.threads[t].op == s.threads[t].op && s'.threads[t].key == s.threads[t].key
         && (!s.threads[t].pc.Waiting? ==> !s'.threads[t].pc.Waiting? && s'.threads[t].sawKey == s.threads[t].sawKey)
         && (s.threads[t].pc.Waiting? && !s'.threads[t].pc.Waiting? ==>
              HasKey(ops, s.nodes, s.table, s.threads[t].key) ==> s'.threads[t].sawKey)
  }

  lemma HasKeyGrows<K>(ops: KeyOps<K>, nodes: map<Id, Node<K>>, a: set<Id>, b: set<Id>, key: K)
    requires a <= b && HasKey(ops, nodes, a, key)
    ensures HasKey(ops, nodes, b, key)
  {
    var id :| id in a && id in nodes && ops.equal(key, nodes[id].key);
    assert id in b;
  }

  /** A step touches one thread only, and of that thread only its position and history flag. */
  ghost predicate Touches<K>(ops: KeyOps<K>, s: State<K>, s': State<K>, t: nat)
    requires t in s.threads
  {
    var th := s.threads[t];
    && s'.nodes == s.nodes && s.table <= s'.table
    && t in s'.threads && s'.threads == s.threads[t := s'.threads[t]]
    && s'.threads[t].op == th.op && s'.threads[t].key == th.key && !s'.threads[t].pc.Waiting?
    && s'.threads[t].sawKey == if th.pc.Waiting? then HasKey(ops, s.nodes, s.table, th.key) else th.sawKey
  }

  /** Up to the end of the walk. */
  predicate Searching(pc: Pc) { pc.Waiting? || pc.Start? || pc.Walking? }

  lemma SearchTouches<K>(ops: KeyOps<K>, s: State<K>, t: nat)
    requires t in s.threads && s.nBuckets > 0 && Searching(s.threads[t].pc)
    ensures Touches(ops, s, Advance(ops, s, t), t)
  {
    assert s.threads == s.threads[t := s.threads[t]];
  }

  lemma InsertTouches<K>(ops: KeyOps<K>, s: State<K>, t: nat)
    requires t in s.threads && s.nBuckets > 0 && !Searching(s.threads[t].pc)
    ensures Touches(ops, s, Advance(ops, s, t), t)
  {
    assert s.threads == s.threads[t := s.threads[t]];
  }

  lemma StepFrame<K>(ops: KeyOps<K>, s: State<K>, s': State<K>)
    requires Step(ops, s, s')
    ensures Frame(ops, s, s')
  {
    var t :| t in s.threads && s.nBuckets > 0 && s' == Advance(ops, s, t);
    if Searching(s.threads[t].pc) { SearchTouches(ops, s, t); }
    else { InsertTouches(ops, s, t); }
    hide Advance, HasKey;
    TouchesFrame(ops, s, s', t);
  }

  lemma TouchesFrame<K>(ops: KeyOps<K>, s: State<K>, s': State<K>, t: nat)
    requires t in s.threads && Touches(ops, s, s', t)
    ensures Frame(ops, s, s')
  {
    assert s'.threads.Keys == s.threads.Keys;
  }

  lemma FrameTransitive<K>(ops: KeyOps<K>, a: State<K>, b: State<K>, c: State<K>)
    requires Frame(ops, a, b) && Frame(ops, b, c)
    ensures Frame(ops, a, c)
  {
    assert a.threads.Keys == c.threads.Keys;
    forall t | t in a.threads && a.threads[t].pc.Waiting? && !c.threads[t].pc.Waiting?
      && HasKey(ops, a.nodes, a.table, a.threads[t].key)
      ensures c.threads[t].sawKey
    {
      if b.threads[t].pc.Waiting? {
        HasKeyGrows(ops, a.nodes, a.table, b.table, a.threads[t].key);
      }
    }
  }

  lemma {:induction false} RunFrame<K>(ops: KeyOps<K>, run: seq<State<K>>, k: nat)
    requires Run(ops, run) && k < |run|
    ensures Frame(ops, run[k], run[|run| - 1])
    decreases |run| - k
  {
    if k < |run| - 1 {
      StepFrame(ops, run[k], run[k + 1]);
      RunFrame(ops, run, k + 1);
      FrameTransitive(ops, run[k], run[k + 1], run[|run| - 1]);
    }
  }

  /** Lookups under the shared lock: a FindKey that takes the lock when the key is in the table finds
      a node with that key whatever is being inserted around it, and FindKey never finds a wrong one. */
  lemma FindIsComplete<K(!new)>(ops: KeyOps<K>, run: seq<State<K>>, k: nat, t: nat)
    requires Run(ops, run) && Init(ops, run[0]) && k < |run|
    requires t in run[k].threads && run[k].threads[t].op.Find?
    requires t in run[|run| - 1].threads && run[|run| - 1].threads[t].pc.Done?
    ensures var s := run[|run| - 1]; var r := s.threads[t].pc.result;
      && (r.NotFound? || r.Found?)
      && (r.Found? ==> r.id in s.table && r.id in s.nodes && ops.equal(s.threads[t].key, s.nodes[r.id].key))
      && (run[k].threads[t].pc.Waiting? && HasKey(ops, run[k].nodes, run[k].table, run[k].threads[t].key) ==> r.Found?)
  {
    var s := run[|run| - 1];
    var cs := RunInv(ops, run);
    assert Opened(0);
    RunFrame(ops, run, k);
    assert ThreadOk(ops, s.nBuckets, s.mem, s.nodes, s.table, cs, s.threads[t]);
  }

  ghost predicate InsertsKey<K>(ops: KeyOps<K>, th: Thread<K>, key: K) {
    th.op.Insert? && ops.equal(key, th.key)
  }

  /** Among any number of concurrent inserts of one key at most one succeeds; none does when the key was
      there before them, and an insert that is refused is refused because the key is there. */
  lemma AtMostOneInserted<K(!new)>(ops: KeyOps<K>, run: seq<State<K>>, key: K)
    requires Run(ops, run) && Init(ops, run[0])
    ensures var s := run[|run| - 1];
      && (forall t, u | t in s.threads && u in s.threads && InsertsKey(ops, s.threads[t], key) &&
        InsertsKey(ops, s.threads[u], key)
            && s.threads[t].pc == Done(Inserted) && s.threads[u].pc == Done(Inserted) :: t == u)
      && (HasKey(ops, s.nodes, run[0].table, key) ==>
            forall t | t in s.threads && InsertsKey(ops, s.threads[t], key) :: s.threads[t].pc != Done(Inserted))
      && (forall t | t in s.threads && InsertsKey(ops, s.threads[t], key) && Refused(s.threads[t].pc) ::
            HasKey(ops, s.nodes, s.table, key))
  {
    var s := run[|run| - 1];
    var cs := RunInv(ops, run);
    assert Opened(0);
    forall t, u | t in s.threads && u in s.threads && InsertsKey(ops, s.threads[t], key) &&
      InsertsKey(ops, s.threads[u], key)
      && s.threads[t].pc == Done(Inserted) && s.threads[u].pc == Done(Inserted)
      ensures t == u
    {
      assert ThreadOk(ops, s.nBuckets, s.mem, s.nodes, s.table, cs, s.threads[t]);
      assert ThreadOk(ops, s.nBuckets, s.mem, s.nodes, s.table, cs, s.threads[u]);
      KeyIsUnique(ops, s.nBuckets, s.mem, s.nodes, s.table, cs, s.threads[t].op.node, s.threads[u].op.node);
    }
    if HasKey(ops, s.nodes, run[0].table, key) {
      var id :| id in run[0].table && id in s.nodes && ops.equal(key, s.nodes[id].key);
      forall t | t in s.threads && InsertsKey(ops, s.threads[t], key) ensures s.threads[t].pc != Done(Inserted) {
        if s.threads[t].pc == Done(Inserted) {
          assert ThreadOk(ops, s.nBuckets, s.mem, s.nodes, s.table, cs, s.threads[t]);
          KeyIsUnique(ops, s.nBuckets, s.mem, s.nodes, s.table, cs, s.threads[t].op.node, id);
        }
      }
    }
    forall t | t in s.threads && InsertsKey(ops, s.threads[t], key) && Refused(s.threads[t].pc)
      ensures HasKey(ops, s.nodes, s.table, key)
    {
      assert ThreadOk(ops, s.nBuckets, s.mem, s.nodes, s.table, cs, s.threads[t]);
      var id :| id in s.table && id in s.nodes && ops.equal(s.threads[t].key, s.nodes[id].key);
      assert ops.equal(key, s.nodes[id].key);
    }
  }

  lemma KeyIsUnique<K(!new)>(
      ops: KeyOps<K>, n: nat, mem: map<Loc, Ptr>, nodes: map<Id, Node<K>>, table: set<Id>, cs: seq<seq<Id>>, a: Id,
      b: Id)
    requires Lawful(ops) && TableOk(ops, n, mem, nodes, table, cs)
    requires a in table && b in table && a in nodes && b in nodes && ops.equal(nodes[a].key, nodes[b].key)
    ensures a == b
  {
    var i, j :| 0 <= i < |cs| && 0 <= j < |cs[i]| && cs[i][j] == a;
    var k, l :| 0 <= k < |cs| && 0 <= l < |cs[k]| && cs[k][l] == b;
    assert ChainOk(ops, n, mem, nodes, i, cs[i]) && ChainOk(ops, n, mem, nodes, k, cs[k]);
    assert nodes[cs[i][j]].hash % n == i && nodes[cs[k][l]].hash % n == k;
  }

  /** When all concurrent inserts of an absent key are done, exactly one of them inserted it and every
      other one reports that it already exists. */
  lemma ExactlyOneInserted<K(!new)>(ops: KeyOps<K>, run: seq<State<K>>, key: K, first: nat) returns (winner: nat)
    requires Run(ops, run) && Init(ops, run[0])
    requires !HasKey(ops, run[0].nodes, run[0].table, key)
    requires var s := run[|run| - 1];
      && first in s.threads && InsertsKey(ops, s.threads[first], key)
      && forall t | t in s.threads && InsertsKey(ops, s.threads[t], key) :: s.threads[t].pc.Done?
    ensures var s := run[|run| - 1];
      && winner in s.threads && InsertsKey(ops, s.threads[winner], key) && s.threads[winner].pc == Done(Inserted)
      && s.threads[winner].op.node in s.table
      && forall t | t in s.threads && InsertsKey(ops, s.threads[t], key) && t != winner ::
        Refused(s.threads[t].pc)
  {
    var s := run[|run| - 1];
    var cs := RunInv(ops, run);
    assert Opened(0);
    RunFrame(ops, run, 0);
    AtMostOneInserted(ops, run, key);
    assert ThreadOk(ops, s.nBuckets, s.mem, s.nodes, s.table, cs, s.threads[first]);
    if s.threads[first].pc == Done(Inserted) {
      winner := first;
    } else {
      winner := WinnerOf(ops, run[0].table, s, cs, key);
    }
    forall t | t in s.threads && InsertsKey(ops, s.threads[t], key) && t != winner
      ensures Refused(s.threads[t].pc)
    {
      assert ThreadOk(ops, s.nBuckets, s.mem, s.nodes, s.table, cs, s.threads[t]);
    }
    assert ThreadOk(ops, s.nBuckets, s.mem, s.nodes, s.table, cs, s.threads[winner]);
  }

  /** A key that was not in `base` but is in the table now was put there by a thread. */
  lemma WinnerOf<K(!new)>(ops: KeyOps<K>, base: set<Id>, s: State<K>, cs: seq<seq<Id>>, key: K) returns (winner: nat)
    requires Inv(ops, base, s, cs)
    requires HasKey(ops, s.nodes, s.table, key) && !HasKey(ops, s.nodes, base, key)
    ensures winner in s.threads && InsertsKey(ops, s.threads[winner], key) && HasPublished(s.threads[winner].pc)
  {
    assert Opened(0);
    var id :| id in s.table && id in s.nodes && ops.equal(key, s.nodes[id].key);
    assert id !in base;
    assert HasOwner(s.threads, id);
    winner :| winner in s.threads && s.threads[winner].op == Insert(id);
    assert ThreadOk(ops, s.nBuckets, s.mem, s.nodes, s.table, cs, s.threads[winner]);
  }
}

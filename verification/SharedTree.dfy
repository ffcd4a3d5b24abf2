/**
 Concurrent insertion into one TREE_HASH_TABLE under its shared lock.

 Any number of callers run InsertRecord at the same time.  Each looks for the longest ancestor of its key that
 has a node and then adds the nodes that are missing, down to its record.  The bucket chains are those of
 SharedInsert: a search, or an attempt to add a node, is a call there, and each of its loads, stores and
 swaps is a step.  The load of a parent's first child, the store to the new node's sibling link, the swap
 that joins the node to its parent, the swap of a record pointer and the reference on a record are steps of
 their own too.  The steps of different callers interleave freely.
 */
module SharedTree {
  import opened HashKeys
  import HashTables
  import opened Opening
  import TreeForests
  import opened SharedCalls
  import opened SharedInsert
  import opened TreeFamily
  import opened TreePaths
  import opened Words

  /** How far the loop is that joins a node to its parent: its sibling link gets the first child that was read. */
  datatype Phase = Reading | Storing(cur: Ptr) | Comparing(cur: Ptr)

  datatype CallerPc =
    | Begun
    | Cutting(end: nat)                                   // no ancestor of length end or more has a node
    | Looking(cut: nat, call: nat)                        // searching for the ancestor of this length
    | Adding(end: nat, parent: Ptr)                       // about to allocate the node for this much of the key
    | Inserting(end: nat, parent: Ptr, call: nat)         // putting it into its bucket
    | Joining(end: nat, above: Id, call: nat, phase: Phase)
    | Filling(node: Id)                                   // the key had a node: about to swap its record pointer
    | Filled(node: Id)                                    // the record is not referenced yet
    | Ended(status: HashTables.Status)

  datatype Caller<R> = Caller(record: R, key: string, pc: CallerPc)

  /** `b` is the bucket layer; its own count of references says which nodes' callers are past referencing.
      `refs` counts the references on the records, by the nodes that hold them.
      `giver` is a history variable: the caller whose record a node got. */
  datatype TreeState<R> = TreeState(
    b: State<string>,
    parent: map<Id, Ptr>,
    first: map<Id, Ptr>,
    sibling: map<Id, Ptr>,
    held: map<Id, Held<R>>,
    refs: multiset<Id>,
    callers: map<nat, Caller<R>>,
    giver: map<Id, nat>)

  function Read(m: map<Id, Ptr>, id: Id): Ptr {
    if id in m then m[id] else Null
  }

  // ----- The steps -----

  function Go<R>(s: TreeState<R>, t: nat, pc: CallerPc): TreeState<R>
    requires t in s.callers
  {
    s.(callers := s.callers[t := s.callers[t].(pc := pc)])
  }

  /** What the new node carries: the record if it is for the whole key. */
  function Gift<R>(ca: Caller<R>, end: nat): Held<R> {
    if end == |ca.key| then Held(ca.record) else Empty
  }

  /** AllocateNode. */
  function Allocated<R>(s: TreeState<R>, id: Id, parent: Ptr, record: Held<R>): TreeState<R> {
    s.(parent := s.parent[id := parent], first := s.first[id := Null], sibling := s.sibling[id := Null],
       held := s.held[id := record])
  }

  /** A node is allocated, and its insertion into its bucket begins. */
  ghost function Allocates<R>(
      hash: string -> dword, s: TreeState<R>, t: nat, call: nat, id: Id): TreeState<R>
    requires t in s.callers && s.callers[t].pc.Adding? && s.callers[t].pc.end <= |s.callers[t].key|
  {
    var ca := s.callers[t];
    var end, parent := ca.pc.end, ca.pc.parent;
    Go(Allocated(s, id, parent, Gift(ca, end)).(
         b := Called(TreeForests.PathKeys(hash), s.b, call, Insert(id), ca.key[..end])),
       t, Inserting(end, parent, call))
  }

  /** The node for key[..end] is there: on to the next one. */
  function After(key: string, end: nat, node: Id): CallerPc {
    if end >= |key| then Ended(HashTables.Ok) else Adding(NextCut(key, end + 1), To(node))
  }

  /** A step of the bucket layer; the swap also publishes what the node carries. */
  ghost function InsertTurn<R>(hash: string -> dword, s: TreeState<R>, t: nat): TreeState<R>
    requires t in s.callers && s.callers[t].pc.Inserting? && s.callers[t].pc.call in s.b.threads && s.b.nBuckets > 0
    requires s.b.threads[s.callers[t].pc.call].op.Insert?
  {
    var ca := s.callers[t];
    var th := s.b.threads[ca.pc.call];
    var b' := Advance(TreeForests.PathKeys(hash), s.b, ca.pc.call);
    var whole := ca.pc.end == |ca.key|;
    s.(b := b',
       giver := if whole && b'.table != s.b.table then s.giver[th.op.node := t] else s.giver,
       refs := if whole && th.pc.Published? then s.refs + multiset{th.op.node} else s.refs)
  }

  /** What a caller does when its search for the ancestor of length c is over. */
  function Looked(key: string, c: nat, result: Result): CallerPc
    requires c < |key|
  {
    if result.Found? then Adding(NextCut(key, c + 1), To(result.id)) else Cutting(c)
  }

  /** What a caller does when its attempt to put a node into its bucket is over. */
  function Returned<R>(ca: Caller<R>, node: Id, result: Result): CallerPc
    requires ca.pc.Inserting?
  {
    match result
    case Inserted =>
      if ca.pc.parent.To? then Joining(ca.pc.end, ca.pc.parent.id, ca.pc.call, Reading)
      else After(ca.key, ca.pc.end, node)
    case AlreadyExists(found) =>
      if ca.pc.end >= |ca.key| then Filling(found) else Adding(NextCut(ca.key, ca.pc.end + 1), To(found))
    case _ => ca.pc
  }

  /** The store to the sibling link. */
  function Stored<R>(s: TreeState<R>, t: nat, id: Id, cur: Ptr): TreeState<R>
    requires t in s.callers && s.callers[t].pc.Joining?
  {
    Go(s.(sibling := s.sibling[id := cur]), t, s.callers[t].pc.(phase := Comparing(cur)))
  }

  /** The swap of the parent's first child succeeds. */
  function Swapped<R>(s: TreeState<R>, t: nat, id: Id): TreeState<R>
    requires t in s.callers && s.callers[t].pc.Joining?
  {
    var ca := s.callers[t];
    Go(s.(first := s.first[ca.pc.above := To(id)]), t, After(ca.key, ca.pc.end, id))
  }

  /** The swap of the record pointer succeeds. */
  function FilledWith<R>(s: TreeState<R>, t: nat, id: Id): TreeState<R>
    requires t in s.callers
  {
    Go(s.(held := s.held[id := Held(s.callers[t].record)], giver := s.giver[id := t]), t, Filled(id))
  }

  /** The steps of the loop that joins a node to its parent. */
  function JoinTurn<R>(s: TreeState<R>, t: nat, node: Id): TreeState<R>
    requires t in s.callers && s.callers[t].pc.Joining?
  {
    var ca := s.callers[t];
    var pc := ca.pc;
    match pc.phase
    case Reading => Go(s, t, pc.(phase := Storing(Read(s.first, pc.above))))
    case Storing(cur) => Stored(s, t, node, cur)
    case Comparing(cur) =>
      if Read(s.first, pc.above) == cur then Swapped(s, t, node) else Go(s, t, pc.(phase := Reading))
  }

  /** What caller t does next; `call` and `id` are what a new call and a new node would get, and `memory` says
      whether a node can be allocated. */
  ghost function Turn<R>(
      hash: string -> dword, s: TreeState<R>, t: nat, call: nat, id: Id, memory: bool): TreeState<R>
    requires t in s.callers && s.b.nBuckets > 0
  {
    var ca := s.callers[t];
    var ops := TreeForests.PathKeys(hash);
    match ca.pc
    case Begun => Go(s, t, Cutting(|ca.key|))
    case Cutting(end) =>
      if end > |ca.key| || ca.key == "" then s
      else if LastCutBefore(ca.key, end) == 0 then Go(s, t, Adding(NextCut(ca.key, 1), Null))
      else
        var c := LastCutBefore(ca.key, end);
        Go(s.(b := Called(ops, s.b, call, Find, ca.key[..c])), t, Looking(c, call))
    case Looking(c, k) =>
      if k !in s.b.threads || c >= |ca.key| then s
      else if !s.b.threads[k].pc.Done? then s.(b := Advance(ops, s.b, k))
      else Go(s, t, Looked(ca.key, c, s.b.threads[k].pc.result))
    case Adding(end, parent) =>
      if end > |ca.key| then s
      else if !memory then Go(s, t, Ended(HashTables.OutOfMemory))
      else Allocates(hash, s, t, call, id)
    case Inserting(end, parent, k) =>
      if k !in s.b.threads || s.b.threads[k].op.Find? then s
      else if s.b.threads[k].pc.Done? then Go(s, t, Returned(ca, s.b.threads[k].op.node, s.b.threads[k].pc.result))
      else InsertTurn(hash, s, t)
    case Joining(end, parent, k, phase) =>
      if k !in s.b.threads || s.b.threads[k].op.Find? then s else JoinTurn(s, t, s.b.threads[k].op.node)
    case Filling(node) =>
      if node in s.held && s.held[node].Empty? then FilledWith(s, t, node)
      else Go(s, t, Ended(HashTables.AlreadyExists))
    case Filled(node) => Go(s.(refs := s.refs + multiset{node}), t, Ended(HashTables.Ok))
    case Ended(_) => s
  }

  ghost predicate TreeStep<R>(hash: string -> dword, s: TreeState<R>, s': TreeState<R>) {
    exists t, call, id, memory ::
      && t in s.callers && s.b.nBuckets > 0 && call !in s.b.threads && id !in s.b.nodes
      && s' == Turn(hash, s, t, call, id, memory)
  }

  // ----- What holds in every state: the tree -----

  ghost predicate NodeAt(b: State<string>, id: Id, path: string) {
    id in b.table && id in b.nodes && b.nodes[id].key == path
  }

  /** The node of the path's longest ancestor, or none for a root. */
  ghost predicate ParentIs(b: State<string>, path: string, parent: Ptr) {
    if LastCut(path) == 0 then parent.Null? else parent.To? && NodeAt(b, parent.id, path[..LastCut(path)])
  }

  /** Every node hangs under its longest ancestor. */
  ghost predicate Rooted(b: State<string>, parent: map<Id, Ptr>) {
    forall id | id in b.table :: id in b.nodes && ParentIs(b, b.nodes[id].key, Read(parent, id))
  }

  /** Node j of a child list points to its parent and to the next. */
  ghost predicate KidAt(table: set<Id>, parent: map<Id, Ptr>, sibling: map<Id, Ptr>, q: Id, c: seq<Id>, j: nat) {
    j < |c| && c[j] in table && Read(parent, c[j]) == To(q) && Read(sibling, c[j]) == PtrAt(c, j + 1)
  }

  ghost predicate ListOk(
      table: set<Id>, parent: map<Id, Ptr>, first: map<Id, Ptr>, sibling: map<Id, Ptr>, q: Id, c: seq<Id>) {
    && Read(first, q) == PtrAt(c, 0) && Distinct(c)
    && forall j {:trigger KidAt(table, parent, sibling, q, c, j)} | 0 <= j < |c| ::
      KidAt(table, parent, sibling, q, c, j)
  }

  /** The child lists are `kids`. */
  ghost predicate Lists<R>(s: TreeState<R>, kids: map<Id, seq<Id>>) {
    kids.Keys == s.b.table && forall q | q in kids :: ListOk(s.b.table, s.parent, s.first, s.sibling, q, kids[q])
  }

  /** The caller has put the node into its bucket but not yet under its parent. */
  ghost predicate Joins<R>(b: State<string>, ca: Caller<R>, id: Id) {
    && (ca.pc.Joining? || (ca.pc.Inserting? && ca.pc.parent.To?))
    && ca.pc.call in b.threads && b.threads[ca.pc.call].op == Insert(id) && HasPublished(b.threads[ca.pc.call].pc)
  }

  ghost predicate BeingJoined<R>(s: TreeState<R>, id: Id) {
    exists t :: t in s.callers && Joins(s.b, s.callers[t], id)
  }

  /** A node that is in its bucket is under its parent too, unless its caller is about to put it there. */
  ghost predicate Joined<R>(s: TreeState<R>, kids: map<Id, seq<Id>>, id: Id) {
    Read(s.parent, id).To? ==>
      var q := Read(s.parent, id).id;
      q in kids && (id in kids[q] <==> !BeingJoined(s, id))
  }

  ghost predicate AllJoined<R>(s: TreeState<R>, kids: map<Id, seq<Id>>) {
    forall id | id in s.b.table :: Joined(s, kids, id)
  }

  // ----- The records -----

  ghost predicate HadRecord<R>(base: TreeState<R>, id: Id) {
    id in base.b.table && id in base.held && base.held[id].Held?
  }

  /** A node has the record it had before, or that of the caller that gave it one, or none. */
  ghost predicate HeldOk<R>(keyOf: R -> string, base: TreeState<R>, s: TreeState<R>, id: Id) {
    && id in s.held && id in s.b.nodes
    && (s.held[id].Held? <==> id in s.giver || HadRecord(base, id))
    && (HadRecord(base, id) ==> id !in s.giver && s.held[id] == base.held[id])
    && (s.held[id].Held? ==> keyOf(s.held[id].r) == s.b.nodes[id].key)
  }

  /** The caller's record is in the node, and nothing can go wrong for it any more. */
  ghost predicate Wins<R>(b: State<string>, ca: Caller<R>, id: Id) {
    match ca.pc
    case Inserting(end, _, k) =>
      end == |ca.key| && k in b.threads && b.threads[k].op == Insert(id) && HasPublished(b.threads[k].pc)
    case Joining(end, _, k, _) => end == |ca.key| && k in b.threads && b.threads[k].op == Insert(id)
    case Filled(node) => node == id
    case Ended(status) => status.Ok?
    case _ => false
  }

  ghost predicate GiverOk<R>(s: TreeState<R>, id: Id)
    requires id in s.giver
  {
    var t := s.giver[id];
    && t in s.callers && NodeAt(s.b, id, s.callers[t].key)
    && id in s.held && s.held[id] == Held(s.callers[t].record) && Wins(s.b, s.callers[t], id)
  }

  /** The caller's record is in the node, but not yet referenced. */
  ghost predicate Awaits<R>(b: State<string>, ca: Caller<R>, id: Id) {
    || ca.pc == Filled(id)
    || (ca.pc.Inserting? && ca.pc.end == |ca.key| && ca.pc.call in b.threads
        && b.threads[ca.pc.call].op == Insert(id) && b.threads[ca.pc.call].pc.Published?)
  }

  ghost predicate Awaited<R>(s: TreeState<R>, id: Id) {
    exists t :: t in s.callers && Awaits(s.b, s.callers[t], id)
  }

  /** One reference on the record of each node, once its caller has taken it. */
  ghost predicate Counted<R>(s: TreeState<R>, id: Id) {
    s.refs[id] == if id in s.b.table && id in s.held && s.held[id].Held? && !Awaited(s, id) then 1 else 0
  }

  ghost predicate RecordsOk<R(!new)>(keyOf: R -> string, base: TreeState<R>, s: TreeState<R>) {
    && base.b.table <= s.b.table
    && (forall id | id in s.b.table :: HeldOk(keyOf, base, s, id))
    && (forall id | id in s.giver :: GiverOk(s, id))
    && (forall id :: Counted(s, id))
  }

  // ----- The callers -----

  predicate Uses(pc: CallerPc, call: nat) {
    (pc.Looking? || pc.Inserting? || pc.Joining?) && pc.call == call
  }

  /** Where a node has to be for a key: at a cut, or at the end. */
  predicate Stop(key: string, end: nat) {
    0 < end <= |key| && (IsCut(key, end) || end == |key|)
  }

  ghost predicate Gave<R>(s: TreeState<R>, t: nat, id: Id) {
    id in s.giver && s.giver[id] == t
  }

  /** The caller's call puts a node for key[..end] under that parent. */
  ghost predicate Owns<R>(s: TreeState<R>, ca: Caller<R>, end: nat, parent: Ptr, call: nat) {
    && Stop(ca.key, end) && ParentIs(s.b, ca.key[..end], parent)
    && call in s.b.threads && s.b.threads[call].op.Insert? && s.b.threads[call].key == ca.key[..end]
    && var node := s.b.threads[call].op.node;
    && Read(s.parent, node) == parent
    && (node !in s.b.table ==> node in s.held && s.held[node] == Gift(ca, end) && Read(s.first, node).Null?)
  }

  ghost predicate CallerOk<R>(keyOf: R -> string, s: TreeState<R>, t: nat)
    requires t in s.callers
  {
    var ca := s.callers[t];
    && ca.key != "" && keyOf(ca.record) == ca.key
    && match ca.pc
       case Begun => true
       case Cutting(end) => end <= |ca.key|
       case Looking(c, k) =>
         IsCut(ca.key, c) && k in s.b.threads && s.b.threads[k].op.Find? && s.b.threads[k].key == ca.key[..c]
       case Adding(end, parent) => Stop(ca.key, end) && ParentIs(s.b, ca.key[..end], parent)
       case Inserting(end, parent, k) =>
         && Owns(s, ca, end, parent, k)
         && (HasPublished(s.b.threads[k].pc) && end == |ca.key| ==> Gave(s, t, s.b.threads[k].op.node))
       case Joining(end, q, k, phase) =>
         && Owns(s, ca, end, To(q), k) && s.b.threads[k].pc == Done(Inserted)
         && (end == |ca.key| ==> Gave(s, t, s.b.threads[k].op.node))
         && (phase.Comparing? ==> Read(s.sibling, s.b.threads[k].op.node) == phase.cur)
       case Filling(node) => NodeAt(s.b, node, ca.key)
       case Filled(node) => Gave(s, t, node)
       case Ended(status) =>
         && !status.InvalidArgument?
         && (status.Ok? ==> exists id :: Gave(s, t, id))
         && (status.AlreadyExists? ==> exists id :: NodeAt(s.b, id, ca.key) && id in s.held && s.held[id].Held?)
  }

  /** No two callers share a call. */
  ghost predicate CallsApart<R>(callers: map<nat, Caller<R>>) {
    forall t, u, k | t in callers && u in callers && Uses(callers[t].pc, k) && Uses(callers[u].pc, k) :: t == u
  }

  /** The path is a key of some caller, or an ancestor of one. */
  ghost predicate Wanted<R>(callers: map<nat, Caller<R>>, path: string) {
    exists t :: t in callers && Under(path, callers[t].key)
  }

  ghost predicate InUse<R>(callers: map<nat, Caller<R>>, call: nat) {
    exists t :: t in callers && Uses(callers[t].pc, call)
  }

  /** Every call is over or some caller's, and is for a wanted path. */
  ghost predicate CallsServe<R>(s: TreeState<R>) {
    forall k | k in s.b.threads ::
      (s.b.threads[k].pc.Done? || InUse(s.callers, k)) && Wanted(s.callers, s.b.threads[k].key)
  }

  ghost predicate CallersOk<R>(keyOf: R -> string, s: TreeState<R>) {
    && (forall t | t in s.callers :: CallerOk(keyOf, s, t))
    && CallsApart(s.callers)
    && CallsServe(s)
  }

  /** What has happened since `base`: nodes were added, and the callers went on. */
  ghost predicate Since<R>(base: TreeState<R>, s: TreeState<R>) {
    && Extends(base.b.nodes, s.b.nodes) && s.callers.Keys == base.callers.Keys
    && forall t | t in s.callers ::
         s.callers[t].key == base.callers[t].key && s.callers[t].record == base.callers[t].record
  }

  /** The invariant of every interleaving, closed. */
  ghost predicate TreeInv<R(!new)>(
      hash: string -> dword, keyOf: R -> string, base: TreeState<R>, s: TreeState<R>, cs: seq<seq<Id>>,
      kids: map<Id, seq<Id>>) {
    && s.b.nBuckets > 0 && cs != []
    && forall key: nat {:trigger Opened(key)} :: Opened(key) ==> IsTreeInv(hash, keyOf, base, s, cs, kids)
  }

  ghost predicate IsTreeInv<R(!new)>(
      hash: string -> dword, keyOf: R -> string, base: TreeState<R>, s: TreeState<R>, cs: seq<seq<Id>>,
      kids: map<Id, seq<Id>>) {
    && Inv(TreeForests.PathKeys(hash), base.b.table, s.b, cs) && Since(base, s)
    && Rooted(s.b, s.parent) && Lists(s, kids) && AllJoined(s, kids)
    && RecordsOk(keyOf, base, s)
    && CallersOk(keyOf, s)
  }
}

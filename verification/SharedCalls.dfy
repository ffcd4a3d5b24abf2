/**
 Calls that begin while others are under way in a table that is shared.

 SharedInsert lets a given set of operations run; here one more can begin at any time, with a node that is
 allocated for it then.  The rest is what a caller needs to know of a step and of a result.
 */
module SharedCalls {
  import opened HashKeys
  import opened Opening
  import opened SharedInsert

  /** A lookup of a key begins, or the insertion of a new node for it. */
  ghost function Called<K>(ops: KeyOps<K>, b: State<K>, call: nat, op: Op, key: K): State<K> {
    b.(threads := b.threads[call := Thread(op, key, ops.hash(key), Waiting, false)],
       nodes := if op.Insert? then b.nodes[op.node := Node(key, ops.hash(key))] else b.nodes)
  }

  /** The new operation's number and node are not in use. */
  ghost predicate Unused<K>(b: State<K>, call: nat, op: Op) {
    call !in b.threads && (op.Insert? ==> op.node !in b.nodes)
  }

  /** No node of the first map is lost or changed in the second. */
  ghost predicate Extends<K>(nodes: map<Id, Node<K>>, nodes': map<Id, Node<K>>) {
    forall id | id in nodes :: id in nodes' && nodes'[id] == nodes[id]
  }

  lemma ChainExtended<K>(
      ops: KeyOps<K>, n: nat, mem: map<Loc, Ptr>, nodes: map<Id, Node<K>>, nodes': map<Id, Node<K>>, i: nat,
      c: seq<Id>)
    requires n > 0 && ChainOk(ops, n, mem, nodes, i, c) && Extends(nodes, nodes')
    ensures ChainOk(ops, n, mem, nodes', i, c)
  {
    forall j | 0 <= j < |c| ensures c[j] in nodes' && nodes'[c[j]] == nodes[c[j]] {
    }
  }

  lemma TableExtended<K>(
      ops: KeyOps<K>, n: nat, mem: map<Loc, Ptr>, nodes: map<Id, Node<K>>, nodes': map<Id, Node<K>>,
      table: set<Id>, cs: seq<seq<Id>>)
    requires TableOk(ops, n, mem, nodes, table, cs) && Extends(nodes, nodes')
    requires forall id | id in nodes' :: nodes'[id].hash == ops.hash(nodes'[id].key)
    ensures TableOk(ops, n, mem, nodes', table, cs)
  {
    forall i | 0 <= i < |cs| ensures ChainOk(ops, n, mem, nodes', i, cs[i]) {
      ChainExtended(ops, n, mem, nodes, nodes', i, cs[i]);
    }
  }

  lemma PositionExtended<K>(
      ops: KeyOps<K>, nodes: map<Id, Node<K>>, nodes': map<Id, Node<K>>, th: Thread<K>, i: nat, c: seq<Id>)
    requires ChainSorted(nodes, c) && ChainSorted(nodes', c) && Extends(nodes, nodes')
    requires Positioned(ops, nodes, th, i, c)
    ensures Positioned(ops, nodes', th, i, c)
  {
    var p: nat, q: nat :| At(ops, nodes, th, i, c, p, q);
    if th.pc.Walking? && th.sawKey {
      var r :| q <= r < |c| && ops.equal(th.key, nodes[c[r]].key);
      assert nodes'[c[r]] == nodes[c[r]];
    }
    assert At(ops, nodes', th, i, c, p, q);
  }

  lemma HasKeyExtended<K>(
      ops: KeyOps<K>, nodes: map<Id, Node<K>>, nodes': map<Id, Node<K>>, table: set<Id>, key: K)
    requires Extends(nodes, nodes') && HasKey(ops, nodes, table, key)
    ensures HasKey(ops, nodes', table, key)
  {
    var id :| id in table && id in nodes && ops.equal(key, nodes[id].key);
    assert nodes'[id] == nodes[id];
  }

  lemma ThreadExtended<K>(
      ops: KeyOps<K>, n: nat, mem: map<Loc, Ptr>, nodes: map<Id, Node<K>>, nodes': map<Id, Node<K>>,
      table: set<Id>, cs: seq<seq<Id>>, th: Thread<K>)
    requires TableOk(ops, n, mem, nodes, table, cs) && TableOk(ops, n, mem, nodes', table, cs)
    requires Extends(nodes, nodes') && ThreadOk(ops, n, mem, nodes, table, cs, th)
    ensures ThreadOk(ops, n, mem, nodes', table, cs, th)
  {
    hide ChainLinked, ChainUnique, ChainPlaced, InTable, Seen;
    var i := th.hash % n;
    assert ChainOk(ops, n, mem, nodes, i, cs[i]) && ChainOk(ops, n, mem, nodes', i, cs[i]);
    PositionExtended(ops, nodes, nodes', th, i, cs[i]);
    if th.sawKey { HasKeyExtended(ops, nodes, nodes', table, th.key); }
  }

  lemma InNodes<K>(
      ops: KeyOps<K>, n: nat, mem: map<Loc, Ptr>, nodes: map<Id, Node<K>>, table: set<Id>, cs: seq<seq<Id>>, id: Id)
    requires TableOk(ops, n, mem, nodes, table, cs) && id in table
    ensures id in nodes
  {
    var i, j :| 0 <= i < |cs| && 0 <= j < |cs[i]| && cs[i][j] == id;
    assert ChainOk(ops, n, mem, nodes, i, cs[i]);
  }

  lemma CallBookkeeping<K>(
      base: set<Id>, threads: map<nat, Thread<K>>, refs: multiset<Id>, nItems: int, table: set<Id>, call: nat,
      th: Thread<K>)
    requires OwnersOk(base, threads, table) && CountOk(threads, nItems, table) && RefsOk(threads, refs, table)
    requires call !in threads && th.pc.Waiting?
    requires th.op.Insert? ==>
      th.op.node !in table && forall t | t in threads && threads[t].op.Insert? :: threads[t].op.node != th.op.node
    ensures OwnersOk(base, threads[call := th], table)
    ensures CountOk(threads[call := th], nItems, table)
    ensures RefsOk(threads[call := th], refs, table)
  {
    var threads' := threads[call := th];
    assert UncountedThreads(threads') == UncountedThreads(threads);
    forall id | id in table && id !in base ensures HasOwner(threads', id) {
      var t :| t in threads && threads[t].op == Insert(id);
      assert threads'[t].op == Insert(id);
    }
    forall id ensures Unreferenced(threads', id) == Unreferenced(threads, id) {
      if Unreferenced(threads, id) {
        var t :| t in threads && threads[t].op == Insert(id) && threads[t].pc.Published?;
        assert threads'[t].op == Insert(id) && threads'[t].pc.Published?;
      }
    }
  }

  /** A call that begins disturbs nothing. */
  lemma CallInv<K(!new)>(
      ops: KeyOps<K>, base: set<Id>, b: State<K>, cs: seq<seq<Id>>, call: nat, op: Op, key: K)
    requires Inv(ops, base, b, cs) && Unused(b, call, op)
    ensures Inv(ops, base, Called(ops, b, call, op, key), cs)
    ensures op.Insert? ==> op.node !in b.table
  {
    hide ChainOk, InTable, OwnersOk, CountOk, RefsOk, OwnNodeOk, ResultOk, Positioned;
    assert Opened(0);
    var b' := Called(ops, b, call, op, key);
    var th := b'.threads[call];
    TableExtended(ops, b.nBuckets, b.mem, b.nodes, b'.nodes, b.table, cs);
    if op.Insert? && op.node in b.table {
      InNodes(ops, b.nBuckets, b.mem, b.nodes, b.table, cs, op.node);
    }
    forall t | t in b.threads ensures ThreadOk(ops, b.nBuckets, b.mem, b'.nodes, b.table, cs, b.threads[t])
      && (b.threads[t].op.Insert? ==> b.threads[t].op.node in b.nodes)
    {
      assert ThreadOk(ops, b.nBuckets, b.mem, b.nodes, b.table, cs, b.threads[t]);
      ThreadExtended(ops, b.nBuckets, b.mem, b.nodes, b'.nodes, b.table, cs, b.threads[t]);
      if b.threads[t].op.Insert? { OwnNode(ops, b.nBuckets, b.mem, b.nodes, b.table, cs, b.threads[t]); }
    }
    NewThread(ops, b.nBuckets, b.mem, b'.nodes, b.table, cs, th);
    CallBookkeeping(base, b.threads, b.refs, b.nItems, b.table, call, th);
  }

  lemma OwnNode<K>(
      ops: KeyOps<K>, n: nat, mem: map<Loc, Ptr>, nodes: map<Id, Node<K>>, table: set<Id>, cs: seq<seq<Id>>,
      th: Thread<K>)
    requires TableOk(ops, n, mem, nodes, table, cs) && ThreadOk(ops, n, mem, nodes, table, cs, th) && th.op.Insert?
    ensures th.op.node in nodes && nodes[th.op.node].key == th.key && (HasPublished(th.pc) <==> th.op.node in table)
  {
  }

  lemma NewThread<K>(
      ops: KeyOps<K>, n: nat, mem: map<Loc, Ptr>, nodes: map<Id, Node<K>>, table: set<Id>, cs: seq<seq<Id>>,
      th: Thread<K>)
    requires TableOk(ops, n, mem, nodes, table, cs) && th.pc.Waiting? && !th.sawKey && th.hash == ops.hash(th.key)
    requires th.op.Insert? ==>
      th.op.node in nodes && nodes[th.op.node] == Node(th.key, th.hash) && th.op.node !in table
    ensures ThreadOk(ops, n, mem, nodes, table, cs, th)
  {
    var i := th.hash % n;
    assert ChainOk(ops, n, mem, nodes, i, cs[i]);
    assert At(ops, nodes, th, i, cs[i], 0, 0);
  }

  /** What a caller knows of a call: its node is in the table once it is published, and a result is right. */
  ghost predicate Reports<K>(ops: KeyOps<K>, b: State<K>, th: Thread<K>) {
    && (th.op.Insert? ==>
          th.op.node in b.nodes && b.nodes[th.op.node].key == th.key &&
            (HasPublished(th.pc) <==> th.op.node in b.table))
    && (th.pc.Done? && (th.pc.result.Found? || th.pc.result.AlreadyExists?) ==>
          th.pc.result.id in b.table && th.pc.result.id in b.nodes
          && ops.equal(th.key, b.nodes[th.pc.result.id].key))
    && (th.pc.Done? ==> (th.op.Insert? <==> th.pc.result.Inserted? || th.pc.result.AlreadyExists?))
    && (th.op.Find? ==> !HasPublished(th.pc))
  }

  lemma CallReports<K(!new)>(ops: KeyOps<K>, base: set<Id>, b: State<K>, cs: seq<seq<Id>>, call: nat)
    requires Inv(ops, base, b, cs) && call in b.threads
    ensures Reports(ops, b, b.threads[call])
  {
    assert Opened(0);
    assert ThreadOk(ops, b.nBuckets, b.mem, b.nodes, b.table, cs, b.threads[call]);
  }

  /** A step of one call: the others stand still, and at most its own node is published. */
  ghost predicate Advances<K>(b: State<K>, b': State<K>, call: nat)
    requires call in b.threads
  {
    var th := b.threads[call];
    && call in b'.threads && b'.threads == b.threads[call := b'.threads[call]] && b'.nodes == b.nodes
    && b'.threads[call].op == th.op && b'.threads[call].key == th.key
    && (HasPublished(th.pc) ==> HasPublished(b'.threads[call].pc))
    && (if HasPublished(b'.threads[call].pc) && !HasPublished(th.pc)
        then th.op.Insert? && b'.table == b.table + {th.op.node} && b'.threads[call].pc.Published?
        else b'.table == b.table && !b'.threads[call].pc.Published?)
  }

  lemma AdvanceMoves<K>(ops: KeyOps<K>, b: State<K>, call: nat)
    requires call in b.threads && b.nBuckets > 0
    requires b.threads[call].op.Find? ==> !HasPublished(b.threads[call].pc)
    ensures Advances(b, Advance(ops, b, call), call)
  {
    if Searching(b.threads[call].pc) { SearchMoves(ops, b, call); } else { InsertMoves(ops, b, call); }
  }

  lemma SearchMoves<K>(ops: KeyOps<K>, b: State<K>, call: nat)
    requires call in b.threads && b.nBuckets > 0 && Searching(b.threads[call].pc)
    ensures Advances(b, Advance(ops, b, call), call)
  {
    hide HasKey, Load;
    SearchTouches(ops, b, call);
  }

  lemma InsertMoves<K>(ops: KeyOps<K>, b: State<K>, call: nat)
    requires call in b.threads && b.nBuckets > 0 && !Searching(b.threads[call].pc)
    requires b.threads[call].op.Find? ==> !HasPublished(b.threads[call].pc)
    ensures Advances(b, Advance(ops, b, call), call)
  {
    hide HasKey, Load;
    InsertTouches(ops, b, call);
  }
}

/**
 HASH_TABLE as a heap structure: an array of bucket heads and linked nodes whose links are rewritten in
 place.  Every operation is proved against the finite map from keys to records the table stands for.

 The record of a node and its hash never change while the node is in the table; they are const fields,
 so only the links are heap state.  ReferenceRecord and DereferenceRecord are counted in `refs`.
 */
module HashTables {
  import opened HashKeys
  import opened Opening
  import Primes
  import opened Words

  class Node<R> {
    var next: Node?<R>
    const record: R
    const hash: dword

    constructor (record: R, hash: dword)
      ensures this.record == record && this.hash == hash && next == null
    {
      this.record := record;
      this.hash := hash;
      next := null;
    }
  }

  datatype Status = Ok | AlreadyExists | OutOfMemory | InvalidArgument

  /** Bucket arrays stay below 0xffffffff / sizeof(pointer) slots. */
  const MAX_BUCKETS: nat := 0xffff_ffff / 8

  datatype Lookup<R> = Missing | Present(record: R)

  // ----- The table as a value -----

  /** What the heap holds: the bucket heads and every node's link; the chains they form; and the node
      each record lives in. */
  datatype Shape<R> = Shape(
    heads: seq<Node?<R>>,
    succ: map<Node<R>, Node?<R>>,
    chains: seq<seq<Node<R>>>,
    home: map<R, Node<R>>)

  /** The link that position j of a chain holds. */
  function LinkAt<R>(c: seq<Node<R>>, j: nat): Node?<R> {
    if j < |c| then c[j] else null
  }

  ghost predicate LinkOk<R>(succ: map<Node<R>, Node?<R>>, c: seq<Node<R>>, j: nat) {
    j < |c| && c[j] in succ && succ[c[j]] == LinkAt(c, j + 1)
  }

  ghost predicate Linked<R>(head: Node?<R>, succ: map<Node<R>, Node?<R>>, c: seq<Node<R>>) {
    head == LinkAt(c, 0) && forall j {:trigger LinkOk(succ, c, j)} | 0 <= j < |c| :: LinkOk(succ, c, j)
  }

  /** Sorted by hash, without repetition. */
  ghost predicate Ordered<R>(c: seq<Node<R>>) {
    forall a, b | 0 <= a < b < |c| :: c[a].hash <= c[b].hash && c[a] != c[b]
  }

  /** A node of the table: it is the home of its record. */
  ghost predicate AtHome<R>(home: map<R, Node<R>>, n: Node<R>) {
    n.record in home && home[n.record] == n
  }

  /** The nodes of chain i of n are nodes of the table that belong in bucket i. */
  ghost predicate Placed<R>(home: map<R, Node<R>>, n: nat, i: nat, c: seq<Node<R>>) {
    n > 0 && forall j {:trigger AtHome(home, c[j])} | 0 <= j < |c| :: AtHome(home, c[j]) && c[j].hash % n == i
  }

  ghost predicate ChainOk<R>(s: Shape<R>, i: nat)
    requires i < |s.chains| && i < |s.heads|
  {
    Linked(s.heads[i], s.succ, s.chains[i]) && Ordered(s.chains[i]) && Placed(s.home, |s.heads|, i, s.chains[i])
  }

  /** The home of a record carries it, and is filed in the chain of its hash. */
  ghost predicate Filed<R, K>(ops: KeyOps<K>, keyOf: R -> K, s: Shape<R>, r: R)
    requires r in s.home && 0 < |s.heads| == |s.chains|
  {
    var n := s.home[r];
    n.record == r && n.hash == ops.hash(keyOf(r)) && n in s.chains[n.hash % |s.heads|]
  }

  ghost predicate UniqueKeys<R, K>(ops: KeyOps<K>, keyOf: R -> K, records: set<R>) {
    forall r, q {:trigger ops.equal(keyOf(r), keyOf(q))} | r in records && q in records && r != q ::
      !ops.equal(keyOf(r), keyOf(q))
  }

  /** What the table is: sorted chains that hold exactly the nodes of its records, and no two records
      with equal keys. */
  ghost predicate IsTable<R, K(!new)>(ops: KeyOps<K>, keyOf: R -> K, s: Shape<R>) {
    && Lawful(ops)
    && 0 < |s.heads| == |s.chains|
    && (forall i {:trigger ChainOk(s, i)} | 0 <= i < |s.chains| :: ChainOk(s, i))
    && (forall r {:trigger Filed(ops, keyOf, s, r)} | r in s.home :: Filed(ops, keyOf, s, r))
    && (forall n {:trigger AtHome(s.home, n)} | n in s.succ :: AtHome(s.home, n))
    && UniqueKeys(ops, keyOf, s.home.Keys)
  }

  /** IsTable, closed: methods and lemmas that only pass it on see no more of it than its outline. */
  ghost predicate TableOk<R, K(!new)>(ops: KeyOps<K>, keyOf: R -> K, s: Shape<R>) {
    0 < |s.heads| == |s.chains| && forall key: nat {:trigger Opened(key)} :: Opened(key) ==> IsTable(ops, keyOf, s)
  }

  lemma OpenTable<R, K(!new)>(ops: KeyOps<K>, keyOf: R -> K, s: Shape<R>)
    requires TableOk(ops, keyOf, s)
    ensures IsTable(ops, keyOf, s)
  {
    assert Opened(0);
  }

  lemma ChainOf<R, K(!new)>(ops: KeyOps<K>, keyOf: R -> K, s: Shape<R>, i: nat)
    requires TableOk(ops, keyOf, s) && i < |s.chains|
    ensures ChainOk(s, i)
  {
    OpenTable(ops, keyOf, s);
  }

  /** Some record of the set has this key. */
  ghost predicate Has<R, K>(ops: KeyOps<K>, keyOf: R -> K, records: set<R>, key: K) {
    exists r :: r in records && ops.equal(key, keyOf(r))
  }

  /** Nothing before position p has the key. */
  ghost predicate SearchedTo<R, K>(ops: KeyOps<K>, keyOf: R -> K, c: seq<Node<R>>, key: K, hash: dword, p: nat)
  {
    p <= |c| && forall x | 0 <= x < p :: c[x].hash <= hash && !(c[x].hash == hash && ops.equal(key, keyOf(c[x].record)))
  }

  /** node is at position p of the chain (null: its end) and prev in front of it (null: its head). */
  ghost predicate Cursor<R>(c: seq<Node<R>>, p: nat, node: Node?<R>, prev: Node?<R>) {
    && p <= |c|
    && node == LinkAt(c, p)
    && prev == (if p > 0 then c[p - 1] else null)
  }

  /** The search stops early at a larger hash, and loses nothing by it. */
  lemma SearchIsComplete<R, K(!new)>(ops: KeyOps<K>, keyOf: R -> K, s: Shape<R>, key: K, p: nat)
    requires TableOk(ops, keyOf, s)
    requires var c := s.chains[ops.hash(key) % |s.chains|];
      SearchedTo(ops, keyOf, c, key, ops.hash(key), p) && (p < |c| ==> c[p].hash > ops.hash(key))
    ensures !Has(ops, keyOf, s.home.Keys, key)
  {
    OpenTable(ops, keyOf, s);
    forall r | r in s.home ensures !ops.equal(key, keyOf(r)) {
      assert Filed(ops, keyOf, s, r);
      if s.home[r].hash == ops.hash(key) {
        var i := ops.hash(key) % |s.chains|;
        var j :| 0 <= j < |s.chains[i]| && s.chains[i][j] == s.home[r];
        assert ChainOk(s, i);
      }
    }
  }

  function EmptyTable<R>(n: nat): Shape<R> {
    Shape(seq(n, _ => null), map[], seq(n, _ => []), map[])
  }

  lemma EmptyTableOk<R, K(!new)>(ops: KeyOps<K>, keyOf: R -> K, n: nat)
    requires Lawful(ops) && n > 0
    ensures TableOk(ops, keyOf, EmptyTable(n))
  {
  }

  // ----- Linking and unlinking one node -----

  /** The table with a node linked in at position p of chain i. */
  function WithNode<R>(s: Shape<R>, i: nat, p: nat, node: Node<R>): Shape<R>
    requires i < |s.chains| && i < |s.heads| && p <= |s.chains[i]|
  {
    var c := s.chains[i];
    var succ := s.succ[node := LinkAt(c, p)];
    Shape(if p == 0 then s.heads[i := node] else s.heads,
          if p == 0 then succ else succ[c[p - 1] := node],
          s.chains[i := c[..p] + [node] + c[p..]],
          s.home[node.record := node])
  }

  /** The table with the node at position p of chain i unlinked. */
  function WithoutNode<R>(s: Shape<R>, i: nat, p: nat): Shape<R>
    requires i < |s.chains| && i < |s.heads| && p < |s.chains[i]|
  {
    var c := s.chains[i];
    Shape(if p == 0 then s.heads[i := LinkAt(c, 1)] else s.heads,
          (if p == 0 then s.succ else s.succ[c[p - 1] := LinkAt(c, p + 1)]) - {c[p]},
          s.chains[i := c[..p] + c[p + 1..]],
          s.home - {c[p].record})
  }

  /** A node of another chain, or at another position, is another node. */
  lemma NodesDiffer<R, K(!new)>(ops: KeyOps<K>, keyOf: R -> K, s: Shape<R>, i: nat, p: nat, k: nat, j: nat)
    requires TableOk(ops, keyOf, s)
    requires i < |s.chains| && p < |s.chains[i]| && k < |s.chains| && j < |s.chains[k]|
    requires i != k || p != j
    ensures s.chains[i][p] != s.chains[k][j]
  {
    OpenTable(ops, keyOf, s);
    assert ChainOk(s, i) && ChainOk(s, k);
    assert AtHome(s.home, s.chains[i][p]) && AtHome(s.home, s.chains[k][j]);
  }

  lemma NodeIsHome<R, K(!new)>(ops: KeyOps<K>, keyOf: R -> K, s: Shape<R>, i: nat, p: nat)
    requires TableOk(ops, keyOf, s) && i < |s.chains| && p < |s.chains[i]|
    ensures AtHome(s.home, s.chains[i][p]) && LinkOk(s.succ, s.chains[i], p) && s.chains[i][p].hash % |s.heads| == i
  {
    OpenTable(ops, keyOf, s);
    assert ChainOk(s, i);
    assert AtHome(s.home, s.chains[i][p]);
  }

  /** The setting of an insertion: a new node for a record with a new key, at its place in its chain. */
  ghost predicate FitsAt<R, K(!new)>(ops: KeyOps<K>, keyOf: R -> K, s: Shape<R>, i: nat, p: nat, node: Node<R>) {
    && node !in s.succ && node.hash == ops.hash(keyOf(node.record)) && !Has(ops, keyOf, s.home.Keys, keyOf(node.record))
    && 0 < |s.heads| == |s.chains| && i == node.hash % |s.heads| && p <= |s.chains[i]|
    && (forall x | 0 <= x < p :: s.chains[i][x].hash <= node.hash)
    && (p < |s.chains[i]| ==> s.chains[i][p].hash > node.hash)
  }

  lemma InsertedLinks<R>(succ: map<Node<R>, Node?<R>>, c: seq<Node<R>>, p: nat, node: Node<R>, j: nat)
    requires p <= |c| && j <= |c|
    requires forall x | 0 <= x < |c| :: LinkOk(succ, c, x)
    requires forall a, b | 0 <= a < b < |c| :: c[a] != c[b]
    requires forall x | 0 <= x < |c| :: c[x] != node
    ensures var succ1 := succ[node := LinkAt(c, p)];
      LinkOk(if p == 0 then succ1 else succ1[c[p - 1] := node], c[..p] + [node] + c[p..], j)
  {
    var c' := c[..p] + [node] + c[p..];
    if j < p {
      assert c'[j] == c[j] && LinkOk(succ, c, j);
    } else if j > p {
      assert c'[j] == c[j - 1] && LinkOk(succ, c, j - 1);
    }
  }

  lemma InsertedPlaces<R>(s: Shape<R>, i: nat, p: nat, node: Node<R>)
    requires 0 < |s.heads| == |s.chains| && i < |s.chains| && p <= |s.chains[i]|
    requires Ordered(s.chains[i]) && Placed(s.home, |s.heads|, i, s.chains[i])
    requires node !in s.chains[i] && node.record !in s.home && node.hash % |s.heads| == i
    requires forall x | 0 <= x < p :: s.chains[i][x].hash <= node.hash
    requires p < |s.chains[i]| ==> s.chains[i][p].hash > node.hash
    ensures Ordered(WithNode(s, i, p, node).chains[i])
    ensures Placed(WithNode(s, i, p, node).home, |s.heads|, i, WithNode(s, i, p, node).chains[i])
  {
    var c, home' := s.chains[i], s.home[node.record := node];
    var c' := c[..p] + [node] + c[p..];
    forall j | 0 <= j < |c'| ensures AtHome(home', c'[j]) && c'[j].hash % |s.heads| == i {
      if j != p {
        var j0 := if j < p then j else j - 1;
        assert c'[j] == c[j0] && AtHome(s.home, c[j0]);
      }
    }
  }

  lemma InsertedChain<R, K(!new)>(ops: KeyOps<K>, keyOf: R -> K, s: Shape<R>, i: nat, p: nat, node: Node<R>)
    requires TableOk(ops, keyOf, s) && FitsAt(ops, keyOf, s, i, p, node)
    ensures ChainOk(WithNode(s, i, p, node), i)
  {
    OpenTable(ops, keyOf, s);
    var c, s' := s.chains[i], WithNode(s, i, p, node);
    assert ChainOk(s, i);
    forall j | 0 <= j < |c| ensures LinkOk(s.succ, c, j) && c[j] != node {
      NodeIsHome(ops, keyOf, s, i, j);
    }
    RecordIsNew(ops, keyOf, s.home.Keys, node.record);
    InsertedPlaces(s, i, p, node);
    forall j | 0 <= j < |s'.chains[i]| ensures LinkOk(s'.succ, s'.chains[i], j) {
      InsertedLinks(s.succ, c, p, node, j);
    }
  }

  lemma RecordIsNew<R, K(!new)>(ops: KeyOps<K>, keyOf: R -> K, records: set<R>, r: R)
    requires Lawful(ops) && !Has(ops, keyOf, records, keyOf(r))
    ensures r !in records
    ensures UniqueKeys(ops, keyOf, records) ==> UniqueKeys(ops, keyOf, records + {r})
  {
    assert ops.equal(keyOf(r), keyOf(r));
  }

  lemma OtherChainKept<R, K(!new)>(ops: KeyOps<K>, keyOf: R -> K, s: Shape<R>, s': Shape<R>, i: nat, p: nat, k: nat)
    requires TableOk(ops, keyOf, s) && i < |s.chains| && k < |s.chains| && k != i && p <= |s.chains[i]|
    requires |s'.heads| == |s.heads| && |s'.chains| == |s.chains|
    requires s'.chains[k] == s.chains[k] && s'.heads[k] == s.heads[k]
    requires forall n | n in s.succ && n !in s.chains[i] :: n in s'.succ && s'.succ[n] == s.succ[n]
    requires forall n | n in s.succ && AtHome(s.home, n) && n !in s.chains[i] :: AtHome(s'.home, n)
    ensures ChainOk(s', k)
  {
    OpenTable(ops, keyOf, s);
    var c := s.chains[k];
    assert ChainOk(s, k);
    forall j | 0 <= j < |c| ensures LinkOk(s'.succ, c, j) && AtHome(s'.home, c[j]) && c[j].hash % |s.heads| == k {
      NodeIsHome(ops, keyOf, s, k, j);
      forall x | 0 <= x < |s.chains[i]| ensures s.chains[i][x] != c[j] {
        NodesDiffer(ops, keyOf, s, i, x, k, j);
      }
      assert LinkOk(s.succ, c, j);
    }
  }

  lemma InsertedFiled<R, K(!new)>(ops: KeyOps<K>, keyOf: R -> K, s: Shape<R>, i: nat, p: nat, node: Node<R>, r: R)
    requires TableOk(ops, keyOf, s) && FitsAt(ops, keyOf, s, i, p, node)
    requires r in WithNode(s, i, p, node).home
    ensures Filed(ops, keyOf, WithNode(s, i, p, node), r)
  {
    OpenTable(ops, keyOf, s);
    var s' := WithNode(s, i, p, node);
    if r == node.record {
      assert s'.chains[i][p] == node;
    } else {
      assert Filed(ops, keyOf, s, r);
      FiledAfterInsert(s.chains[i], p, node, s.home[r]);
    }
  }

  lemma InsertedAtHome<R, K(!new)>(ops: KeyOps<K>, keyOf: R -> K, s: Shape<R>, i: nat, p: nat, node: Node<R>)
    requires TableOk(ops, keyOf, s) && FitsAt(ops, keyOf, s, i, p, node) && node.record !in s.home
    ensures WithNode(s, i, p, node).succ.Keys == s.succ.Keys + {node}
    ensures p > 0 ==> s.chains[i][p - 1] in s.succ
    ensures forall n | n in s.succ && AtHome(s.home, n) :: AtHome(WithNode(s, i, p, node).home, n)
    ensures forall n | n in WithNode(s, i, p, node).succ :: AtHome(WithNode(s, i, p, node).home, n)
  {
    OpenTable(ops, keyOf, s);
    if p > 0 { NodeIsHome(ops, keyOf, s, i, p - 1); }
    forall n | n in s.succ ensures AtHome(WithNode(s, i, p, node).home, n) {
      assert AtHome(s.home, n);
    }
  }

  lemma InsertedOk<R, K(!new)>(ops: KeyOps<K>, keyOf: R -> K, s: Shape<R>, i: nat, p: nat, node: Node<R>)
    requires TableOk(ops, keyOf, s) && FitsAt(ops, keyOf, s, i, p, node)
    ensures TableOk(ops, keyOf, WithNode(s, i, p, node))
    ensures WithNode(s, i, p, node).home.Keys == s.home.Keys + {node.record} && node.record !in s.home
    ensures WithNode(s, i, p, node).succ.Keys == s.succ.Keys + {node}
    ensures p > 0 ==> s.chains[i][p - 1] in s.succ
  {
    OpenTable(ops, keyOf, s);
    var s' := WithNode(s, i, p, node);
    RecordIsNew(ops, keyOf, s.home.Keys, node.record);
    InsertedAtHome(ops, keyOf, s, i, p, node);
    forall k | 0 <= k < |s.chains| ensures ChainOk(s', k) {
      if k == i {
        InsertedChain(ops, keyOf, s, i, p, node);
      } else {
        OtherChainKept(ops, keyOf, s, s', i, p, k);
      }
    }
    forall r | r in s'.home ensures Filed(ops, keyOf, s', r) {
      InsertedFiled(ops, keyOf, s, i, p, node, r);
    }
    assert s'.home.Keys == s.home.Keys + {node.record};
  }

  lemma FiledAfterInsert<R>(c: seq<Node<R>>, p: nat, node: Node<R>, n: Node<R>)
    requires p <= |c|
    ensures n in c ==> n in c[..p] + [node] + c[p..]
  {
    if n in c {
      var j :| 0 <= j < |c| && c[j] == n;
      assert (c[..p] + [node] + c[p..])[if j < p then j else j + 1] == n;
    }
  }

  lemma RemovedLinks<R>(succ: map<Node<R>, Node?<R>>, c: seq<Node<R>>, p: nat, j: nat)
    requires p < |c| && j + 1 < |c|
    requires forall x | 0 <= x < |c| :: LinkOk(succ, c, x)
    requires forall a, b | 0 <= a < b < |c| :: c[a] != c[b]
    ensures LinkOk((if p == 0 then succ else succ[c[p - 1] := LinkAt(c, p + 1)]) - {c[p]}, c[..p] + c[p + 1..], j)
  {
    var j0 := if j < p then j else j + 1;
    assert (c[..p] + c[p + 1..])[j] == c[j0];
    assert LinkOk(succ, c, j0) && c[j0] != c[p];
    if p > 0 && j0 != p - 1 { assert c[j0] != c[p - 1]; }
  }

  lemma RemovedPlaces<R>(home: map<R, Node<R>>, n: nat, i: nat, c: seq<Node<R>>, p: nat)
    requires Ordered(c) && Placed(home, n, i, c) && p < |c|
    ensures Ordered(c[..p] + c[p + 1..])
    ensures Placed(home - {c[p].record}, n, i, c[..p] + c[p + 1..])
  {
    var c' := c[..p] + c[p + 1..];
    assert AtHome(home, c[p]);
    forall j | 0 <= j < |c'| ensures AtHome(home - {c[p].record}, c'[j]) && c'[j].hash % n == i {
      var j0 := if j < p then j else j + 1;
      assert c'[j] == c[j0] && AtHome(home, c[j0]) && c[j0] != c[p];
    }
  }

  lemma RemovedChain<R, K(!new)>(ops: KeyOps<K>, keyOf: R -> K, s: Shape<R>, i: nat, p: nat)
    requires TableOk(ops, keyOf, s) && i < |s.chains| && p < |s.chains[i]|
    ensures ChainOk(WithoutNode(s, i, p), i)
  {
    OpenTable(ops, keyOf, s);
    var c, s' := s.chains[i], WithoutNode(s, i, p);
    assert ChainOk(s, i);
    RemovedPlaces(s.home, |s.heads|, i, c, p);
    forall j | 0 <= j < |c| - 1 ensures LinkOk(s'.succ, s'.chains[i], j) {
      RemovedLinks(s.succ, c, p, j);
    }
  }

  lemma RemovedOk<R, K(!new)>(ops: KeyOps<K>, keyOf: R -> K, s: Shape<R>, i: nat, p: nat)
    requires TableOk(ops, keyOf, s) && i < |s.chains| && p < |s.chains[i]|
    ensures TableOk(ops, keyOf, WithoutNode(s, i, p))
    ensures s.chains[i][p].record in s.home && LinkOk(s.succ, s.chains[i], p)
    ensures p > 0 ==> s.chains[i][p - 1] in s.succ
  {
    OpenTable(ops, keyOf, s);
    var s', node := WithoutNode(s, i, p), s.chains[i][p];
    NodeIsHome(ops, keyOf, s, i, p);
    if p > 0 { NodeIsHome(ops, keyOf, s, i, p - 1); }
    forall k | 0 <= k < |s.chains| ensures ChainOk(s', k) {
      if k == i {
        RemovedChain(ops, keyOf, s, i, p);
      } else {
        OtherChainKept(ops, keyOf, s, s', i, p, k);
      }
    }
    forall r | r in s'.home ensures Filed(ops, keyOf, s', r) {
      assert Filed(ops, keyOf, s, r);
      assert s.home[r] != node;
      FiledAfterRemove(s.chains[i], p, s.home[r]);
    }
    forall n | n in s'.succ ensures AtHome(s'.home, n) {
      assert n in s.succ by { if p > 0 { NodeIsHome(ops, keyOf, s, i, p - 1); } }
      assert AtHome(s.home, n);
    }
  }

  lemma FiledAfterRemove<R>(c: seq<Node<R>>, p: nat, n: Node<R>)
    requires p < |c| && n != c[p]
    ensures n in c ==> n in c[..p] + c[p + 1..]
  {
    if n in c {
      var j :| 0 <= j < |c| && c[j] == n;
      assert (c[..p] + c[p + 1..])[if j < p then j else j - 1] == n;
    }
  }

  lemma OnlyOneHasKey<R, K(!new)>(ops: KeyOps<K>, keyOf: R -> K, s: Shape<R>, r: R, key: K)
    requires TableOk(ops, keyOf, s) && r in s.home && ops.equal(key, keyOf(r))
    ensures s.home.Keys - {r} == set q | q in s.home.Keys && !ops.equal(key, keyOf(q))
  {
    OpenTable(ops, keyOf, s);
    forall q | q in s.home && q != r ensures !ops.equal(key, keyOf(q)) {
      assert !ops.equal(keyOf(r), keyOf(q));
      assert ops.equal(keyOf(r), key);
    }
  }

  /** The records of the nodes from position p of chain i on, in the order Clear visits them. */
  ghost function LeftFrom<R>(s: Shape<R>, i: nat, p: nat): set<R>
  {
    set k, j | 0 <= k < |s.chains| && 0 <= j < |s.chains[k]| && (k > i || (k == i && j >= p)) :: s.chains[k][j].record
  }

  lemma LeftNext<R, K(!new)>(ops: KeyOps<K>, keyOf: R -> K, s: Shape<R>, i: nat, p: nat)
    requires TableOk(ops, keyOf, s) && i < |s.chains| && p <= |s.chains[i]|
    ensures p < |s.chains[i]| ==> s.chains[i][p].record in LeftFrom(s, i, p)
    ensures p < |s.chains[i]| ==> LeftFrom(s, i, p + 1) == LeftFrom(s, i, p) - {s.chains[i][p].record}
    ensures p == |s.chains[i]| ==> LeftFrom(s, i + 1, 0) == LeftFrom(s, i, p)
  {
    OpenTable(ops, keyOf, s);
    if p < |s.chains[i]| {
      forall k, j | 0 <= k < |s.chains| && 0 <= j < |s.chains[k]| && (k != i || j != p)
        ensures s.chains[k][j].record != s.chains[i][p].record
      {
        NodesDiffer(ops, keyOf, s, i, p, k, j);
        NodeIsHome(ops, keyOf, s, i, p);
        NodeIsHome(ops, keyOf, s, k, j);
      }
    }
  }

  lemma LeftAtStart<R, K(!new)>(ops: KeyOps<K>, keyOf: R -> K, s: Shape<R>)
    requires TableOk(ops, keyOf, s)
    ensures LeftFrom(s, 0, 0) == s.home.Keys
    ensures LeftFrom(s, |s.chains|, 0) == {}
  {
    OpenTable(ops, keyOf, s);
    forall r | r in s.home ensures r in LeftFrom(s, 0, 0) {
      assert Filed(ops, keyOf, s, r);
      var k := s.home[r].hash % |s.heads|;
      var j :| 0 <= j < |s.chains[k]| && s.chains[k][j] == s.home[r];
    }
    forall r | r in LeftFrom(s, 0, 0) ensures r in s.home {
      var k, j :| 0 <= k < |s.chains| && 0 <= j < |s.chains[k]| && s.chains[k][j].record == r;
      NodeIsHome(ops, keyOf, s, k, j);
    }
  }

  /** No node before position p of the chain is selected. */
  ghost predicate Cleared<R>(c: seq<Node<R>>, p: nat, pred: R -> bool) {
    p <= |c| && forall j | 0 <= j < p :: !pred(c[j].record)
  }

  lemma ClearedStays<R>(c: seq<Node<R>>, p: nat, pred: R -> bool)
    requires Cleared(c, p, pred) && p < |c|
    ensures Cleared(c[..p] + c[p + 1..], p, pred)
    ensures !pred(c[p].record) ==> Cleared(c, p + 1, pred)
  {
  }

  lemma NoneSelected<R, K(!new)>(ops: KeyOps<K>, keyOf: R -> K, s: Shape<R>, pred: R -> bool)
    requires TableOk(ops, keyOf, s) && forall k | 0 <= k < |s.chains| :: Cleared(s.chains[k], |s.chains[k]|, pred)
    ensures forall r | r in s.home :: !pred(r)
  {
    OpenTable(ops, keyOf, s);
    forall r | r in s.home ensures !pred(r) {
      assert Filed(ops, keyOf, s, r);
      var k := s.home[r].hash % |s.heads|;
      assert Cleared(s.chains[k], |s.chains[k]|, pred);
      var j :| 0 <= j < |s.chains[k]| && s.chains[k][j] == s.home[r];
    }
  }

  // ----- Moving every node to a larger table -----

  /** t is the part of the new table built so far: the nodes of s before position p of chain i, each
      still the home of the same record. */
  ghost predicate Moved<R, K(!new)>(ops: KeyOps<K>, keyOf: R -> K, s: Shape<R>, t: Shape<R>, i: nat, p: nat) {
    && TableOk(ops, keyOf, s) && TableOk(ops, keyOf, t)
    && (forall r {:trigger t.home[r]} | r in t.home :: r in s.home && t.home[r] == s.home[r])
    && (forall k, j {:trigger s.chains[k][j]} | 0 <= k < |s.chains| && 0 <= j < |s.chains[k]| ::
          s.chains[k][j] in t.succ <==> k < i || (k == i && j < p))
  }

  lemma NothingMoved<R, K(!new)>(ops: KeyOps<K>, keyOf: R -> K, s: Shape<R>, n: nat)
    requires TableOk(ops, keyOf, s) && n > 0
    ensures Moved(ops, keyOf, s, EmptyTable(n), 0, 0)
  {
    OpenTable(ops, keyOf, s);
    EmptyTableOk<R, K>(ops, keyOf, n);
  }

  /** The record of a node still to be moved has a key that is new to the new table. */
  lemma MoveFits<R, K(!new)>(ops: KeyOps<K>, keyOf: R -> K, s: Shape<R>, t: Shape<R>, i: nat, p: nat)
    requires Moved(ops, keyOf, s, t, i, p) && i < |s.chains| && p < |s.chains[i]|
    ensures var node := s.chains[i][p];
      node in s.succ && node !in t.succ && node.hash == ops.hash(keyOf(node.record)) &&
        !Has(ops, keyOf, t.home.Keys, keyOf(node.record))
  {
    OpenTable(ops, keyOf, s);
    OpenTable(ops, keyOf, t);
    var node := s.chains[i][p];
    NodeIsHome(ops, keyOf, s, i, p);
    assert Filed(ops, keyOf, s, node.record);
    forall r | r in t.home ensures !ops.equal(keyOf(node.record), keyOf(r)) {
      if r == node.record {
        HomeIsLinked(ops, keyOf, t, r);
      }
      assert t.home[r] == s.home[r];
    }
  }

  lemma HomeIsLinked<R, K(!new)>(ops: KeyOps<K>, keyOf: R -> K, s: Shape<R>, r: R)
    requires TableOk(ops, keyOf, s) && r in s.home
    ensures s.home[r] in s.succ && s.home[r].record == r
    ensures exists k, j :: 0 <= k < |s.chains| && 0 <= j < |s.chains[k]| && s.chains[k][j] == s.home[r]
  {
    OpenTable(ops, keyOf, s);
    assert Filed(ops, keyOf, s, r);
    var k := s.home[r].hash % |s.heads|;
    var j :| 0 <= j < |s.chains[k]| && s.chains[k][j] == s.home[r];
    NodeIsHome(ops, keyOf, s, k, j);
  }

  lemma MovedOn<R, K(!new)>(ops: KeyOps<K>, keyOf: R -> K, s: Shape<R>, t: Shape<R>, i: nat, p: nat, q: nat)
    requires Moved(ops, keyOf, s, t, i, p) && i < |s.chains| && p < |s.chains[i]|
    requires FitsAt(ops, keyOf, t, s.chains[i][p].hash % |t.heads|, q, s.chains[i][p])
    ensures Moved(ops, keyOf, s, WithNode(t, s.chains[i][p].hash % |t.heads|, q, s.chains[i][p]), i, p + 1)
  {
    var node := s.chains[i][p];
    var b := node.hash % |t.heads|;
    var t' := WithNode(t, b, q, node);
    InsertedOk(ops, keyOf, t, b, q, node);
    NodeIsHome(ops, keyOf, s, i, p);
    forall k, j | 0 <= k < |s.chains| && 0 <= j < |s.chains[k]|
      ensures s.chains[k][j] in t'.succ <==> k < i || (k == i && j < p + 1)
    {
      if k != i || j != p { NodesDiffer(ops, keyOf, s, i, p, k, j); }
    }
  }

  lemma AllMoved<R, K(!new)>(ops: KeyOps<K>, keyOf: R -> K, s: Shape<R>, t: Shape<R>)
    requires Moved(ops, keyOf, s, t, |s.chains|, 0)
    ensures t.home == s.home && t.succ.Keys == s.succ.Keys
  {
    OpenTable(ops, keyOf, s);
    OpenTable(ops, keyOf, t);
    forall r | r in s.home ensures r in t.home && t.home[r] == s.home[r] {
      HomeIsLinked(ops, keyOf, s, r);
      var k, j :| 0 <= k < |s.chains| && 0 <= j < |s.chains[k]| && s.chains[k][j] == s.home[r];
      assert AtHome(t.home, s.chains[k][j]);
    }
    forall n | n in t.succ ensures n in s.succ {
      assert AtHome(t.home, n);
      HomeIsLinked(ops, keyOf, s, n.record);
    }
    forall n | n in s.succ ensures n in t.succ {
      assert AtHome(s.home, n);
      HomeIsLinked(ops, keyOf, t, n.record);
    }
  }

  // ----- The heap -----

  /** The bucket array holds `heads` and every node the link `succ` says. */
  ghost predicate Mirrored<R>(buckets: array<Node?<R>>, heads: seq<Node?<R>>, succ: map<Node<R>, Node?<R>>)
    reads buckets, succ.Keys`next
  {
    buckets[..] == heads && forall n | n in succ :: n.next == succ[n]
  }

  function StoredHeads<R>(heads: seq<Node?<R>>, i: nat, prev: Node?<R>, link: Node?<R>): seq<Node?<R>>
    requires i < |heads|
  {
    if prev == null then heads[i := link] else heads
  }

  function StoredLinks<R>(succ: map<Node<R>, Node?<R>>, prev: Node?<R>, link: Node?<R>): map<Node<R>, Node?<R>> {
    if prev == null then succ else succ[prev := link]
  }

  /** A store through the pointer to a link: the bucket slot or the _pNext of a node. */
  method StoreLink<R>(buckets: array<Node?<R>>, i: nat, prev: Node?<R>, link: Node?<R>,
                      ghost heads: seq<Node?<R>>, ghost succ: map<Node<R>, Node?<R>>)
    requires i < buckets.Length && Mirrored(buckets, heads, succ)
    modifies (if prev == null then {buckets} else {})
    modifies (if prev == null then {} else {prev})`next
    ensures Mirrored(buckets, StoredHeads(heads, i, prev, link), StoredLinks(succ, prev, link))
  {
    if prev == null {
      buckets[i] := link;
    } else {
      prev.next := link;
    }
  }

  /** The bucket count after the check for growth: the prime for twice as many, once the items outnumber it. */
  ghost predicate Resized(was: nat, now: nat, items: nat, canGrow: bool) {
    && 2 * was < TWO_32
    && exists n: dword ::
         Primes.IsPrimeFor(2 * was, n) && now == if n < items && n < MAX_BUCKETS && canGrow then n else was
  }

  class HashTable<R(==), K(!new)> {
    const ops: KeyOps<K>
    const keyOf: R -> K
    var buckets: array<Node?<R>>
    var nItems: nat

    ghost var shape: Shape<R>
    ghost var refs: multiset<R>      // references taken through the table and not yet released
    ghost var handedOut: multiset<R> // of these, the ones FindKey took for its callers

    /** The records in the table: the map it stands for, by key. */
    ghost function Records(): set<R>
      reads this`shape
    {
      shape.home.Keys
    }

    /** The heap holds what `shape` says. */
    ghost predicate Mirrors()
      reads this`shape, this`buckets, buckets, shape.succ.Keys`next
    {
      Mirrored(buckets, shape.heads, shape.succ)
    }

    /** The links form a table. */
    ghost predicate Formed()
      reads this`shape, this`buckets, buckets, shape.succ.Keys`next
    {
      Mirrors() && TableOk(ops, keyOf, shape) && buckets.Length < MAX_BUCKETS
    }

    /** The item count is the number of records, and each is referenced once besides what FindKey gave out. */
    ghost predicate Counted()
      reads this
    {
      nItems == |shape.home| && refs == multiset(shape.home.Keys) + handedOut
    }

    ghost predicate Valid()
      reads this, buckets, shape.succ.Keys`next
    {
      Formed() && Counted()
    }

    predicate IsInitialized()
      reads this
    {
      buckets.Length > 0
    }

    constructor (ops: KeyOps<K>, keyOf: R -> K)
      ensures !IsInitialized() && fresh(buckets)
      ensures this.ops == ops && this.keyOf == keyOf
    {
      this.ops := ops;
      this.keyOf := keyOf;
      buckets := new Node?<R>[0];
      nItems := 0;
    }

    method Initialize(nBuckets: nat, haveMemory: bool) returns (status: Status)
      requires Lawful(ops) && !IsInitialized()
      modifies this
      ensures status.Ok? <==> 0 < nBuckets < MAX_BUCKETS && haveMemory
      ensures status.Ok? ==>
        Valid() && IsInitialized() && fresh(buckets) && shape.succ == map[] && Records() == {} && refs == multiset{}
      ensures !status.Ok? ==> !IsInitialized()
    {
      if nBuckets == 0 || nBuckets >= MAX_BUCKETS {
        return InvalidArgument;
      }
      if !haveMemory {
        return OutOfMemory;
      }
      buckets := new Node?<R>[nBuckets](_ => null);
      nItems := 0;
      shape := EmptyTable(nBuckets);
      refs := multiset{};
      handedOut := multiset{};
      EmptyTableOk(ops, keyOf, nBuckets);
      return Ok;
    }

    /** FindNodeInternal: the node with the key, or the first node of the bucket with a larger hash, and
        the node in front of it (null: the bucket slot).  p is its position in the chain. */
    method FindNodeInternal(key: K, hash: dword) returns (found: bool, node: Node?<R>, prev: Node?<R>, ghost p: nat)
      requires Valid() && hash == ops.hash(key)
      ensures Cursor(shape.chains[hash % |shape.heads|], p, node, prev)
      ensures SearchedTo(ops, keyOf, shape.chains[hash % |shape.heads|], key, hash, p)
      ensures found <==> Has(ops, keyOf, Records(), key)
      ensures found ==> node != null && ops.equal(key, keyOf(node.record)) && node.record in Records()
      ensures !found && node != null ==> node.hash > hash
    {
      var i := hash % buckets.Length;
      ghost var c := shape.chains[i];
      ChainOf(ops, keyOf, shape, i);
      p := 0;
      prev := null;
      node := buckets[i];
      found := false;
      while node != null
        invariant SearchedTo(ops, keyOf, c, key, hash, p) && Cursor(c, p, node, prev)
        invariant !found
        decreases |c| - p
      {
        if node.hash == hash {
          if ops.equal(key, keyOf(node.record)) {
            found := true;
            assert AtHome(shape.home, c[p]);
            return;
          }
        } else if node.hash > hash {
          break;
        }
        assert LinkOk(shape.succ, c, p);
        prev := node;
        node := prev.next;
        p := p + 1;
      }
      SearchIsComplete(ops, keyOf, shape, key, p);
    }

    /** FindKey: the record with the key, with a reference for the caller. */
    method FindKey(key: K) returns (result: Lookup<R>)
      requires Valid()
      modifies this`refs, this`handedOut
      ensures Valid()
      ensures result.Present? <==> Has(ops, keyOf, Records(), key)
      ensures result.Present? ==> result.record in Records() && ops.equal(key, keyOf(result.record))
      ensures refs == old(refs) + if result.Present? then multiset{result.record} else multiset{}
    {
      var found, node, prev, p := FindNodeInternal(key, ops.hash(key));
      result := Missing;
      if found {
        refs := refs + multiset{node.record};
        handedOut := handedOut + multiset{node.record};
        result := Present(node.record);
      }
    }

    /** The two stores that link a node in: its own _pNext, then the link that leads to it. */
    method LinkIn(node: Node<R>, next: Node?<R>, prev: Node?<R>, ghost i: nat, ghost p: nat)
      requires Mirrors() && node !in shape.succ
      requires i < |shape.heads| && i < |shape.chains| && i == node.hash % |shape.heads|
      requires Cursor(shape.chains[i], p, next, prev) && (prev != null ==> prev in shape.succ)
      modifies this`shape, buckets, shape.succ.Keys`next, node`next
      ensures shape == WithNode(old(shape), i, p, node)
      ensures Mirrors() && buckets == old(buckets)
      ensures refs == old(refs) && handedOut == old(handedOut) && nItems == old(nItems)
    {
      ghost var s := shape;
      node.next := next;
      StoreLink(buckets, node.hash % buckets.Length, prev, node, s.heads, s.succ[node := next]);
      shape := WithNode(s, i, p, node);
    }

    /** Publishes a node at the place FindNodeInternal found: nobody else runs, so the swap succeeds. */
    method Publish(node: Node<R>, next: Node?<R>, prev: Node?<R>, ghost p: nat)
      requires Formed() && FitsAt(ops, keyOf, shape, node.hash % |shape.heads|, p, node)
      requires Cursor(shape.chains[node.hash % |shape.heads|], p, next, prev)
      modifies this`shape, buckets, shape.succ.Keys`next, node`next
      ensures Formed()
      ensures shape.succ.Keys == old(shape).succ.Keys + {node} && Records() == old(Records()) + {node.record}
      ensures node.record !in old(Records())
    {
      ghost var s, i := shape, node.hash % |shape.heads|;
      InsertedOk(ops, keyOf, s, i, p, node);
      LinkIn(node, next, prev, i, p);
    }

    /** Takes ownership of a record just published: its reference, then the item count. */
    method CountIn(record: R, ghost before: set<R>)
      requires record !in before && shape.home.Keys == before + {record}
      requires nItems == |before| && refs == multiset(before) + handedOut
      modifies this`refs, this`nItems
      ensures Counted()
      ensures refs == old(refs) + multiset{record}
    {
      refs := refs + multiset{record};
      nItems := nItems + 1;
      assert |shape.home| == |shape.home.Keys|;
    }

    /** Allocates the node of a record with a new key and publishes it. */
    method PublishNew(record: R, hash: dword, next: Node?<R>, prev: Node?<R>, ghost p: nat)
      requires Formed() && hash == ops.hash(keyOf(record)) && !Has(ops, keyOf, Records(), keyOf(record))
      requires Cursor(shape.chains[hash % |shape.heads|], p, next, prev) && (next != null ==> next.hash > hash)
      requires forall x | 0 <= x < p :: shape.chains[hash % |shape.heads|][x].hash <= hash
      modifies this`shape, buckets, shape.succ.Keys`next
      ensures Formed() && Records() == old(Records()) + {record} && record !in old(Records())
      ensures forall n | n in shape.succ && n !in old(shape).succ :: fresh(n)
    {
      var node := new Node(record, hash);
      Publish(node, next, prev, p);
    }

    /** A record with a new key enters the table. */
    method AddRecord(record: R, hash: dword, next: Node?<R>, prev: Node?<R>, ghost p: nat)
      requires Valid() && hash == ops.hash(keyOf(record)) && !Has(ops, keyOf, Records(), keyOf(record))
      requires Cursor(shape.chains[hash % |shape.heads|], p, next, prev) && (next != null ==> next.hash > hash)
      requires SearchedTo(ops, keyOf, shape.chains[hash % |shape.heads|], keyOf(record), hash, p)
      modifies this, buckets, shape.succ.Keys`next
      ensures Valid() && buckets == old(buckets) && handedOut == old(handedOut)
      ensures Records() == old(Records()) + {record} && refs == old(refs) + multiset{record}
      ensures forall n | n in shape.succ && n !in old(shape).succ :: fresh(n)
    {
      assert nItems == |Records()| && forall x | 0 <= x < p :: shape.chains[hash % |shape.heads|][x].hash <= hash;
      hide SearchedTo, Cursor, Has, TableOk, Mirrored;
      PublishNew(record, hash, next, prev, p);
      CountIn(record, old(Records()));
    }

    /** InsertRecord: refused when the key is there, otherwise the record is added and referenced. */
    method InsertRecord(record: R, haveMemory: bool, canGrow: bool) returns (status: Status)
      requires Valid()
      modifies this, buckets, shape.succ.Keys`next
      ensures Valid() && handedOut == old(handedOut)
      ensures status == if !haveMemory then OutOfMemory
        else if Has(ops, keyOf, old(Records()), keyOf(record)) then AlreadyExists else Ok
      ensures Records() == old(Records()) + if status.Ok? then {record} else {}
      ensures refs == old(refs) + if status.Ok? then multiset{record} else multiset{}
      ensures forall n | n in shape.succ && n !in old(shape).succ :: fresh(n)
      ensures buckets == old(buckets) || fresh(buckets)
      ensures if status.Ok? then Resized(old(buckets).Length, buckets.Length, |Records()|, canGrow)
        else buckets == old(buckets)
    {
      if !haveMemory {
        return OutOfMemory;
      }
      var hash := ops.hash(keyOf(record));
      var found, next, prev, p := FindNodeInternal(keyOf(record), hash);
      if found {
        return AlreadyExists;
      }
      AddRecord(record, hash, next, prev, p);
      RehashTableIfNeeded(canGrow);
      return Ok;
    }

    /** The store that unlinks a node: the link that led to it now leads to its successor. */
    method LinkOut(i: nat, node: Node<R>, prev: Node?<R>, ghost p: nat)
      requires Mirrors() && i < |shape.heads| && i < |shape.chains| && LinkOk(shape.succ, shape.chains[i], p)
      requires Cursor(shape.chains[i], p, node, prev) && (prev != null ==> prev in shape.succ)
      modifies this`shape, buckets, shape.succ.Keys`next
      ensures shape == WithoutNode(old(shape), i, p)
      ensures Mirrors()
    {
      ghost var s := shape;
      StoreLink(buckets, i, prev, node.next, s.heads, s.succ);
      shape := WithoutNode(s, i, p);
    }

    method Unlink(i: nat, node: Node<R>, prev: Node?<R>, ghost p: nat)
      requires Formed() && i < |shape.heads| && Cursor(shape.chains[i], p, node, prev)
      modifies this`shape, buckets, shape.succ.Keys`next
      ensures Formed()
      ensures shape.chains == old(shape).chains[i := old(shape).chains[i][..p] + old(shape).chains[i][p + 1..]]
      ensures shape.succ.Keys == old(shape).succ.Keys - {node}
      ensures node.record in old(Records()) && Records() == old(Records()) - {node.record}
    {
      RemovedOk(ops, keyOf, shape, i, p);
      LinkOut(i, node, prev, p);
    }

    /** DeleteNode's release of the record of an unlinked node, and the item count. */
    method CountOut(record: R, ghost before: set<R>)
      requires record in before && shape.home.Keys == before - {record}
      requires nItems == |before| && refs == multiset(before) + handedOut
      modifies this`refs, this`nItems
      ensures Counted()
      ensures refs == old(refs) - multiset{record}
    {
      refs := refs - multiset{record};
      nItems := nItems - 1;
      assert |shape.home| == |shape.home.Keys|;
    }

    /** Removes the node at position p of chain i and releases its record. */
    method DeleteAt(i: nat, node: Node<R>, prev: Node?<R>, ghost p: nat)
      requires Valid() && i < |shape.heads| && Cursor(shape.chains[i], p, node, prev)
      modifies this`shape, this`refs, this`nItems, buckets, shape.succ.Keys`next
      ensures Valid() && shape.succ.Keys <= old(shape).succ.Keys
      ensures shape.chains == old(shape).chains[i := old(shape).chains[i][..p] + old(shape).chains[i][p + 1..]]
      ensures node.record in old(Records()) && Records() == old(Records()) - {node.record}
      ensures refs == old(refs) - multiset{node.record}
    {
      Unlink(i, node, prev, p);
      CountOut(node.record, old(Records()));
    }

    /** DeleteKey: the record with the key, if any, is removed and released. */
    method DeleteKey(key: K)
      requires Valid()
      modifies this, buckets, shape.succ.Keys`next
      ensures Valid() && buckets == old(buckets) && handedOut == old(handedOut)
      ensures shape.succ.Keys <= old(shape).succ.Keys
      ensures Records() == set r | r in old(Records()) && !ops.equal(key, keyOf(r))
    {
      var hash := ops.hash(key);
      var found, node, prev, p := FindNodeInternal(key, hash);
      if found {
        DeleteAt(hash % buckets.Length, node, prev, p);
        OnlyOneHasKey(ops, keyOf, old(shape), node.record, key);
      }
    }

    /** Between `before` and now only records the predicate selects have gone. */
    ghost predicate Pruned(before: set<R>, pred: R -> bool)
      reads this
    {
      Records() <= before && forall r | r in before && !pred(r) :: r in Records()
    }

    /** DeleteIf: exactly the records the predicate selects are removed and released. */
    method DeleteIf(pred: R -> bool)
      requires Valid()
      modifies this, buckets, shape.succ.Keys`next
      ensures Valid() && buckets == old(buckets) && handedOut == old(handedOut)
      ensures shape.succ.Keys <= old(shape).succ.Keys
      ensures Records() == set r | r in old(Records()) && !pred(r)
    {
      for i := 0 to buckets.Length
        invariant Valid() && buckets == old(buckets) && handedOut == old(handedOut)
        invariant shape.succ.Keys <= old(shape).succ.Keys
        invariant Pruned(old(Records()), pred)
        invariant forall k | 0 <= k < i :: Cleared(shape.chains[k], |shape.chains[k]|, pred)
      {
        DeleteIfInBucket(i, pred, old(Records()));
      }
      NoneSelected(ops, keyOf, shape, pred);
    }

    /** One bucket of DeleteIf. */
    method DeleteIfInBucket(i: nat, pred: R -> bool, ghost before: set<R>)
      requires Valid() && i < |shape.heads| && Pruned(before, pred)
      modifies this`shape, this`refs, this`nItems, buckets, shape.succ.Keys`next
      ensures Valid() && shape.succ.Keys <= old(shape).succ.Keys && Pruned(before, pred)
      ensures |shape.chains| == |old(shape).chains| && shape.chains == old(shape).chains[i := shape.chains[i]]
      ensures Cleared(shape.chains[i], |shape.chains[i]|, pred)
    {
      var prev: Node?<R> := null;
      ghost var p := 0;
      var node := ReadLink(i, prev, p);
      while node != null
        invariant Valid() && shape.succ.Keys <= old(shape).succ.Keys && Pruned(before, pred)
        invariant |shape.chains| == |old(shape).chains| == |shape.heads|
        invariant shape.chains == old(shape).chains[i := shape.chains[i]]
        invariant Cursor(shape.chains[i], p, node, prev) && Cleared(shape.chains[i], p, pred)
        decreases |shape.chains[i]| - p
      {
        node, prev, p := Visit(i, node, prev, p, pred, before);
      }
    }

    method DeleteSelected(i: nat, node: Node<R>, prev: Node?<R>, ghost p: nat, pred: R -> bool, ghost before: set<R>)
      requires Valid() && i < |shape.heads| && Cursor(shape.chains[i], p, node, prev)
      requires Pruned(before, pred) && pred(node.record)
      modifies this`shape, this`refs, this`nItems, buckets, shape.succ.Keys`next
      ensures Valid() && shape.succ.Keys <= old(shape).succ.Keys && Pruned(before, pred)
      ensures shape.chains == old(shape).chains[i := old(shape).chains[i][..p] + old(shape).chains[i][p + 1..]]
    {
      DeleteAt(i, node, prev, p);
    }

    /** One node of DeleteIf: the walk keeps its place when it removes the node it looks at. */
    method Visit(i: nat, node: Node<R>, prev: Node?<R>, ghost p: nat, pred: R -> bool, ghost before: set<R>)
      returns (node': Node?<R>, prev': Node?<R>, ghost p': nat)
      requires Valid() && i < |shape.heads| && Cursor(shape.chains[i], p, node, prev)
      requires Pruned(before, pred) && Cleared(shape.chains[i], p, pred)
      modifies this`shape, this`refs, this`nItems, buckets, shape.succ.Keys`next
      ensures Valid() && shape.succ.Keys <= old(shape).succ.Keys
      ensures |shape.chains| == |old(shape).chains| && shape.chains == old(shape).chains[i := shape.chains[i]]
      ensures Pruned(before, pred) && Cleared(shape.chains[i], p', pred) && Cursor(shape.chains[i], p', node', prev')
      ensures |shape.chains[i]| - p' < |old(shape).chains[i]| - p
    {
      ClearedStays(shape.chains[i], p, pred);
      if pred(node.record) {
        DeleteSelected(i, node, prev, p, pred, before);
        prev', p' := prev, p;
      } else {
        prev', p' := node, p + 1;
      }
      node' := ReadLink(i, prev', p');
    }

    /** The node a link leads to: the bucket slot or the _pNext of the node before. */
    method ReadLink(i: nat, prev: Node?<R>, ghost p: nat) returns (node: Node?<R>)
      requires Formed() && i < |shape.heads| && p <= |shape.chains[i]|
      requires prev == if p > 0 then shape.chains[i][p - 1] else null
      ensures node == LinkAt(shape.chains[i], p)
    {
      ChainOf(ops, keyOf, shape, i);
      if prev == null {
        node := buckets[i];
      } else {
        assert LinkOk(shape.succ, shape.chains[i], p - 1);
        node := prev.next;
      }
    }

    /** Where a node goes in its new chain: after every hash that is not larger. */
    method FindSlot(newBuckets: array<Node?<R>>, hash: dword, ghost t: Shape<R>)
      returns (next: Node?<R>, prev: Node?<R>, ghost q: nat)
      requires Mirrored(newBuckets, t.heads, t.succ) && TableOk(ops, keyOf, t)
      ensures Cursor(t.chains[hash % |t.heads|], q, next, prev)
      ensures forall x | 0 <= x < q :: t.chains[hash % |t.heads|][x].hash <= hash
      ensures next != null ==> next.hash > hash
      ensures prev != null ==> prev in t.succ
    {
      var b := hash % newBuckets.Length;
      ghost var c := t.chains[b];
      ChainOf(ops, keyOf, t, b);
      next := newBuckets[b];
      prev := null;
      q := 0;
      while next != null && next.hash <= hash
        invariant Cursor(c, q, next, prev)
        invariant forall x | 0 <= x < q :: c[x].hash <= hash
        invariant prev != null ==> prev in t.succ
        decreases |c| - q
      {
        assert LinkOk(t.succ, c, q);
        prev := next;
        next := prev.next;
        q := q + 1;
      }
    }

    /** The nodes not moved yet still hold their old links. */
    ghost predicate Waiting(s: Shape<R>, t: Shape<R>)
      reads s.succ.Keys`next
    {
      forall n | n in s.succ && n !in t.succ :: n.next == s.succ[n]
    }

    /** Moves one node to the new table. */
    method MoveNode(
        newBuckets: array<Node?<R>>, node: Node<R>, ghost s: Shape<R>, ghost t: Shape<R>, ghost i: nat, ghost p: nat)
      returns (ghost t': Shape<R>)
      requires Moved(ops, keyOf, s, t, i, p) && i < |s.chains| && p < |s.chains[i]| && node == s.chains[i][p]
      requires Mirrored(newBuckets, t.heads, t.succ) && Waiting(s, t)
      modifies newBuckets, s.succ.Keys`next, t.succ.Keys`next
      ensures Moved(ops, keyOf, s, t', i, p + 1) && |t'.heads| == |t.heads|
      ensures Mirrored(newBuckets, t'.heads, t'.succ) && Waiting(s, t')
      ensures t'.succ.Keys == t.succ.Keys + {node}
    {
      MoveFits(ops, keyOf, s, t, i, p);
      var next, prev, q := FindSlot(newBuckets, node.hash, t);
      ghost var b := node.hash % |t.heads|;
      assert FitsAt(ops, keyOf, t, b, q, node);
      MovedOn(ops, keyOf, s, t, i, p, q);
      InsertedOk(ops, keyOf, t, b, q, node);
      node.next := next;
      StoreLink(newBuckets, node.hash % newBuckets.Length, prev, node, t.heads, t.succ[node := next]);
      t' := WithNode(t, b, q, node);
    }

    /** Moves the nodes of one old bucket, reading each link before it is overwritten. */
    method MoveBucket(
        newBuckets: array<Node?<R>>, i: nat, ghost s: Shape<R>, ghost t: Shape<R>) returns (ghost t': Shape<R>)
      requires newBuckets != buckets && i < buckets.Length == |s.heads| && buckets[i] == s.heads[i]
      requires Moved(ops, keyOf, s, t, i, 0) && Mirrored(newBuckets, t.heads, t.succ) && Waiting(s, t)
      requires t.succ.Keys <= s.succ.Keys
      modifies newBuckets, s.succ.Keys`next
      ensures Moved(ops, keyOf, s, t', i + 1, 0) && |t'.heads| == |t.heads|
      ensures Mirrored(newBuckets, t'.heads, t'.succ) && Waiting(s, t') && t'.succ.Keys <= s.succ.Keys
    {
      t' := t;
      ghost var p := 0;
      var node := buckets[i];
      ChainOf(ops, keyOf, s, i);
      while node != null
        invariant p <= |s.chains[i]| && node == LinkAt(s.chains[i], p)
        invariant Moved(ops, keyOf, s, t', i, p) && |t'.heads| == |t.heads|
        invariant Mirrored(newBuckets, t'.heads, t'.succ) && Waiting(s, t') && t'.succ.Keys <= s.succ.Keys
        decreases |s.chains[i]| - p
      {
        NodeIsHome(ops, keyOf, s, i, p);
        assert node == s.chains[i][p];
        var next := node.next;
        t' := MoveNode(newBuckets, node, s, t', i, p);
        node := next;
        p := p + 1;
      }
    }

    /** RehashTableIfNeeded: when the items outnumber the prime above twice the buckets, every node moves
        to a table of that size.  The records, and so every lookup, stay as they are. */
    method RehashTableIfNeeded(canGrow: bool)
      requires Valid()
      modifies this, buckets, shape.succ.Keys`next
      ensures Valid()
      ensures shape.home == old(shape).home && shape.succ.Keys == old(shape).succ.Keys
      ensures refs == old(refs) && handedOut == old(handedOut)
      ensures buckets == old(buckets) || (fresh(buckets) && 2 * old(buckets).Length <= buckets.Length < nItems)
      ensures Resized(old(buckets).Length, buckets.Length, nItems, canGrow)
    {
      var target := Primes.GetPrime(2 * buckets.Length);
      if nItems <= target {
        return;
      }
      var n := Primes.GetPrime(2 * buckets.Length);
      Primes.OnePrimeFor(2 * buckets.Length, n, target);
      if nItems <= n || n >= MAX_BUCKETS || !canGrow {
        return;
      }
      MoveAll(n);
    }

    method MoveAll(n: nat)
      requires Valid() && 0 < n < MAX_BUCKETS
      modifies this`shape, this`buckets, shape.succ.Keys`next
      ensures Valid() && fresh(buckets) && buckets.Length == n
      ensures shape.home == old(shape).home && shape.succ.Keys == old(shape).succ.Keys
    {
      ghost var s, t := shape, EmptyTable(n);
      NothingMoved(ops, keyOf, s, n);
      var newBuckets := new Node?<R>[n](_ => null);
      for i := 0 to buckets.Length
        invariant buckets == old(buckets) && buckets[..] == s.heads && shape == s
        invariant Moved(ops, keyOf, s, t, i, 0) && |t.heads| == n
        invariant Mirrored(newBuckets, t.heads, t.succ) && Waiting(s, t) && t.succ.Keys <= s.succ.Keys
      {
        t := MoveBucket(newBuckets, i, s, t);
      }
      AllMoved(ops, keyOf, s, t);
      buckets := newBuckets;
      shape := t;
    }

    /** One bucket of Clear: the slot is emptied and the nodes of its chain are released one by one. */
    method ClearBucket(i: nat, ghost left: set<R>)
      requires TableOk(ops, keyOf, shape) && i < buckets.Length == |shape.heads| && buckets[i] == shape.heads[i]
      requires forall n | n in shape.succ :: n.next == shape.succ[n]
      requires left == LeftFrom(shape, i, 0) && refs == multiset(left) + handedOut
      modifies this`refs, buckets
      ensures buckets[..] == old(buckets[..])[i := null]
      ensures refs == multiset(LeftFrom(shape, i + 1, 0)) + handedOut
    {
      var node := buckets[i];
      buckets[i] := null;
      ghost var p, rest := 0, left;
      ChainOf(ops, keyOf, shape, i);
      while node != null
        invariant p <= |shape.chains[i]| && node == LinkAt(shape.chains[i], p)
        invariant rest == LeftFrom(shape, i, p) && refs == multiset(rest) + handedOut
        invariant buckets[..] == old(buckets[..])[i := null]
        decreases |shape.chains[i]| - p
      {
        LeftNext(ops, keyOf, shape, i, p);
        NodeIsHome(ops, keyOf, shape, i, p);
        var next := node.next;
        refs := refs - multiset{node.record};
        rest := rest - {node.record};
        node := next;
        p := p + 1;
      }
      LeftNext(ops, keyOf, shape, i, p);
    }

    /** Clear: every record is released, whichever bucket it is in, and the table is empty. */
    method Clear()
      requires IsInitialized() ==> Valid()
      modifies this, buckets
      ensures buckets == old(buckets)
      ensures IsInitialized() ==> Valid() && Records() == {} && refs == old(handedOut) && handedOut == old(handedOut)
    {
      hide LeftFrom;
      if !IsInitialized() {
        return;
      }
      ghost var s := shape;
      LeftAtStart(ops, keyOf, s);
      for i := 0 to buckets.Length
        invariant buckets == old(buckets) && handedOut == old(handedOut) && shape == s
        invariant forall k | 0 <= k < buckets.Length :: buckets[k] == if k < i then null else s.heads[k]
        invariant refs == multiset(LeftFrom(s, i, 0)) + handedOut
      {
        ClearBucket(i, LeftFrom(s, i, 0));
      }
      assert refs == handedOut;
      Empty();
    }

    /** The bookkeeping of a table whose slots are all empty and whose records are all released. */
    method Empty()
      requires TableOk(ops, keyOf, shape) && 0 < buckets.Length < MAX_BUCKETS && refs == handedOut
      requires forall k | 0 <= k < buckets.Length :: buckets[k] == null
      modifies this`nItems, this`shape
      ensures Valid() && Records() == {}
    {
      OpenTable(ops, keyOf, shape);
      nItems := 0;
      shape := EmptyTable(buckets.Length);
      EmptyTableOk(ops, keyOf, buckets.Length);
    }
  }
}

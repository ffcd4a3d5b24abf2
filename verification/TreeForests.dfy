/**
 Both views of TREE_HASH_TABLE at once, as a value: the bucket layer with the paths as records, and the
 tree links over the same nodes.
 */
module TreeForests {
  import opened HashKeys
  import opened HashTables
  import opened Opening
  import opened TreeFamily
  import opened TreePaths
  import opened Words

  predicate SamePath(a: string, b: string) { a == b }

  function Self(path: string): string { path }

  /** Case-sensitive keys: CalcHash is some hash of the path. */
  function PathKeys(hash: string -> dword): KeyOps<string> { KeyOps(SamePath, hash) }

  datatype Forest<R> = Forest(shape: Shape<string>, family: Family<R>)

  /** Sorted buckets and child lists over the same nodes, but for some nodes that have lost their parents. */
  ghost predicate ForestOk<R>(hash: string -> dword, keyOf: R -> string, t: Forest<R>, orphans: set<TreeNode>) {
    && TableOk(PathKeys(hash), Self, t.shape)
    && FamilyOk(keyOf, t.family, orphans)
    && t.shape.succ.Keys == t.family.cells.Keys
  }

  /** What the table stands for: the record held under each path. */
  ghost function Contents<R>(t: Forest<R>): map<string, R> {
    map p | p in t.shape.home && t.shape.home[p] in t.family.cells && t.family.cells[t.shape.home[p]].held.Held?
      :: t.family.cells[t.shape.home[p]].held.r
  }

  /** A node is found under its path, and under no other. */
  ghost predicate Aligned(home: map<string, TreeNode>, nodes: set<TreeNode>) {
    && (forall n {:trigger n in nodes} | n in nodes :: n.record in home && home[n.record] == n)
    && (forall p {:trigger home[p]} | p in home :: home[p] in nodes && home[p].record == p)
  }

  /** The nodes and the paths are the same thing. */
  lemma PathsAgree<R>(hash: string -> dword, keyOf: R -> string, t: Forest<R>, orphans: set<TreeNode>)
    requires ForestOk(hash, keyOf, t, orphans)
    ensures Aligned(t.shape.home, t.family.cells.Keys)
    ensures forall p {:trigger p in t.shape.home} :: p in t.shape.home <==> HasPath(t.family.cells.Keys, p)
    ensures forall p {:trigger p in t.shape.home} :: Has(PathKeys(hash), Self, t.shape.home.Keys, p) <==>
      p in t.shape.home
  {
    OpenTable(PathKeys(hash), Self, t.shape);
    forall n | n in t.family.cells ensures n.record in t.shape.home && t.shape.home[n.record] == n {
      assert n in t.shape.succ;
      assert AtHome(t.shape.home, n);
    }
    forall p | p in t.shape.home ensures t.shape.home[p] in t.family.cells && t.shape.home[p].record == p {
      HomeIsLinked(PathKeys(hash), Self, t.shape, p);
    }
    forall p ensures Has(PathKeys(hash), Self, t.shape.home.Keys, p) <==> p in t.shape.home {
      if p in t.shape.home {
        assert SamePath(p, Self(p));
      }
    }
  }

  /** The set of the records a table holds under their own paths. */
  ghost predicate HeldAre<R>(keyOf: R -> string, records: map<string, R>, held: set<R>) {
    && (forall q {:trigger records[q]} | q in records :: keyOf(records[q]) == q && records[q] in held)
    && (forall r {:trigger keyOf(r)} | r in held :: keyOf(r) in records && records[keyOf(r)] == r)
  }

  function WithHeld<R>(records: map<string, R>, path: string, held: Held<R>): map<string, R> {
    if held.Held? then records[path := held.r] else records
  }

  function OneOrNone<R(==)>(held: Held<R>): set<R> {
    if held.Held? then {held.r} else {}
  }

  lemma HeldWith<R>(keyOf: R -> string, records: map<string, R>, held: set<R>, path: string, record: Held<R>)
    requires HeldAre(keyOf, records, held) && path !in records && (record.Held? ==> keyOf(record.r) == path)
    ensures HeldAre(keyOf, WithHeld(records, path, record), held + OneOrNone(record)) && OneOrNone(record) !! held
  {
  }

  lemma HeldWithout<R>(keyOf: R -> string, records: map<string, R>, held: set<R>, path: string, record: Held<R>)
    requires HeldAre(keyOf, records, held) && (path in records <==> record.Held?)
    requires (record.Held? ==> records[path] == record.r)
    ensures HeldAre(keyOf, records - {path}, held - OneOrNone(record)) && OneOrNone(record) <= held
  {
  }

  /** A sound table: both views, the map it stands for, and the records it holds. */
  ghost predicate IsSound<R>(
      hash: string -> dword, keyOf: R -> string, t: Forest<R>, records: map<string, R>, held: set<R>,
      orphans: set<TreeNode>) {
    && ForestOk(hash, keyOf, t, orphans) && |t.shape.heads| < MAX_BUCKETS
    && records == Contents(t) && HeldAre(keyOf, records, held)
  }

  /** IsSound, to be carried along closed: only an outline shows until Opened is mentioned. */
  ghost predicate Sound<R>(
      hash: string -> dword, keyOf: R -> string, t: Forest<R>, records: map<string, R>, held: set<R>,
      orphans: set<TreeNode>) {
    && 0 < |t.shape.heads| == |t.shape.chains| && |t.shape.heads| < MAX_BUCKETS
    && t.shape.succ.Keys == t.family.cells.Keys == t.family.kids.Keys
    && forall key: nat {:trigger Opened(key)} :: Opened(key) ==> IsSound(hash, keyOf, t, records, held, orphans)
  }

  lemma Open<R>(
      hash: string -> dword, keyOf: R -> string, t: Forest<R>, records: map<string, R>, held: set<R>,
      orphans: set<TreeNode>)
    requires Sound(hash, keyOf, t, records, held, orphans)
    ensures IsSound(hash, keyOf, t, records, held, orphans)
  {
    assert Opened(0);
  }

  lemma TableOf<R>(
      hash: string -> dword, keyOf: R -> string, t: Forest<R>, records: map<string, R>, held: set<R>,
      orphans: set<TreeNode>)
    requires Sound(hash, keyOf, t, records, held, orphans)
    ensures TableOk(PathKeys(hash), Self, t.shape)
  {
    Open(hash, keyOf, t, records, held, orphans);
  }

  lemma SoundAligned<R>(
      hash: string -> dword, keyOf: R -> string, t: Forest<R>, records: map<string, R>, held: set<R>,
      orphans: set<TreeNode>)
    requires Sound(hash, keyOf, t, records, held, orphans)
    ensures Aligned(t.shape.home, t.family.cells.Keys) && records == Contents(t)
  {
    Open(hash, keyOf, t, records, held, orphans);
    PathsAgree(hash, keyOf, t, orphans);
  }

  /** The map agrees with every node. */
  lemma RecordOf<R>(
      hash: string -> dword, keyOf: R -> string, t: Forest<R>, records: map<string, R>, held: set<R>,
      orphans: set<TreeNode>, n: TreeNode)
    requires Sound(hash, keyOf, t, records, held, orphans) && n in t.family.cells
    ensures n.record in records <==> t.family.cells[n].held.Held?
    ensures n.record in records ==> records[n.record] == t.family.cells[n].held.r && records[n.record] in held
    ensures n.record in records ==> keyOf(records[n.record]) == n.record
  {
    Open(hash, keyOf, t, records, held, orphans);
    PathsAgree(hash, keyOf, t, orphans);
    assert NodeOk(keyOf, t.family, orphans, n);
  }

  /** No record is held for a path without a node. */
  lemma Unrecorded<R>(
      hash: string -> dword, keyOf: R -> string, t: Forest<R>, records: map<string, R>, held: set<R>,
      orphans: set<TreeNode>, path: string)
    requires Sound(hash, keyOf, t, records, held, orphans) && path !in t.shape.home
    ensures path !in records
  {
    Open(hash, keyOf, t, records, held, orphans);
  }

  lemma Recorded<R>(
      hash: string -> dword, keyOf: R -> string, t: Forest<R>, records: map<string, R>, held: set<R>,
      orphans: set<TreeNode>, path: string)
    requires Sound(hash, keyOf, t, records, held, orphans) && path in records
    ensures path in t.shape.home
  {
    Open(hash, keyOf, t, records, held, orphans);
  }

  /** The buckets can be replaced by others with the same nodes. */
  lemma RehashedSound<R>(
      hash: string -> dword, keyOf: R -> string, t: Forest<R>, records: map<string, R>, held: set<R>,
      shape: Shape<string>)
    requires Sound(hash, keyOf, t, records, held, {})
    requires Moved(PathKeys(hash), Self, t.shape, shape, |t.shape.chains|, 0) && |shape.heads| < MAX_BUCKETS
    ensures Sound(hash, keyOf, t.(shape := shape), records, held, {})
    ensures shape.home == t.shape.home && shape.succ.Keys == t.shape.succ.Keys
  {
    Open(hash, keyOf, t, records, held, {});
    AllMoved(PathKeys(hash), Self, t.shape, shape);
  }

  lemma NewPath<R>(
      hash: string -> dword, keyOf: R -> string, t: Forest<R>, records: map<string, R>, held: set<R>, path: string)
    requires Sound(hash, keyOf, t, records, held, {}) && path !in t.shape.home
    ensures !HasPath(t.family.cells.Keys, path) && !Has(PathKeys(hash), Self, t.shape.home.Keys, path)
  {
    Open(hash, keyOf, t, records, held, {});
    PathsAgree(hash, keyOf, t, {});
  }

  /** Every path that a present one can be cut to is present. */
  lemma AncestorsPresent<R>(
      hash: string -> dword, keyOf: R -> string, t: Forest<R>, records: map<string, R>, held: set<R>, path: string)
    requires Sound(hash, keyOf, t, records, held, {}) && path in t.shape.home
    ensures Ancestors(path, 1, |path|) <= t.shape.home.Keys
  {
    Open(hash, keyOf, t, records, held, {});
    PathsAgree(hash, keyOf, t, {});
    forall q | q in Ancestors(path, 1, |path|) ensures q in t.shape.home {
      AncestorsAre(path, 1, |path|, q);
      PrefixClosed(keyOf, t.family, t.shape.home[path], |q|);
    }
  }

  /** There is no memory for the node of an ancestor of the key that has none. */
  ghost predicate LacksNode(paths: set<string>, key: string, alloc: nat -> bool) {
    exists c: nat {:trigger IsCut(key, c)} :: IsCut(key, c) && key[..c] !in paths && !alloc(c)
  }

  /** The cuts behind the longest ancestor that has a node are those whose paths have none. */
  lemma LackingMeans<R>(
      hash: string -> dword, keyOf: R -> string, t: Forest<R>, records: map<string, R>, held: set<R>,
      key: string, from: nat, alloc: nat -> bool)
    requires Sound(hash, keyOf, t, records, held, {}) && from < |key|
    requires from > 0 ==> IsCut(key, from) && key[..from] in t.shape.home
    requires forall d | from < d < |key| && IsCut(key, d) :: key[..d] !in t.shape.home
    ensures Lacking(key, from + 1, |key|, alloc) <==> LacksNode(t.shape.home.Keys, key, alloc)
  {
    if LacksNode(t.shape.home.Keys, key, alloc) {
      var c: nat :| IsCut(key, c) && key[..c] !in t.shape.home.Keys && !alloc(c);
      if c <= from {
        var path := key[..from];
        assert path[..c] == key[..c];
        if c < from {
          assert IsCut(path, c);
          AncestorsPresent(hash, keyOf, t, records, held, path);
          AncestorsAre(path, 1, |path|, key[..c]);
        }
      }
    }
  }

  /** The paths are those of `base` and the ancestors of the key from length lo on and below hi.  Closed. */
  ghost predicate GrownTo(paths: set<string>, base: set<string>, key: string, lo: nat, hi: nat)
    requires hi <= |key|
  {
    forall k: nat {:trigger Opened(k)} :: Opened(k) ==> paths == base + Ancestors(key, lo, hi)
  }

  lemma GrownStart(base: set<string>, key: string, lo: nat)
    requires lo <= |key|
    ensures GrownTo(base, base, key, lo, lo)
  {
    assert base == base + Ancestors(key, lo, lo);
  }

  lemma GrownNext(paths: set<string>, base: set<string>, key: string, lo: nat, c: nat)
    requires lo <= c < |key| && GrownTo(paths, base, key, lo, c)
    ensures IsCut(key, c) ==> GrownTo(paths + {key[..c]}, base, key, lo, c + 1)
    ensures !IsCut(key, c) ==> GrownTo(paths, base, key, lo, c + 1)
  {
    assert Opened(0);
    assert paths == base + Ancestors(key, lo, c);
  }

  lemma GrownWithin(paths: set<string>, base: set<string>, key: string, lo: nat, c: nat)
    requires 0 < lo <= c <= |key| && GrownTo(paths, base, key, lo, c)
    ensures base <= paths <= base + Ancestors(key, 1, |key|)
  {
    assert Opened(0);
    AncestorsWithin(key, lo, c, 1, |key|);
  }

  /** An insertion that ran through leaves the paths of the key and all its ancestors; if the key held a
      record they were all there before. */
  lemma InsertedPaths<R>(hash: string -> dword, keyOf: R -> string, t: Forest<R>, records: map<string, R>, held: set<R>,
                         t': Forest<R>, records': map<string, R>, held': set<R>, key: string, lo: nat,
                           paths: set<string>)
    requires Sound(hash, keyOf, t, records, held, {}) && Sound(hash, keyOf, t', records', held', {}) && 0 < lo <= |key|
    requires GrownTo(paths, t.shape.home.Keys, key, lo, |key|) && t'.shape.home.Keys == paths + {key}
    ensures t'.shape.home.Keys == t.shape.home.Keys + Ancestors(key, 1, |key|) + {key}
    ensures key in records ==> t'.shape.home.Keys == t.shape.home.Keys
  {
    GrownWithin(paths, t.shape.home.Keys, key, lo, |key|);
    AncestorsPresent(hash, keyOf, t', records', held', key);
    if key in records {
      Recorded(hash, keyOf, t, records, held, {}, key);
      AncestorsPresent(hash, keyOf, t, records, held, key);
    }
  }

  lemma EmptyForestSound<R>(hash: string -> dword, keyOf: R -> string, n: nat)
    requires 0 < n < MAX_BUCKETS
    ensures Sound(hash, keyOf, Forest(EmptyTable(n), Family(map[], map[])), map[], {}, {})
  {
    EmptyTableOk(PathKeys(hash), Self, n);
  }

  // ----- A new node -----

  function Planted<R>(t: Forest<R>, i: nat, p: nat, node: TreeNode, parent: Link, held: Held<R>): Forest<R>
    requires i < |t.shape.chains| && i < |t.shape.heads| && p <= |t.shape.chains[i]|
    requires parent != null ==> parent in t.family.cells && parent in t.family.kids
  {
    Forest(WithNode(t.shape, i, p, node), WithChild(t.family, node, parent, held))
  }

  lemma PlantedOk<R>(
      hash: string -> dword, keyOf: R -> string, t: Forest<R>, i: nat, p: nat, node: TreeNode, parent: Link,
      held: Held<R>)
    requires ForestOk(hash, keyOf, t, {}) && FitsAt(PathKeys(hash), Self, t.shape, i, p, node)
    requires Addable(keyOf, t.family, node, parent, held)
    ensures ForestOk(hash, keyOf, Planted(t, i, p, node, parent, held), {})
    ensures Planted(t, i, p, node, parent, held).shape.home.Keys == t.shape.home.Keys + {node.record}
    ensures Planted(t, i, p, node, parent, held).family.cells.Keys == t.family.cells.Keys + {node}
    ensures p > 0 ==> t.shape.chains[i][p - 1] in t.shape.succ
  {
    InsertedOk(PathKeys(hash), Self, t.shape, i, p, node);
    AddedOk(keyOf, t.family, node, parent, held);
  }

  lemma PlantedContents<R>(t: Forest<R>, i: nat, p: nat, node: TreeNode, parent: Link, held: Held<R>)
    requires i < |t.shape.chains| && i < |t.shape.heads| && p <= |t.shape.chains[i]|
    requires parent != null ==> parent in t.family.cells && parent in t.family.kids
    requires Aligned(t.shape.home, t.family.cells.Keys) && node !in t.family.cells && node.record !in t.shape.home
    ensures Contents(Planted(t, i, p, node, parent, held)) == if held.Held? then Contents(t)[node.record := held.r]
      else Contents(t)
  {
  }

  /** A node for a new path, in both views. */
  lemma PlantedSound<R>(hash: string -> dword, keyOf: R -> string, t: Forest<R>, records: map<string, R>, held: set<R>,
                        i: nat, p: nat, node: TreeNode, parent: Link, record: Held<R>)
    requires Sound(hash, keyOf, t, records, held, {}) && FitsAt(PathKeys(hash), Self, t.shape, i, p, node)
    requires Addable(keyOf, t.family, node, parent, record)
    ensures Sound(hash, keyOf, Planted(t, i, p, node, parent, record), WithHeld(records, node.record, record),
      held + OneOrNone(record), {})
    ensures Planted(t, i, p, node, parent, record).shape.home.Keys == t.shape.home.Keys + {node.record}
    ensures node.record !in t.shape.home
    ensures Planted(t, i, p, node, parent, record).family.cells.Keys == t.family.cells.Keys + {node}
    ensures OneOrNone(record) !! held
  {
    Open(hash, keyOf, t, records, held, {});
    PathsAgree(hash, keyOf, t, {});
    PlantedOk(hash, keyOf, t, i, p, node, parent, record);
    PlantedContents(t, i, p, node, parent, record);
    HeldWith(keyOf, records, held, node.record, record);
  }

  // ----- Another record -----

  lemma RefilledOk<R>(
      hash: string -> dword, keyOf: R -> string, t: Forest<R>, orphans: set<TreeNode>, n: TreeNode, held: Held<R>)
    requires ForestOk(hash, keyOf, t, orphans) && n in t.family.cells && (held.Held? ==> keyOf(held.r) == n.record)
    ensures ForestOk(hash, keyOf, t.(family := WithRecord(t.family, n, held)), orphans)
  {
    RecordedOk(keyOf, t.family, orphans, n, held);
  }

  lemma RefilledContents<R>(t: Forest<R>, n: TreeNode, held: Held<R>)
    requires Aligned(t.shape.home, t.family.cells.Keys) && n in t.family.cells
    ensures Contents(t.(family := WithRecord(t.family, n, held)))
         == if held.Held? then Contents(t)[n.record := held.r] else Contents(t) - {n.record}
  {
  }

  /** A node without a record gets one. */
  lemma FilledSound<R>(
      hash: string -> dword, keyOf: R -> string, t: Forest<R>, records: map<string, R>, held: set<R>, n: TreeNode,
      r: R)
    requires Sound(hash, keyOf, t, records, held, {}) && n in t.family.cells && t.family.cells[n].held.Empty?
    requires keyOf(r) == n.record
    ensures Sound(hash, keyOf, t.(family := WithRecord(t.family, n, Held(r))), records[n.record := r], held + {r}, {})
    ensures n.record !in records && r !in held
  {
    Open(hash, keyOf, t, records, held, {});
    PathsAgree(hash, keyOf, t, {});
    RecordOf(hash, keyOf, t, records, held, {}, n);
    HeldWith(keyOf, records, held, n.record, Held(r));
    RefilledOk(hash, keyOf, t, {}, n, Held(r));
    RefilledContents(t, n, Held(r));
  }

  /** A node's record is taken away. */
  lemma EmptiedSound<R>(
      hash: string -> dword, keyOf: R -> string, t: Forest<R>, records: map<string, R>, held: set<R>, n: TreeNode)
    requires Sound(hash, keyOf, t, records, held, {}) && n in t.family.cells && t.family.cells[n].held.Held?
    ensures Sound(hash, keyOf, t.(family := WithRecord(t.family, n, Empty)), records - {n.record},
      held - {t.family.cells[n].held.r}, {})
    ensures n.record in records && records[n.record] == t.family.cells[n].held.r && records[n.record] in held
  {
    Open(hash, keyOf, t, records, held, {});
    PathsAgree(hash, keyOf, t, {});
    RecordOf(hash, keyOf, t, records, held, {}, n);
    HeldWithout(keyOf, records, held, n.record, t.family.cells[n].held);
    RefilledOk(hash, keyOf, t, {}, n, Empty);
    RefilledContents(t, n, Empty);
  }

  // ----- A node less: its children become orphans -----

  function Uprooted<R>(t: Forest<R>, i: nat, p: nat, q: Link, j: nat): Forest<R>
    requires i < |t.shape.chains| && i < |t.shape.heads| && p < |t.shape.chains[i]|
    requires q != null ==>
      q in t.family.cells && q in t.family.kids && j < |t.family.kids[q]| &&
      (j > 0 ==> t.family.kids[q][j - 1] in t.family.cells)
  {
    Forest(WithoutNode(t.shape, i, p), Detached(t.family, t.shape.chains[i][p], q, j))
  }

  lemma UprootedOk<R>(
      hash: string -> dword, keyOf: R -> string, t: Forest<R>, orphans: set<TreeNode>, i: nat, p: nat, q: Link,
      j: nat)
    requires ForestOk(hash, keyOf, t, orphans) && i < |t.shape.chains| && p < |t.shape.chains[i]|
    requires Detachable(t.family, orphans, t.shape.chains[i][p], q, j)
    ensures ForestOk(hash, keyOf, Uprooted(t, i, p, q, j),
      orphans - {t.shape.chains[i][p]} + KidSet(t.family.kids[t.shape.chains[i][p]]))
    ensures DetachFrame(t.family, Uprooted(t, i, p, q, j).family, orphans, t.shape.chains[i][p])
    ensures LinkOk(t.shape.succ, t.shape.chains[i], p) && (p > 0 ==> t.shape.chains[i][p - 1] in t.shape.succ)
  {
    RemovedOk(PathKeys(hash), Self, t.shape, i, p);
    UprootedNodes(PathKeys(hash), t.shape, i, p);
    DetachedOk(keyOf, t.family, orphans, t.shape.chains[i][p], q, j);
  }

  lemma UprootedNodes(ops: KeyOps<string>, s: Shape<string>, i: nat, p: nat)
    requires TableOk(ops, Self, s) && i < |s.chains| && p < |s.chains[i]|
    ensures WithoutNode(s, i, p).succ.Keys == s.succ.Keys - {s.chains[i][p]}
  {
    if p > 0 { NodeIsHome(ops, Self, s, i, p - 1); }
  }

  /** When a node and its path go and the others keep their records. */
  lemma PrunedContents<R>(t: Forest<R>, t': Forest<R>, n: TreeNode)
    requires Aligned(t.shape.home, t.family.cells.Keys) && n in t.family.cells
    requires t'.shape.home == t.shape.home - {n.record} && t'.family.cells.Keys == t.family.cells.Keys - {n}
    requires forall m | m in t'.family.cells :: t'.family.cells[m].held == t.family.cells[m].held
    ensures Contents(t') == Contents(t) - {n.record}
  {
  }

  lemma UprootedSound<R>(hash: string -> dword, keyOf: R -> string, t: Forest<R>, records: map<string, R>, held: set<R>,
                         orphans: set<TreeNode>, i: nat, p: nat, q: Link, j: nat)
    requires Sound(hash, keyOf, t, records, held, orphans) && i < |t.shape.chains| && p < |t.shape.chains[i]|
    requires Detachable(t.family, orphans, t.shape.chains[i][p], q, j)
    ensures var n, t' := t.shape.chains[i][p], Uprooted(t, i, p, q, j);
      && Sound(hash, keyOf, t', records - {n.record}, held - OneOrNone(t.family.cells[n].held),
        orphans - {n} + KidSet(t.family.kids[n]))
      && DetachFrame(t.family, t'.family, orphans, n)
      && t'.shape.home == t.shape.home - {n.record}
      && OneOrNone(t.family.cells[n].held) <= held
      && (n.record in records <==> t.family.cells[n].held.Held?)
    ensures LinkOk(t.shape.succ, t.shape.chains[i], p) && (p > 0 ==> t.shape.chains[i][p - 1] in t.shape.succ)
  {
    Open(hash, keyOf, t, records, held, orphans);
    var n := t.shape.chains[i][p];
    PathsAgree(hash, keyOf, t, orphans);
    UprootedOk(hash, keyOf, t, orphans, i, p, q, j);
    PrunedContents(t, Uprooted(t, i, p, q, j), n);
    RecordOf(hash, keyOf, t, records, held, orphans, n);
    HeldWithout(keyOf, records, held, n.record, t.family.cells[n].held);
  }

  lemma ParentCutSound<R>(
      hash: string -> dword, keyOf: R -> string, t: Forest<R>, records: map<string, R>, held: set<R>,
      orphans: set<TreeNode>, o: TreeNode)
    requires Sound(hash, keyOf, t, records, held, orphans) && o in t.family.cells && o in orphans
    ensures Sound(hash, keyOf, t.(family := Unparented(t.family, o)), records, held, orphans)
  {
    Open(hash, keyOf, t, records, held, orphans);
    ParentCutOk(hash, keyOf, t, orphans, o);
  }

  lemma ParentCutOk<R>(hash: string -> dword, keyOf: R -> string, t: Forest<R>, orphans: set<TreeNode>, o: TreeNode)
    requires ForestOk(hash, keyOf, t, orphans) && o in t.family.cells && o in orphans
    ensures ForestOk(hash, keyOf, t.(family := Unparented(t.family, o)), orphans)
    ensures Contents(t.(family := Unparented(t.family, o))) == Contents(t)
  {
    UnparentedOk(keyOf, t.family, orphans, o);
  }

  /** Without a node for a path there is nothing below it either. */
  lemma NothingUnder<R>(
      hash: string -> dword, keyOf: R -> string, t: Forest<R>, records: map<string, R>, held: set<R>, path: string)
    requires Sound(hash, keyOf, t, records, held, {}) && path !in t.shape.home
    ensures t.shape.home.Keys == set p | p in t.shape.home && !Under(path, p)
    ensures records == map p | p in records && !Under(path, p) :: records[p]
  {
    forall p | p in t.shape.home ensures !Under(path, p) {
      AncestorsPresent(hash, keyOf, t, records, held, p);
      AncestorsAre(p, 1, |p|, path);
    }
    forall p | p in records ensures p in t.shape.home {
      Recorded(hash, keyOf, t, records, held, {}, p);
    }
  }

  /** Where a node that is not an orphan hangs. */
  lemma HangsAt<R>(
      hash: string -> dword, keyOf: R -> string, t: Forest<R>, records: map<string, R>, held: set<R>,
      orphans: set<TreeNode>, n: TreeNode)
    requires Sound(hash, keyOf, t, records, held, orphans) && n in t.family.cells && n !in orphans
    ensures var q := t.family.cells[n].parent;
      if LastCut(n.record) == 0 then q == null else q != null && q in t.family.cells && n in t.family.kids[q]
  {
    Open(hash, keyOf, t, records, held, orphans);
    assert NodeOk(keyOf, t.family, orphans, n);
  }

  lemma KidsOf<R>(
      hash: string -> dword, keyOf: R -> string, t: Forest<R>, records: map<string, R>, held: set<R>,
      orphans: set<TreeNode>, q: TreeNode)
    requires Sound(hash, keyOf, t, records, held, orphans) && q in t.family.cells
    ensures var c := t.family.kids[q];
      && Siblings(c, q.record) && t.family.cells[q].first == LinkAt(c, 0)
      && forall x {:trigger c[x]} | 0 <= x < |c| ::
        c[x] in t.family.cells && c[x] != q && c[x] !in orphans && t.family.cells[c[x]].sibling == LinkAt(c, x + 1)
  {
    Open(hash, keyOf, t, records, held, orphans);
    KidsAreSiblings(keyOf, t.family, orphans, q);
  }

  /** Where a node is in its bucket. */
  lemma BucketOf<R>(
      hash: string -> dword, keyOf: R -> string, t: Forest<R>, records: map<string, R>, held: set<R>,
      orphans: set<TreeNode>, n: TreeNode)
    returns (p: nat)
    requires Sound(hash, keyOf, t, records, held, orphans) && n in t.family.cells
    ensures p < |t.shape.chains[n.hash % |t.shape.heads|]| && t.shape.chains[n.hash % |t.shape.heads|][p] == n
  {
    Open(hash, keyOf, t, records, held, orphans);
    OpenTable(PathKeys(hash), Self, t.shape);
    assert AtHome(t.shape.home, n);
    assert Filed(PathKeys(hash), Self, t.shape, n.record);
    p :| 0 <= p < |t.shape.chains[n.hash % |t.shape.heads|]| && t.shape.chains[n.hash % |t.shape.heads|][p] == n;
  }

  lemma CutDownPaths<R>(t: Forest<R>, t': Forest<R>, a: string)
    requires Aligned(t.shape.home, t.family.cells.Keys) && Aligned(t'.shape.home, t'.family.cells.Keys)
    requires CutDown(t.family, t'.family, a)
    ensures forall p {:trigger p in t'.shape.home} :: p in t'.shape.home <==> p in t.shape.home && !Under(a, p)
    ensures forall p {:trigger t'.shape.home[p]} | p in t'.shape.home :: t'.shape.home[p] == t.shape.home[p]
  {
    assert Opened(0);
    forall p | p in t.shape.home && !Under(a, p) ensures p in t'.shape.home {
      assert t.shape.home[p] in t'.family.cells;
    }
  }

  lemma CutDownRecords<R>(t: Forest<R>, t': Forest<R>, a: string)
    requires Aligned(t.shape.home, t.family.cells.Keys) && Aligned(t'.shape.home, t'.family.cells.Keys)
    requires CutDown(t.family, t'.family, a) && Shrunk(t.family, t'.family, {})
    ensures Contents(t') == map p | p in Contents(t) && !Under(a, p) :: Contents(t)[p]
  {
    assert Opened(0);
    CutDownPaths(t, t', a);
  }

  /** When exactly the nodes under a path are gone, so are exactly the paths and the records under it. */
  lemma CutDownMeans<R>(hash: string -> dword, keyOf: R -> string, t: Forest<R>, records: map<string, R>, held: set<R>,
                        t': Forest<R>, records': map<string, R>, held': set<R>, a: string)
    requires Sound(hash, keyOf, t, records, held, {}) && Sound(hash, keyOf, t', records', held', {})
    requires CutDown(t.family, t'.family, a) && Shrunk(t.family, t'.family, {})
    ensures t'.shape.home.Keys == set p | p in t.shape.home && !Under(a, p)
    ensures records' == map p | p in records && !Under(a, p) :: records[p]
  {
    SoundAligned(hash, keyOf, t, records, held, {});
    SoundAligned(hash, keyOf, t', records', held', {});
    CutDownPaths(t, t', a);
    CutDownRecords(t, t', a);
  }

  lemma SubtreeGone<R>(
      hash: string -> dword, keyOf: R -> string, t: Forest<R>, records: map<string, R>, held: set<R>,
      orphans: set<TreeNode>, n: TreeNode, f1: Family<R>, f2: Family<R>)
    requires Sound(hash, keyOf, t, records, held, orphans) && n in t.family.cells && Alone(orphans, n)
    requires f1.cells.Keys == t.family.cells.Keys - {n} && CutDownTo(f1, f2, t.family.kids[n], |t.family.kids[n]|)
    ensures CutDown(t.family, f2, n.record)
  {
    Open(hash, keyOf, t, records, held, orphans);
    AllKidsGone(keyOf, t.family, orphans, n, f1, f2);
  }

  // ----- Deleting by predicate -----

  /** Between `before` and now only records the predicate selects have gone.  Closed. */
  ghost predicate PrunedTo<R>(before: map<string, R>, now: map<string, R>, pred: R -> bool) {
    forall k: nat {:trigger Opened(k)} :: Opened(k) ==>
    && (forall p {:trigger p in now} | p in now :: p in before && now[p] == before[p])
    && (forall p {:trigger p in before} | p in before && !pred(before[p]) :: p in now)
  }

  lemma PrunedStart<R>(before: map<string, R>, pred: R -> bool)
    ensures PrunedTo(before, before, pred)
  {
  }

  lemma PrunedDone<R>(before: map<string, R>, now: map<string, R>, pred: R -> bool)
    requires PrunedTo(before, now, pred) && forall p | p in now :: !pred(now[p])
    ensures now == map p | p in before && !pred(before[p]) :: before[p]
  {
    assert Opened(0);
  }

  lemma PrunedOneMore<R>(before: map<string, R>, now: map<string, R>, path: string, pred: R -> bool)
    requires PrunedTo(before, now, pred) && (path in now ==> pred(now[path]))
    ensures PrunedTo(before, now - {path}, pred)
  {
    assert Opened(0);
  }

  ghost predicate Unselected<R>(cells: map<TreeNode, Cell<R>>, n: TreeNode, pred: R -> bool) {
    n in cells && cells[n].held.Held? ==> !pred(cells[n].held.r)
  }

  /** No node before position p of chain i holds a selected record.  Closed. */
  ghost predicate TidyTo<R>(t: Forest<R>, i: nat, p: nat, pred: R -> bool) {
    forall key: nat {:trigger Opened(key)} :: Opened(key) ==>
      forall k, x {:trigger t.shape.chains[k][x]} | 0 <= k < |t.shape.chains| && 0 <= x < |t.shape.chains[k]| &&
        (k < i || (k == i && x < p)) ::
        Unselected(t.family.cells, t.shape.chains[k][x], pred)
  }

  lemma TidyStart<R>(t: Forest<R>, pred: R -> bool)
    ensures TidyTo(t, 0, 0, pred)
  {
  }

  lemma TidyNext<R>(t: Forest<R>, i: nat, p: nat, pred: R -> bool)
    requires i < |t.shape.chains| && TidyTo(t, i, p, pred)
    ensures p < |t.shape.chains[i]| && Unselected(t.family.cells, t.shape.chains[i][p], pred) ==>
      TidyTo(t, i, p + 1, pred)
    ensures p == |t.shape.chains[i]| ==> TidyTo(t, i + 1, 0, pred)
  {
    assert Opened(0);
  }

  lemma TidyDeleted<R>(t: Forest<R>, t': Forest<R>, i: nat, p: nat, pred: R -> bool)
    requires i < |t.shape.chains| && i < |t.shape.heads| && p < |t.shape.chains[i]| && TidyTo(t, i, p, pred)
    requires t'.shape == WithoutNode(t.shape, i, p) && Shrunk(t.family, t'.family, {})
    ensures TidyTo(t', i, p, pred)
  {
    assert Opened(0);
    forall k, x | 0 <= k < |t'.shape.chains| && 0 <= x < |t'.shape.chains[k]| && (k < i || (k == i && x < p))
      ensures Unselected(t'.family.cells, t'.shape.chains[k][x], pred)
    {
      assert t'.shape.chains[k][x] == t.shape.chains[k][x];
      assert Unselected(t.family.cells, t.shape.chains[k][x], pred);
    }
  }

  lemma TidyEmptied<R>(t: Forest<R>, n: TreeNode, i: nat, p: nat, pred: R -> bool)
    requires n in t.family.cells && TidyTo(t, i, p, pred)
    ensures TidyTo(t.(family := WithRecord(t.family, n, Empty)), i, p, pred)
  {
    assert Opened(0);
    forall k, x | 0 <= k < |t.shape.chains| && 0 <= x < |t.shape.chains[k]| && (k < i || (k == i && x < p))
      ensures Unselected(WithRecord(t.family, n, Empty).cells, t.shape.chains[k][x], pred)
    {
      assert Unselected(t.family.cells, t.shape.chains[k][x], pred);
    }
  }

  lemma TidyDone<R>(
      hash: string -> dword, keyOf: R -> string, t: Forest<R>, records: map<string, R>, held: set<R>,
      pred: R -> bool)
    requires Sound(hash, keyOf, t, records, held, {}) && TidyTo(t, |t.shape.chains|, 0, pred)
    ensures forall p | p in records :: !pred(records[p])
  {
    assert Opened(0);
    SoundAligned(hash, keyOf, t, records, held, {});
    forall p | p in records ensures !pred(records[p]) {
      var n := t.shape.home[p];
      var x := BucketOf(hash, keyOf, t, records, held, {}, n);
      assert Unselected(t.family.cells, t.shape.chains[n.hash % |t.shape.heads|][x], pred);
    }
  }

  /** With a leaf, only the leaf and its record go. */
  lemma LeafGone<R>(hash: string -> dword, keyOf: R -> string, t: Forest<R>, records: map<string, R>, held: set<R>,
                    t': Forest<R>, records': map<string, R>, held': set<R>, n: TreeNode)
    requires Sound(hash, keyOf, t, records, held, {}) && Sound(hash, keyOf, t', records', held', {})
    requires n in t.family.cells && t.family.kids[n] == []
    requires CutDown(t.family, t'.family, n.record) && Shrunk(t.family, t'.family, {})
    ensures records' == records - {n.record} && t'.shape.home.Keys == t.shape.home.Keys - {n.record}
  {
    SoundAligned(hash, keyOf, t, records, held, {});
    CutDownMeans(hash, keyOf, t, records, held, t', records', held', n.record);
    forall p | p in t.shape.home && p != n.record ensures !Under(n.record, p) {
      NotUnderLeaf(hash, keyOf, t, records, held, n, t.shape.home[p]);
    }
  }

  lemma NotUnderLeaf<R>(
      hash: string -> dword, keyOf: R -> string, t: Forest<R>, records: map<string, R>, held: set<R>, n: TreeNode,
      m: TreeNode)
    requires Sound(hash, keyOf, t, records, held, {}) && n in t.family.cells && t.family.kids[n] == []
    requires m in t.family.cells && m != n
    ensures !Under(n.record, m.record)
  {
    Open(hash, keyOf, t, records, held, {});
    UnderIffUnderKid(keyOf, t.family, {}, n, m);
  }

  // ----- Clearing -----

  /** Of the records held, those whose paths are among these. */
  ghost function HeldBy<R>(keyOf: R -> string, held: set<R>, paths: set<string>): set<R> {
    set r | r in held && keyOf(r) in paths
  }

  /** Clear's walk passes one node: exactly its record, if any, leaves the records still to be released. */
  lemma HeldByNext<R>(
      hash: string -> dword, keyOf: R -> string, t: Forest<R>, records: map<string, R>, held: set<R>, i: nat, p: nat)
    requires Sound(hash, keyOf, t, records, held, {}) && i < |t.shape.chains| && p < |t.shape.chains[i]|
    ensures var n := t.shape.chains[i][p];
      && n in t.family.cells
      && HeldBy(keyOf, held, LeftFrom(t.shape, i, p + 1)) == HeldBy(keyOf, held,
        LeftFrom(t.shape, i, p)) - OneOrNone(t.family.cells[n].held)
      && OneOrNone(t.family.cells[n].held) <= HeldBy(keyOf, held, LeftFrom(t.shape, i, p))
  {
    Open(hash, keyOf, t, records, held, {});
    var n := t.shape.chains[i][p];
    LeftNext(PathKeys(hash), Self, t.shape, i, p);
    NodeIsHome(PathKeys(hash), Self, t.shape, i, p);
    RecordOf(hash, keyOf, t, records, held, {}, n);
    HeldWithoutPath(keyOf, records, held, LeftFrom(t.shape, i, p), n.record, t.family.cells[n].held);
  }

  /** Clear starts at the head of a bucket's chain. */
  lemma FirstLink<R>(
    hash: string -> dword, keyOf: R -> string, t: Forest<R>, records: map<string, R>, held: set<R>, i: nat)
    requires Sound(hash, keyOf, t, records, held, {}) && i < |t.shape.heads|
    ensures |t.shape.heads| == |t.shape.chains| && t.shape.heads[i] == LinkAt(t.shape.chains[i], 0)
  {
    TableOf(hash, keyOf, t, records, held, {});
    ChainOf(PathKeys(hash), Self, t.shape, i);
  }

  /** One step of Clear along a chain: the next node, and the references without the one of this node's record. */
  lemma ReleaseNext<R>(
    hash: string -> dword, keyOf: R -> string, t: Forest<R>, records: map<string, R>, held: set<R>,
    i: nat, p: nat, refs: multiset<R>, others: multiset<R>)
    requires Sound(hash, keyOf, t, records, held, {})
    requires i < |t.shape.chains| && p < |t.shape.chains[i]|
    requires refs == multiset(HeldBy(keyOf, held, LeftFrom(t.shape, i, p))) + others
    ensures var n := t.shape.chains[i][p];
      && n in t.shape.succ && t.shape.succ[n] == LinkAt(t.shape.chains[i], p + 1)
      && n in t.family.cells
      && refs - multiset(OneOrNone(t.family.cells[n].held))
         == multiset(HeldBy(keyOf, held, LeftFrom(t.shape, i, p + 1))) + others
  {
    HeldByNext(hash, keyOf, t, records, held, i, p);
    TableOf(hash, keyOf, t, records, held, {});
    ChainOf(PathKeys(hash), Self, t.shape, i);
    assert LinkOk(t.shape.succ, t.shape.chains[i], p);
  }

  /** Past the last node of a chain, the rest is in the buckets after it. */
  lemma LastLink<R>(
    hash: string -> dword, keyOf: R -> string, t: Forest<R>, records: map<string, R>, held: set<R>, i: nat, p: nat)
    requires Sound(hash, keyOf, t, records, held, {})
    requires i < |t.shape.chains| && p == |t.shape.chains[i]|
    ensures LeftFrom(t.shape, i + 1, 0) == LeftFrom(t.shape, i, p)
  {
    TableOf(hash, keyOf, t, records, held, {});
    LeftNext(PathKeys(hash), Self, t.shape, i, p);
  }

  lemma HeldWithoutPath<R>(
      keyOf: R -> string, records: map<string, R>, held: set<R>, paths: set<string>, path: string, record: Held<R>)
    requires HeldAre(keyOf, records, held) && path in paths
    requires (path in records <==> record.Held?) && (record.Held? ==> records[path] == record.r)
    ensures HeldBy(keyOf, held, paths - {path}) == HeldBy(keyOf, held, paths) - OneOrNone(record)
    ensures OneOrNone(record) <= HeldBy(keyOf, held, paths)
  {
  }

  lemma HeldByEnds<R>(hash: string -> dword, keyOf: R -> string, t: Forest<R>, records: map<string, R>, held: set<R>)
    requires Sound(hash, keyOf, t, records, held, {})
    ensures HeldBy(keyOf, held, LeftFrom(t.shape, 0, 0)) == held
    ensures HeldBy(keyOf, held, LeftFrom(t.shape, |t.shape.chains|, 0)) == {}
  {
    Open(hash, keyOf, t, records, held, {});
    LeftAtStart(PathKeys(hash), Self, t.shape);
    forall r | r in held ensures keyOf(r) in t.shape.home {
      Recorded(hash, keyOf, t, records, held, {}, keyOf(r));
    }
  }
}

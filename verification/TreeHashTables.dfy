/**
 TREE_HASH_TABLE: every node is in a hash bucket and in the tree of its path's ancestors.

 The memory of the nodes is two maps that the methods update in place: `succ` holds every node's _pNext,
 `cells` its parent, first child, next sibling and record.  A node's path and hash never change.  `forest`
 says what the links mean: the chains of the buckets, the child lists, and the node of each path.
 */
module TreeHashTables {
  import opened HashKeys
  import opened HashTables
  import Primes
  import opened TreeFamily
  import opened TreeForests
  import opened TreePaths
  import opened Words

  class TreeHashTable<R(==)> {
    const hash: string -> dword
    const keyOf: R -> string

    var heads: seq<Link>
    var succ: map<TreeNode, Link>
    var cells: map<TreeNode, Cell<R>>
    var nItems: nat

    ghost var forest: Forest<R>
    ghost var records: map<string, R> // the map the table stands for
    ghost var held: set<R>            // its records
    ghost var refs: multiset<R>       // references on records taken through the table and not yet released
    ghost var handedOut: multiset<R>  // of these, the ones FindKey took for its callers

    /** The paths that have a node. */
    ghost function Paths(): set<string>
      reads `forest
    {
      forest.shape.home.Keys
    }

    /** The memory holds what `forest` says. */
    ghost predicate Coupled()
      reads this`heads, this`succ, this`cells, this`forest
    {
      heads == forest.shape.heads && succ == forest.shape.succ && cells == forest.family.cells
    }

    /** Both views hold, but for some nodes that have lost their parents. */
    ghost predicate Formed(orphans: set<TreeNode>)
      reads this`heads, this`succ, this`cells, this`forest, this`records, this`held
    {
      Coupled() && Sound(hash, keyOf, forest, records, held, orphans)
    }

    /** The node count, with nodes taken out but not yet counted; and one reference per record held,
        besides those FindKey handed out and those of records about to be released. */
    ghost predicate Accounted(leaving: nat, pending: multiset<R>)
      reads this`nItems, this`cells, this`refs, this`held, this`handedOut
    {
      nItems == |cells| + leaving && refs == multiset(held) + handedOut + pending
    }

    ghost predicate Valid()
      reads this
    {
      Formed({}) && Accounted(0, multiset{})
    }

    constructor (hash: string -> dword, keyOf: R -> string)
      ensures this.hash == hash && this.keyOf == keyOf && heads == []
    {
      this.hash := hash;
      this.keyOf := keyOf;
      heads := [];
      nItems := 0;
      succ := map[];
      cells := map[];
    }

    method Initialize(nBuckets: nat, haveMemory: bool) returns (status: Status)
      requires heads == []
      modifies this
      ensures status.Ok? <==> 0 < nBuckets < MAX_BUCKETS && haveMemory
      ensures status.Ok? ==> Valid() && Paths() == {} && refs == multiset{}
      ensures !status.Ok? ==> heads == []
    {
      if nBuckets == 0 || nBuckets >= MAX_BUCKETS {
        return InvalidArgument;
      }
      if !haveMemory {
        return OutOfMemory;
      }
      heads := seq(nBuckets, _ => null);
      refs := multiset{};
      handedOut := multiset{};
      SetEmpty();
      return Ok;
    }

    /** A table whose slots are all empty. */
    method SetEmpty()
      requires 0 < |heads| < MAX_BUCKETS && refs == handedOut
      requires forall k | 0 <= k < |heads| :: heads[k] == null
      modifies `succ, `cells, `nItems, `forest, `records, `held
      ensures Valid() && Paths() == {} && records == map[] && |forest.shape.heads| == |heads|
    {
      succ, cells, nItems := map[], map[], 0;
      forest := Forest(EmptyTable(|heads|), Family(map[], map[]));
      records, held := map[], {};
      EmptyForestSound<R>(hash, keyOf, |heads|);
    }

    /** FindNodeInternal: the node with the path, or the first node of the bucket with a larger hash, and
        the node in front of it (null: the bucket slot). */
    method FindNodeInternal(path: string) returns (found: bool, node: Link, prev: Link, ghost p: nat)
      requires Formed({})
      ensures Cursor(forest.shape.chains[hash(path) % |heads|], p, node, prev)
      ensures SearchedTo(PathKeys(hash), Self, forest.shape.chains[hash(path) % |heads|], path, hash(path), p)
      ensures found <==> path in Paths()
      ensures found ==> node == forest.shape.home[path] && node in succ && node.record == path
      ensures !found && node != null ==> node.hash > hash(path)
    {
      TableOf(hash, keyOf, forest, records, held, {});
      var h := hash(path);
      ghost var c := forest.shape.chains[h % |heads|];
      ChainOf(PathKeys(hash), Self, forest.shape, h % |heads|);
      p, prev, node, found := 0, null, heads[h % |heads|], false;
      while node != null
        invariant SearchedTo(PathKeys(hash), Self, c, path, h, p) && Cursor(c, p, node, prev)
        invariant !found
        decreases |c| - p
      {
        assert LinkOk(succ, c, p);
        if node.hash == h {
          if path == node.record {
            found := true;
            assert AtHome(forest.shape.home, c[p]);
            return;
          }
        } else if node.hash > h {
          break;
        }
        prev := node;
        node := succ[node];
        p := p + 1;
      }
      SearchIsComplete(PathKeys(hash), Self, forest.shape, path, p);
      assert path in Paths() ==> SamePath(path, Self(path));
    }

    /** FindKey: the record held under the path, with a reference for the caller. */
    method FindKey(path: string) returns (result: Held<R>)
      requires Valid()
      modifies `refs, `handedOut
      ensures Accounted(0, multiset{})
      ensures result == (if path in records then Held(records[path]) else Empty)
      ensures (result.Held? ==> keyOf(result.r) == path)
      ensures refs == old(refs) + if result.Held? then multiset{result.r} else multiset{}
    {
      var found, node, prev, p := FindNodeInternal(path);
      if found {
        RecordOf(hash, keyOf, forest, records, held, {}, node);
        result := cells[node].held;
        if result.Held? {
          TakeReference(result.r);
        }
      } else {
        Unrecorded(hash, keyOf, forest, records, held, {}, path);
        result := Empty;
      }
    }

    /** ReferenceRecord on behalf of a caller. */
    ghost method TakeReference(record: R)
      requires Accounted(0, multiset{})
      modifies `refs, `handedOut
      ensures Accounted(0, multiset{})
      ensures refs == old(refs) + multiset{record}
    {
      refs := refs + multiset{record};
      handedOut := handedOut + multiset{record};
    }

    // ----- Insertion -----

    /** A store through the pointer to a link: the bucket slot or the _pNext of a node. */
    method StoreLink(i: nat, prev: Link, link: Link)
      requires i < |heads|
      modifies `heads, `succ
      ensures heads == (if prev == null then old(heads)[i := link] else old(heads))
      ensures succ == (if prev == null then old(succ) else old(succ)[prev := link])
    {
      if prev == null {
        heads := heads[i := link];
      } else {
        succ := succ[prev := link];
      }
    }

    /** A new node's links: into its bucket, then in front of its parent's children. */
    method Link(node: TreeNode, next: Link, prev: Link, ghost p: nat, parent: Link, record: Held<R>)
      requires Coupled() && 0 < |heads| == |forest.shape.chains|
      requires Cursor(forest.shape.chains[node.hash % |heads|], p, next, prev)
      requires node !in cells && cells.Keys == forest.family.kids.Keys && (parent != null ==> parent in cells)
      modifies `heads, `succ, `cells, `forest
      ensures Coupled() && forest == Planted(old(forest), node.hash % |old(heads)|, p, node, parent, record)
    {
      var i := node.hash % |heads|;
      forest := Planted(forest, i, p, node, parent, record);
      succ := succ[node := next];
      StoreLink(i, prev, node);
      cells := cells[node := Cell(parent, null, null, record)];
      if parent != null {
        cells := cells[node := cells[node].(sibling := cells[parent].first)];
        cells := cells[parent := cells[parent].(first := node)];
      }
    }

    /** The reference on a record the table has come to hold, and the count of the nodes it has gained. */
    method CountIn(record: Held<R>, ghost before: set<R>, ghost nodes: set<TreeNode>, gained: nat)
      requires nItems == |nodes| && refs == multiset(before) + handedOut
      requires |cells.Keys| == |nodes| + gained
      requires held == before + OneOrNone(record) && OneOrNone(record) !! before
      modifies `refs, `nItems
      ensures Accounted(0, multiset{})
      ensures refs == old(refs) + multiset(OneOrNone(record))
    {
      refs := refs + multiset(OneOrNone(record));
      nItems := nItems + gained;
      assert |cells| == |cells.Keys|;
    }

    /** A node for a new path, under its longest ancestor, in both views. */
    method Plant(node: TreeNode, next: Link, prev: Link, ghost p: nat, parent: Link, record: Held<R>)
      requires Formed({})
      requires FitsAt(PathKeys(hash), Self, forest.shape, node.hash % |heads|, p, node)
      requires Cursor(forest.shape.chains[node.hash % |heads|], p, next, prev)
      requires Addable(keyOf, forest.family, node, parent, record)
      modifies `heads, `succ, `cells, `forest, `records, `held
      ensures |heads| == old(|heads|)
      ensures Formed({})
      ensures Paths() == old(Paths()) + {node.record} && cells.Keys == old(cells.Keys) + {node} && node !in old(cells)
      ensures records == WithHeld(old(records), node.record, record)
      ensures held == old(held) + OneOrNone(record) && OneOrNone(record) !! old(held)
    {
      PlantedSound(hash, keyOf, forest, records, held, node.hash % |heads|, p, node, parent, record);
      Link(node, next, prev, p, parent, record);
      records, held := WithHeld(records, node.record, record), held + OneOrNone(record);
    }

    /** Plant, with the reference and the count. */
    method AddNew(node: TreeNode, next: Link, prev: Link, ghost p: nat, parent: Link, record: Held<R>)
      requires Valid()
      requires FitsAt(PathKeys(hash), Self, forest.shape, node.hash % |heads|, p, node)
      requires Cursor(forest.shape.chains[node.hash % |heads|], p, next, prev)
      requires Addable(keyOf, forest.family, node, parent, record)
      modifies `heads, `succ, `cells, `nItems, `forest, `records, `held, `refs
      ensures |heads| == old(|heads|)
      ensures Valid()
      ensures Paths() == old(Paths()) + {node.record} && node in cells
      ensures records == WithHeld(old(records), node.record, record)
      ensures refs == old(refs) + multiset(OneOrNone(record))
    {
      hide WithHeld, OneOrNone, FitsAt, Cursor, Addable, LastCut, TreeHashTable.Paths;
      Plant(node, next, prev, p, parent, record);
      assert |old(cells)| == |old(cells).Keys|;
      CountIn(record, old(held), old(cells).Keys, 1);
    }

    /** A node without a record gets one. */
    method Fill(node: TreeNode, r: R)
      requires Formed({}) && node in cells && cells[node].held.Empty? && keyOf(r) == node.record
      modifies `cells, `forest, `records, `held
      ensures Formed({}) && Paths() == old(Paths()) && cells.Keys == old(cells).Keys
      ensures records == old(records)[node.record := r]
      ensures held == old(held) + {r} && r !in old(held)
    {
      FilledSound(hash, keyOf, forest, records, held, node, r);
      cells := cells[node := cells[node].(held := Held(r))];
      forest := forest.(family := WithRecord(forest.family, node, Held(r)));
      records, held := records[node.record := r], held + {r};
    }

    /** Fill, with the reference. */
    method GiveRecord(node: TreeNode, r: R)
      requires Valid() && node in cells && cells[node].held.Empty? && keyOf(r) == node.record
      modifies `cells, `nItems, `forest, `records, `held, `refs
      ensures Valid() && Paths() == old(Paths()) && node in cells
      ensures records == old(records)[node.record := r]
      ensures refs == old(refs) + multiset{r}
    {
      Fill(node, r);
      assert |old(cells)| == |old(cells).Keys|;
      CountIn(Held(r), old(held), old(cells).Keys, 0);
    }

    /** parent is what a new node for this path must be linked under. */
    ghost predicate ParentFor(path: string, parent: Link)
      reads `cells
    {
      if LastCut(path) == 0 then parent == null
      else parent != null && parent in cells && parent.record == path[..LastCut(path)]
    }

    /** AddNodeInternal: a node for the path, or the record for a node that has none. */
    method AddNodeInternal(
        path: string, record: Held<R>, parent: Link, haveMemory: bool) returns (status: Status, added: Link)
      requires Valid() && |path| > 0 && (record.Held? ==> keyOf(record.r) == path)
      requires path !in Paths() ==> ParentFor(path, parent)
      modifies `heads, `succ, `cells, `nItems, `forest, `records, `held, `refs
      ensures |heads| == old(|heads|)
      ensures Valid()
      ensures status == if !haveMemory then OutOfMemory
        else if (if record.Held? then path in old(records) else path in old(Paths())) then AlreadyExists else Ok
      ensures Paths() == if haveMemory then old(Paths()) + {path} else old(Paths())
      ensures records == if status.Ok? then WithHeld(old(records), path, record) else old(records)
      ensures refs == old(refs) + if status.Ok? then multiset(OneOrNone(record)) else multiset{}
      ensures haveMemory ==> added != null && added in cells && added.record == path
      ensures !haveMemory ==> added == parent
    {
      hide TreeHashTable.Accounted;
      if !haveMemory {
        return OutOfMemory, parent;
      }
      var node := new Node(path, hash(path));
      var found, next, prev, p := FindNodeInternal(path);
      if found {
        RecordOf(hash, keyOf, forest, records, held, {}, next);
        if record.Held? && cells[next].held.Empty? {
          GiveRecord(next, record.r);
          return Ok, next;
        }
        return AlreadyExists, next;
      }
      NewPath(hash, keyOf, forest, records, held, path);
      Unrecorded(hash, keyOf, forest, records, held, {}, path);
      AddNew(node, next, prev, p, parent, record);
      return Ok, node;
    }

    /** InsertRecord's first loop: the key buffer is cut at its last separator, the one before, and so on,
        until what is left is a path with a node. */
    method FindLowestParent(key: string, buffer: string) returns (partial: string, parent: Link, end: nat)
      requires Formed({}) && |key| > 0 && '\0' !in key && CutFrom(buffer, key, |key|)
      ensures CutFrom(partial, key, end + 1) && end < |key|
      ensures if end == 0 then parent == null
        else
          && IsCut(key, end) && key[..end] in Paths()
          && parent != null && parent in cells && parent.record == key[..end]
      ensures forall d | end < d < |key| && IsCut(key, d) :: key[..d] !in Paths()
    {
      partial, parent, end := buffer, null, |key| - 1;
      while end > 0
        invariant end < |key| && parent == null && CutFrom(partial, key, end + 1)
        invariant forall d | end < d < |key| && IsCut(key, d) :: key[..d] !in Paths()
      {
        if IsSeparator(partial[end]) {
          partial := partial[end := '\0'];
          CutReads(partial, key, end);
          var found, node, prev, p := FindNodeInternal(CString(partial));
          if found {
            partial := partial[end := key[end]];
            parent := node;
            return;
          }
        }
        end := end - 1;
      }
    }

    /** parent is the node of the longest ancestor of key[..end]. */
    ghost predicate Above(key: string, end: nat, parent: Link)
      requires end <= |key|
      reads `cells
    {
      var c := LastCutBefore(key, end);
      if c == 0 then parent == null else parent != null && parent in cells && parent.record == key[..c]
    }

    /** One round of InsertRecord's second loop: a node for the path the buffer is cut to. */
    method AddCut(
        key: string, end: nat, partial: string, parent: Link, record: Held<R>, haveMemory: bool)
      returns (status: Status, added: Link)
      requires Valid() && '\0' !in key && 0 < end <= |key| && CutFrom(partial, key, end)
      requires (IsCut(key, end) || end == |key|)
      requires Above(key, end, parent) && (record.Held? ==> keyOf(record.r) == key[..end])
      modifies `heads, `succ, `cells, `nItems, `forest, `records, `held, `refs
      ensures |heads| == old(|heads|)
      ensures Valid()
      ensures status == if !haveMemory then OutOfMemory
        else if (if record.Held? then key[..end] in old(records) else key[..end] in old(Paths())) then AlreadyExists
          else Ok
      ensures Paths() == if haveMemory then old(Paths()) + {key[..end]} else old(Paths())
      ensures records == if status.Ok? then WithHeld(old(records), key[..end], record) else old(records)
      ensures refs == old(refs) + if status.Ok? then multiset(OneOrNone(record)) else multiset{}
      ensures haveMemory ==> added != null && added in cells && added.record == key[..end]
    {
      CutReads(partial, key, end);
      LastCutOfPrefix(key, end, end);
      status, added := AddNodeInternal(CString(partial), record, parent, haveMemory);
    }

    /** Between two rounds: the cuts from `lo` up to `end` are undone and their paths have nodes. */
    ghost predicate Grown(key: string, lo: nat, end: nat, base: set<string>, partial: string, parent: Link)
      reads `cells, `forest
    {
      && lo <= end <= |key| && CutFrom(partial, key, end) && Above(key, end, parent)
      && GrownTo(Paths(), base, key, lo, end)
    }

    /** One character of InsertRecord's second loop. */
    method Round(
        key: string, end: nat, partial: string, parent: Link, haveMemory: bool, ghost lo: nat,
        ghost base: set<string>)
      returns (full: bool, partial': string, parent': Link)
      requires Valid() && '\0' !in key && 0 < end < |key| && Grown(key, lo, end, base, partial, parent)
      modifies `heads, `succ, `cells, `nItems, `forest, `records, `held, `refs
      ensures |heads| == old(|heads|)
      ensures Valid() && records == old(records) && refs == old(refs)
      ensures full <==> IsCut(key, end) && !haveMemory
      ensures full ==> Paths() == old(Paths())
      ensures !full ==> Grown(key, lo, end + 1, base, partial', parent')
    {
      GrownNext(Paths(), base, key, lo, end);
      full, partial', parent' := false, partial, parent;
      if partial[end] == '\0' {
        var status;
        status, parent' := AddCut(key, end, partial, parent, Empty, haveMemory);
        full := status.OutOfMemory?;
        partial' := partial[end := key[end]];
      }
    }

    /** InsertRecord's second loop: the cuts are undone from the found ancestor on, with a node without a
        record at each. */
    method AddAncestors(key: string, buffer: string, lowest: Link, lo: nat, alloc: nat -> bool, ghost base: set<string>)
      returns (full: bool, partial: string, parent: Link)
      requires Valid() && '\0' !in key && 0 < lo <= |key| && CutFrom(buffer, key, lo) && Above(key, lo, lowest)
      requires Paths() == base
      modifies `heads, `succ, `cells, `nItems, `forest, `records, `held, `refs
      ensures |heads| == old(|heads|)
      ensures Valid() && records == old(records) && refs == old(refs)
      ensures full <==> Lacking(key, lo, |key|, alloc)
      ensures full ==> base <= Paths() <= base + Ancestors(key, 1, |key|)
      ensures !full ==> Grown(key, lo, |key|, base, partial, parent)
    {
      hide Lacking;
      var end := lo;
      partial, parent, full := buffer, lowest, false;
      GrownStart(base, key, lo);
      LackingNext(key, lo, lo, alloc);
      while end < |key|
        invariant Valid() && records == old(records) && refs == old(refs) && |heads| == old(|heads|)
        invariant Grown(key, lo, end, base, partial, parent) && !Lacking(key, lo, end, alloc)
      {
        GrownWithin(Paths(), base, key, lo, end);
        LackingNext(key, lo, end, alloc);
        LackingNext(key, lo, end + 1, alloc);
        full, partial, parent := Round(key, end, partial, parent, alloc(end), lo, base);
        if full {
          return;
        }
        end := end + 1;
      }
      assert end == |key| && !full;
    }

    /** The last round: the record itself. */
    method AddLast(record: R, key: string, partial: string, parent: Link, haveMemory: bool) returns (status: Status)
      requires Valid() && key == keyOf(record) && '\0' !in key && |key| > 0 && CutFrom(partial, key, |key|)
      requires Above(key, |key|, parent)
      modifies `heads, `succ, `cells, `nItems, `forest, `records, `held, `refs
      ensures |heads| == old(|heads|)
      ensures Valid()
      ensures status == if !haveMemory then OutOfMemory else if key in old(records) then AlreadyExists else Ok
      ensures Paths() == if haveMemory then old(Paths()) + {key} else old(Paths())
      ensures records == if status.Ok? then old(records)[key := record] else old(records)
      ensures refs == old(refs) + if status.Ok? then multiset{record} else multiset{}
    {
      assert key[..|key|] == key;
      var added;
      status, added := AddCut(key, |key|, partial, parent, Held(record), haveMemory);
    }

    /** InsertRecord up to the rehash, with a zero-terminated copy of the key. */
    method InsertKey(record: R, key: string, buffer: string, alloc: nat -> bool) returns (status: Status)
      requires Valid() && key == keyOf(record) && |key| > 0 && '\0' !in key && CutFrom(buffer, key, |key|)
      modifies `heads, `succ, `cells, `nItems, `forest, `records, `held, `refs
      ensures |heads| == old(|heads|)
      ensures Valid()
      ensures status.OutOfMemory? <==> !alloc(|key|) || LacksNode(old(Paths()), key, alloc)
      ensures status.OutOfMemory? ==> old(Paths()) <= Paths() <= old(Paths()) + Ancestors(key, 1, |key|)
      ensures !status.OutOfMemory? ==> status == if key in old(records) then AlreadyExists else Ok
      ensures !status.OutOfMemory? ==> Paths() == old(Paths()) + Ancestors(key, 1, |key|) + {key}
      ensures status.AlreadyExists? ==> Paths() == old(Paths())
      ensures records == if status.Ok? then old(records)[key := record] else old(records)
      ensures refs == old(refs) + if status.Ok? then multiset{record} else multiset{}
    {
      hide GrownTo, CutFrom, IsCut, Sound, TreeHashTable.Coupled, TreeHashTable.Accounted, LastCutBefore, Lacking,
        LacksNode;
      ghost var base := Paths();
      var partial, lowest, from := FindLowestParent(key, buffer);
      LackingMeans(hash, keyOf, forest, records, held, key, from, alloc);
      var full, partial', parent := AddAncestors(key, partial, lowest, from + 1, alloc, base);
      if full {
        return OutOfMemory;
      }
      ghost var paths := Paths();
      GrownWithin(paths, base, key, from + 1, |key|);
      status := AddLast(record, key, partial', parent, alloc(|key|));
      if !status.OutOfMemory? {
        InsertedPaths(hash, keyOf, old(forest), old(records), old(held), forest, records, held, key, from + 1, paths);
      }
    }

    /** InsertRecord: the record, and nodes without records for its ancestors.  When memory runs out some of
        these may stay, but what the table stands for does not change. */
    method InsertRecord(record: R, haveBuffer: bool, alloc: nat -> bool, canGrow: bool) returns (status: Status)
      requires Valid() && |keyOf(record)| > 0 && '\0' !in keyOf(record)
      modifies `heads, `succ, `cells, `nItems, `forest, `records, `held, `refs
      ensures Valid()
      ensures status.OutOfMemory? <==>
        !haveBuffer || !alloc(|keyOf(record)|) || LacksNode(old(Paths()), keyOf(record), alloc)
      ensures status.OutOfMemory? ==>
        old(Paths()) <= Paths() <= old(Paths()) + Ancestors(keyOf(record), 1, |keyOf(record)|)
      ensures !status.OutOfMemory? ==> status == if keyOf(record) in old(records) then AlreadyExists else Ok
      ensures status.Ok? ==> Paths() == old(Paths()) + Ancestors(keyOf(record), 1, |keyOf(record)|) + {keyOf(record)}
      ensures status.AlreadyExists? ==> Paths() == old(Paths())
      ensures records == if status.Ok? then old(records)[keyOf(record) := record] else old(records)
      ensures refs == old(refs) + if status.Ok? then multiset{record} else multiset{}
      ensures if status.Ok? then Resized(old(|heads|), |heads|, nItems, canGrow) else |heads| == old(|heads|)
    {
      if !haveBuffer {
        return OutOfMemory;
      }
      status := InsertKey(record, keyOf(record), keyOf(record) + ['\0'], alloc);
      if status.Ok? {
        RehashTableIfNeeded(canGrow);
      }
    }

    // ----- Growing -----

    /** Where a node goes in its new chain: after every hash that is not larger. */
    method FindSlot(
        newHeads: seq<Link>, h: dword, ghost t: Shape<string>) returns (next: Link, prev: Link, ghost q: nat)
      requires TableOk(PathKeys(hash), Self, t) && newHeads == t.heads
      requires forall n | n in t.succ :: n in succ && succ[n] == t.succ[n]
      ensures Cursor(t.chains[h % |t.heads|], q, next, prev)
      ensures forall x | 0 <= x < q :: t.chains[h % |t.heads|][x].hash <= h
      ensures next != null ==> next.hash > h
      ensures prev != null ==> prev in t.succ
    {
      ghost var c := t.chains[h % |t.heads|];
      ChainOf(PathKeys(hash), Self, t, h % |t.heads|);
      next, prev, q := newHeads[h % |newHeads|], null, 0;
      while next != null && next.hash <= h
        invariant Cursor(c, q, next, prev)
        invariant forall x | 0 <= x < q :: c[x].hash <= h
        invariant prev != null ==> prev in t.succ
        decreases |c| - q
      {
        assert LinkOk(t.succ, c, q);
        prev := next;
        next := succ[next];
        q := q + 1;
      }
    }

    /** Nodes not moved yet hold their old links, the others the links of the new table. */
    ghost predicate HalfMoved(s: Shape<string>, t: Shape<string>)
      reads `succ
    {
      && t.succ.Keys <= s.succ.Keys == succ.Keys
      && forall n | n in succ :: succ[n] == if n in t.succ then t.succ[n] else s.succ[n]
    }

    /** Moves one node to the new table. */
    method MoveNode(
        newHeads: seq<Link>, node: TreeNode, ghost s: Shape<string>, ghost t: Shape<string>, ghost i: nat,
        ghost p: nat)
      returns (newHeads': seq<Link>, ghost t': Shape<string>)
      requires Moved(PathKeys(hash), Self, s, t, i, p) && i < |s.chains| && p < |s.chains[i]| && node == s.chains[i][p]
      requires newHeads == t.heads && HalfMoved(s, t)
      modifies `succ
      ensures Moved(PathKeys(hash), Self, s, t', i, p + 1) && |t'.heads| == |t.heads|
      ensures newHeads' == t'.heads && HalfMoved(s, t')
    {
      MoveFits(PathKeys(hash), Self, s, t, i, p);
      var next, prev, q := FindSlot(newHeads, node.hash, t);
      ghost var b := node.hash % |t.heads|;
      assert FitsAt(PathKeys(hash), Self, t, b, q, node);
      MovedOn(PathKeys(hash), Self, s, t, i, p, q);
      InsertedOk(PathKeys(hash), Self, t, b, q, node);
      t' := WithNode(t, b, q, node);
      succ := succ[node := next];
      newHeads' := newHeads;
      if prev == null {
        newHeads' := newHeads'[node.hash % |newHeads| := node];
      } else {
        succ := succ[prev := node];
      }
    }

    /** Moves the nodes of one old bucket, reading each link before it is overwritten. */
    method MoveBucket(newHeads: seq<Link>, i: nat, ghost s: Shape<string>, ghost t: Shape<string>)
      returns (newHeads': seq<Link>, ghost t': Shape<string>)
      requires i < |heads| && heads == s.heads && Moved(PathKeys(hash), Self, s, t, i, 0) && newHeads == t.heads
      requires HalfMoved(s, t)
      modifies `succ
      ensures Moved(PathKeys(hash), Self, s, t', i + 1, 0) && |t'.heads| == |t.heads|
      ensures newHeads' == t'.heads && HalfMoved(s, t')
    {
      newHeads', t' := newHeads, t;
      ghost var p := 0;
      var node := heads[i];
      ChainOf(PathKeys(hash), Self, s, i);
      while node != null
        invariant p <= |s.chains[i]| && node == LinkAt(s.chains[i], p)
        invariant Moved(PathKeys(hash), Self, s, t', i, p) && |t'.heads| == |t.heads|
        invariant newHeads' == t'.heads && HalfMoved(s, t')
        decreases |s.chains[i]| - p
      {
        NodeIsHome(PathKeys(hash), Self, s, i, p);
        assert node == s.chains[i][p];
        var next := succ[node];
        newHeads', t' := MoveNode(newHeads', node, s, t', i, p);
        node := next;
        p := p + 1;
      }
    }

    /** RehashTableIfNeeded: paths, records and the tree stay as they are. */
    method RehashTableIfNeeded(canGrow: bool)
      requires Valid()
      modifies `heads, `succ, `forest
      ensures Valid() && Paths() == old(Paths())
      ensures |heads| == old(|heads|) || 2 * old(|heads|) <= |heads| < nItems
      ensures Resized(old(|heads|), |heads|, nItems, canGrow)
    {
      hide TreeHashTable.Accounted;
      var target := Primes.GetPrime(2 * |heads|);
      if nItems <= target {
        return;
      }
      var n := Primes.GetPrime(2 * |heads|);
      Primes.OnePrimeFor(2 * |heads|, n, target);
      if nItems <= n || n >= MAX_BUCKETS || !canGrow {
        return;
      }
      MoveAll(n);
    }

    method MoveAll(n: nat)
      requires Formed({}) && 0 < n < MAX_BUCKETS
      modifies `heads, `succ, `forest
      ensures Formed({}) && |heads| == n && Paths() == old(Paths())
    {
      TableOf(hash, keyOf, forest, records, held, {});
      ghost var s, t := forest.shape, EmptyTable(n);
      NothingMoved(PathKeys(hash), Self, s, n);
      var newHeads: seq<Link> := seq(n, _ => null);
      for i := 0 to |heads|
        invariant heads == s.heads && forest == old(forest) && Moved(PathKeys(hash), Self, s, t, i, 0) && |t.heads| == n
        invariant newHeads == t.heads && HalfMoved(s, t)
      {
        newHeads, t := MoveBucket(newHeads, i, s, t);
      }
      RehashedSound(hash, keyOf, forest, records, held, t);
      heads := newHeads;
      forest := forest.(shape := t);
    }

    // ----- Deletion -----

    /** The walk over a parent's children to the link that leads to the node. */
    method FindKid(node: TreeNode, q: TreeNode, ghost orphans: set<TreeNode>) returns (prevKid: Link, ghost j: nat)
      requires Formed(orphans) && q in cells && node in forest.family.kids[q]
      ensures j < |forest.family.kids[q]| && forest.family.kids[q][j] == node
      ensures prevKid == if j > 0 then forest.family.kids[q][j - 1] else null
      ensures prevKid != null ==> prevKid in cells && prevKid != node
      ensures node in cells && node != q && node !in orphans
      ensures cells[node].sibling == LinkAt(forest.family.kids[q], j + 1)
    {
      ghost var c := forest.family.kids[q];
      KidsOf(hash, keyOf, forest, records, held, orphans, q);
      ghost var at :| 0 <= at < |c| && c[at] == node;
      var kid := cells[q].first;
      prevKid, j := null, 0;
      while kid != node
        invariant j <= at && kid == c[j] && prevKid == if j > 0 then c[j - 1] else null
        decreases at - j
      {
        prevKid := kid;
        kid := cells[kid].sibling;
        j := j + 1;
      }
    }

    /** The stores that take a node out of its bucket and out of its parent's children. */
    method LinkOut(i: nat, node: TreeNode, prev: Link, q: Link, prevKid: Link, ghost p: nat, ghost j: nat)
      requires Coupled() && i < |heads| == |forest.shape.chains| && p < |forest.shape.chains[i]|
      requires forest.shape.chains[i][p] == node && prev == (if p > 0 then forest.shape.chains[i][p - 1] else null)
      requires LinkOk(succ, forest.shape.chains[i], p) && node in cells
      requires q != null ==>
        q in cells && q in forest.family.kids && j < |forest.family.kids[q]| && forest.family.kids[q][j] == node
      requires q != null ==> prevKid == if j > 0 then forest.family.kids[q][j - 1] else null
      requires q != null ==>
        cells[node].sibling == LinkAt(forest.family.kids[q], j + 1) && (prevKid != null ==> prevKid in cells)
      modifies `heads, `succ, `cells, `forest
      ensures Coupled() && forest == Uprooted(old(forest), i, p, q, j)
    {
      StoreLink(i, prev, succ[node]);
      if q != null {
        if prevKid == null {
          cells := cells[q := cells[q].(first := cells[node].sibling)];
        } else {
          cells := cells[prevKid := cells[prevKid].(sibling := cells[node].sibling)];
        }
      }
      forest := Uprooted(forest, i, p, q, j);
      succ, cells := succ - {node}, cells - {node};
    }

    /** DeleteNodeInternal's first part: the node leaves both views, and its children become orphans.  From
        here on nobody but this call can reach the node. */
    method Detach(i: nat, node: TreeNode, prev: Link, ghost p: nat, ghost orphans: set<TreeNode>)
      requires Formed(orphans) && i < |heads| && p < |forest.shape.chains[i]| && forest.shape.chains[i][p] == node
      requires prev == if p > 0 then forest.shape.chains[i][p - 1] else null
      requires node in cells && (node in orphans ==> cells[node].parent == null)
      modifies `heads, `succ, `cells, `forest, `records, `held
      ensures Formed(orphans - {node} + KidSet(old(forest).family.kids[node]))
      ensures forest.shape == WithoutNode(old(forest).shape, i, p)
      ensures DetachFrame(old(forest).family, forest.family, orphans, node)
      ensures held == old(held) - OneOrNone(old(cells)[node].held) && OneOrNone(old(cells)[node].held) <= old(held)
    {
      var q, prevKid: Link := cells[node].parent, null;
      ghost var j := 0;
      if q != null {
        HangsAt(hash, keyOf, forest, records, held, orphans, node);
        prevKid, j := FindKid(node, q, orphans);
      } else if node !in orphans {
        HangsAt(hash, keyOf, forest, records, held, orphans, node);
      }
      assert Detachable(forest.family, orphans, node, q, j);
      UprootedSound(hash, keyOf, forest, records, held, orphans, i, p, q, j);
      records, held := records - {node.record}, held - OneOrNone(cells[node].held);
      LinkOut(i, node, prev, q, prevKid, p, j);
    }

    /** The walk along a bucket to the link that leads to the node. */
    method Locate(node: TreeNode, ghost orphans: set<TreeNode>) returns (prev: Link, ghost p: nat)
      requires Formed(orphans) && node in cells
      ensures p < |forest.shape.chains[node.hash % |heads|]| && forest.shape.chains[node.hash % |heads|][p] == node
      ensures prev == if p > 0 then forest.shape.chains[node.hash % |heads|][p - 1] else null
    {
      ghost var c := forest.shape.chains[node.hash % |heads|];
      ghost var at := BucketOf(hash, keyOf, forest, records, held, orphans, node);
      TableOf(hash, keyOf, forest, records, held, orphans);
      ChainOf(PathKeys(hash), Self, forest.shape, node.hash % |heads|);
      var next := heads[node.hash % |heads|];
      prev, p := null, 0;
      while next != node
        invariant p <= at && next == c[p] && prev == if p > 0 then c[p - 1] else null
        decreases at - p
      {
        assert LinkOk(succ, c, p);
        prev := next;
        next := succ[next];
        p := p + 1;
      }
    }

    /** A detached node's record is about to be released and the node to be counted out. */
    lemma Leaving(
        content: Held<R>, node: TreeNode, before: set<TreeNode>, was: set<R>, leaving: nat, pending: multiset<R>)
      requires nItems == |before| + leaving && refs == multiset(was) + handedOut + pending
      requires cells.Keys == before - {node} && node in before
      requires held == was - OneOrNone(content) && OneOrNone(content) <= was
      ensures Accounted(leaving + 1, pending + multiset(OneOrNone(content)))
    {
      assert |cells| == |cells.Keys|;
      assert multiset(was) == multiset(held) + multiset(OneOrNone(content));
    }

    /** DeleteNode, and the count. */
    method Release(content: Held<R>, ghost leaving: nat, ghost pending: multiset<R>)
      requires Accounted(leaving + 1, pending + multiset(OneOrNone(content)))
      modifies `refs, `nItems
      ensures Accounted(leaving, pending)
    {
      refs := refs - multiset(OneOrNone(content));
      nItems := nItems - 1;
    }

    /** pChild->_pParentNode = NULL. */
    method CutParent(child: TreeNode, ghost orphans: set<TreeNode>)
      requires Formed(orphans) && child in cells && child in orphans
      modifies `cells, `forest
      ensures Formed(orphans) && cells[child].parent == null
      ensures forest.shape == old(forest).shape && forest.family == Unparented(old(forest).family, child)
    {
      ParentCutSound(hash, keyOf, forest, records, held, orphans, child);
      cells := cells[child := cells[child].(parent := null)];
      forest := forest.(family := Unparented(forest.family, child));
    }

    /** DeleteNodeInternal: exactly the nodes under the node's path leave both views; each record they held
        is released once. */
    method DeleteNodeInternal(
        i: nat, node: TreeNode, prev: Link, ghost p: nat, ghost orphans: set<TreeNode>, ghost leaving: nat,
        ghost pending: multiset<R>)
      requires Formed(orphans) && Accounted(leaving, pending) && i < |heads| && p < |forest.shape.chains[i]|
      requires forest.shape.chains[i][p] == node
      requires prev == if p > 0 then forest.shape.chains[i][p - 1] else null
      requires node in cells && (node in orphans ==> cells[node].parent == null) && Alone(orphans, node)
      modifies `heads, `succ, `cells, `nItems, `forest, `records, `held, `refs
      ensures Formed(orphans - {node}) && Accounted(leaving, pending)
      ensures CutDown(old(forest).family, forest.family, node.record)
      ensures Shrunk(old(forest).family, forest.family, orphans)
      ensures old(forest).family.kids[node] == [] ==> forest.shape == WithoutNode(old(forest).shape, i, p)
      decreases cells.Keys, 0
    {
      var cell := cells[node];
      ghost var c := forest.family.kids[node];
      KidsOf(hash, keyOf, forest, records, held, orphans, node);
      Detach(i, node, prev, p, orphans);
      Leaving(cell.held, node, old(cells).Keys, old(held), leaving, pending);
      ghost var f1 := forest.family;
      DetachBereaves(old(forest).family, f1, orphans, node);
      NothingCut(f1, c, OrphansLeft(orphans - {node}, c, 0));
      DeleteChildren(cell.first, c, node.record, orphans - {node}, leaving + 1,
        pending + multiset(OneOrNone(cell.held)));
      NoneLeft(orphans - {node}, c);
      SubtreeGone(hash, keyOf, old(forest), old(records), old(held), orphans, node, f1, forest.family);
      ShrunkAfterDetach(old(forest).family, f1, forest.family, orphans, node);
      Release(cell.held, leaving, pending);
    }

    /** The first k children of a detached node, and what was under them, are gone. */
    ghost predicate Midway(
        f: Family<R>, c: seq<TreeNode>, k: nat, orphans: set<TreeNode>, leaving: nat, pending: multiset<R>)
      reads this
    {
      && k <= |c| && Formed(OrphansLeft(orphans, c, k)) && Accounted(leaving, pending)
      && CutDownTo(f, forest.family, c, k) && Shrunk(f, forest.family, OrphansLeft(orphans, c, k))
    }

    /** The loop over the children of a detached node. */
    method DeleteChildren(
        first: Link, ghost c: seq<TreeNode>, ghost a: string, ghost orphans: set<TreeNode>, ghost leaving: nat,
        ghost pending: multiset<R>)
      requires Midway(forest.family, c, 0, orphans, leaving, pending) && Bereft(forest.family, orphans, a, c)
      requires first == LinkAt(c, 0)
      modifies `heads, `succ, `cells, `nItems, `forest, `records, `held, `refs
      ensures Midway(old(forest).family, c, |c|, orphans, leaving, pending)
      ensures c == [] ==> forest == old(forest)
      decreases cells.Keys, 3
    {
      hide Sound, TreeHashTable.Accounted, TreeHashTable.Formed;
      var child := first;
      ghost var k, f := 0, forest.family;
      while child != null
        invariant Midway(f, c, k, orphans, leaving, pending) && child == LinkAt(c, k)
        invariant cells.Keys <= old(cells).Keys && (k == 0 ==> forest == old(forest))
        decreases |c| - k
      {
        child := DeleteNext(child, c, a, k, f, orphans, leaving, pending);
        k := k + 1;
      }
    }

    /** One round of that loop: the link to the next child is read first. */
    method DeleteNext(child: TreeNode, ghost c: seq<TreeNode>, ghost a: string, ghost k: nat, ghost f: Family<R>,
                      ghost orphans: set<TreeNode>, ghost leaving: nat, ghost pending: multiset<R>) returns (next: Link)
      requires Midway(f, c, k, orphans, leaving, pending) && k < |c| && child == c[k] && Bereft(f, orphans, a, c)
      modifies `heads, `succ, `cells, `nItems, `forest, `records, `held, `refs
      ensures Midway(f, c, k + 1, orphans, leaving, pending) && next == LinkAt(c, k + 1)
      ensures cells.Keys <= old(cells).Keys
      decreases cells.Keys, 2
    {
      NextChild(orphans, a, c, k, f, forest.family);
      next := cells[child].sibling;
      DeleteChild(child, OrphansLeft(orphans, c, k), leaving, pending);
      CutDownOneMore(f, old(forest).family, forest.family, c, k);
      ShrunkTwice(f, old(forest).family, forest.family, OrphansLeft(orphans, c, k), OrphansLeft(orphans, c, k + 1));
    }

    /** One child: it is found in its bucket, cut from its parent, and deleted with what is under it. */
    method DeleteChild(child: TreeNode, ghost orphans: set<TreeNode>, ghost leaving: nat, ghost pending: multiset<R>)
      requires Formed(orphans) && Accounted(leaving, pending) && child in cells && child in orphans
      requires Alone(orphans, child)
      modifies `heads, `succ, `cells, `nItems, `forest, `records, `held, `refs
      ensures Formed(orphans - {child}) && Accounted(leaving, pending)
      ensures CutDown(old(forest).family, forest.family, child.record)
      ensures Shrunk(old(forest).family, forest.family, orphans)
      decreases cells.Keys, 1
    {
      var prev, p := Locate(child, orphans);
      CutParent(child, orphans);
      assert cells.Keys == old(cells).Keys;
      DeleteNodeInternal(child.hash % |heads|, child, prev, p, orphans, leaving, pending);
    }

    /** DeleteKey: the path, everything under it, and their records go. */
    method DeleteKey(path: string)
      requires Valid()
      modifies `heads, `succ, `cells, `nItems, `forest, `records, `held, `refs
      ensures Valid()
      ensures Paths() == set p | p in old(Paths()) && !Under(path, p)
      ensures records == map p | p in old(records) && !Under(path, p) :: old(records)[p]
    {
      var found, node, prev, p := FindNodeInternal(path);
      if found {
        DeleteNodeInternal(hash(path) % |heads|, node, prev, p, {}, 0, multiset{});
        assert {} - {node} == {};
        CutDownMeans(hash, keyOf, old(forest), old(records), old(held), forest, records, held, path);
      } else {
        NothingUnder(hash, keyOf, forest, records, held, path);
      }
    }

    /** The node a link leads to: the bucket slot or the _pNext of the node before. */
    method ReadLink(i: nat, prev: Link, ghost p: nat) returns (node: Link)
      requires Formed({}) && i < |heads| && p <= |forest.shape.chains[i]|
      requires prev == if p > 0 then forest.shape.chains[i][p - 1] else null
      ensures Cursor(forest.shape.chains[i], p, node, prev)
      ensures node != null ==> node in cells
    {
      TableOf(hash, keyOf, forest, records, held, {});
      ChainOf(PathKeys(hash), Self, forest.shape, i);
      if p < |forest.shape.chains[i]| {
        NodeIsHome(PathKeys(hash), Self, forest.shape, i, p);
      }
      if prev == null {
        node := heads[i];
      } else {
        assert LinkOk(succ, forest.shape.chains[i], p - 1);
        node := succ[prev];
      }
    }

    /** Takes the record of a node that has children. */
    method TakeRecord(node: TreeNode, ghost i: nat, ghost p: nat, pred: R -> bool)
      requires Valid() && node in cells && cells[node].held.Held? && TidyTo(forest, i, p, pred)
      modifies `cells, `forest, `records, `held, `refs
      ensures Valid() && forest.shape == old(forest).shape && TidyTo(forest, i, p, pred)
      ensures node.record in old(records) && old(records)[node.record] == old(cells)[node].held.r
      ensures records == old(records) - {node.record}
    {
      EmptiedSound(hash, keyOf, forest, records, held, node);
      TidyEmptied(forest, node, i, p, pred);
      ghost var nodes := cells.Keys;
      Unreference(cells[node].held.r);
      records, held := records - {node.record}, held - {cells[node].held.r};
      forest := forest.(family := WithRecord(forest.family, node, Empty));
      cells := cells[node := cells[node].(held := Empty)];
      SameCount(nodes, old(cells));
    }

    lemma SameCount(nodes: set<TreeNode>, before: map<TreeNode, Cell<R>>)
      requires cells.Keys == nodes == before.Keys
      ensures |cells| == |before|
    {
      assert |cells| == |cells.Keys| && |before| == |before.Keys|;
    }

    /** DereferenceRecord. */
    method Unreference(r: R)
      requires refs == multiset(held) + handedOut && r in held
      modifies `refs
      ensures refs == multiset(held - {r}) + handedOut
    {
      refs := refs - multiset{r};
      assert multiset(held) == multiset(held - {r}) + multiset{r};
    }

    /** Deletes a leaf. */
    method DeleteLeaf(i: nat, node: TreeNode, prev: Link, ghost p: nat, pred: R -> bool)
      requires Valid() && i < |heads| && Cursor(forest.shape.chains[i], p, node, prev) && node in cells
      requires cells[node].first == null && TidyTo(forest, i, p, pred)
      modifies `heads, `succ, `cells, `nItems, `forest, `records, `held, `refs
      ensures Valid() && forest.shape == WithoutNode(old(forest).shape, i, p) && TidyTo(forest, i, p, pred)
      ensures records == old(records) - {node.record} && Paths() == old(Paths()) - {node.record}
    {
      KidsOf(hash, keyOf, forest, records, held, {}, node);
      assert Alone({}, node);
      DeleteNodeInternal(i, node, prev, p, {}, 0, multiset{});
      assert {} - {node} == {};
      LeafGone(hash, keyOf, old(forest), old(records), old(held), forest, records, held, node);
      TidyDeleted(old(forest), forest, i, p, pred);
    }

    /** A selected node of DeleteIf: a leaf is deleted, another loses its record. */
    method VisitSelected(
        i: nat, node: TreeNode, prev: Link, ghost p: nat, pred: R -> bool, ghost before: map<string, R>)
      requires Valid() && i < |heads| && Cursor(forest.shape.chains[i], p, node, prev) && node in cells
      requires if cells[node].held.Held? then pred(cells[node].held.r) else cells[node].first == null
      requires PrunedTo(before, records, pred) && TidyTo(forest, i, p, pred)
      modifies `heads, `succ, `cells, `nItems, `forest, `records, `held, `refs
      ensures Valid() && |heads| == old(|heads|) && PrunedTo(before, records, pred) && TidyTo(forest, i, p, pred)
      ensures p <= |forest.shape.chains[i]| && prev == if p > 0 then forest.shape.chains[i][p - 1] else null
      ensures records.Keys < old(records).Keys
        || (records.Keys == old(records).Keys && |forest.shape.chains[i]| < |old(forest).shape.chains[i]|)
      ensures Paths() <= old(Paths())
    {
      hide TidyTo, Unselected, TreeHashTable.Accounted;
      RecordOf(hash, keyOf, forest, records, held, {}, node);
      PrunedOneMore(before, records, node.record, pred);
      if cells[node].first == null {
        DeleteLeaf(i, node, prev, p, pred);
      } else {
        TakeRecord(node, i, p, pred);
      }
    }

    /** One node of DeleteIf: a selected record goes, with its node if that is a leaf; so does a leaf without
        a record.  The walk keeps its place, and looks again at a node whose record it has taken. */
    method Visit(i: nat, node: TreeNode, prev: Link, ghost p: nat, pred: R -> bool, ghost before: map<string, R>)
      returns (node': Link, prev': Link, ghost p': nat)
      requires Valid() && i < |heads| && Cursor(forest.shape.chains[i], p, node, prev) && node in cells
      requires PrunedTo(before, records, pred) && TidyTo(forest, i, p, pred)
      modifies `heads, `succ, `cells, `nItems, `forest, `records, `held, `refs
      ensures Valid() && |heads| == old(|heads|) && PrunedTo(before, records, pred)
      ensures Cursor(forest.shape.chains[i], p', node', prev') && TidyTo(forest, i, p', pred)
      ensures (node' != null ==> node' in cells)
      ensures records.Keys < old(records).Keys
        || (records.Keys == old(records).Keys && |forest.shape.chains[i]| - p' < |old(forest).shape.chains[i]| - p)
      ensures Paths() <= old(Paths())
    {
      var cell := cells[node];
      if if cell.held.Held? then pred(cell.held.r) else cell.first == null {
        VisitSelected(i, node, prev, p, pred, before);
        prev', p' := prev, p;
      } else {
        TidyNext(forest, i, p, pred);
        prev', p' := node, p + 1;
      }
      node' := ReadLink(i, prev', p');
    }

    /** One bucket of DeleteIf.  Records and nodes are looked at again, so what decreases is first the
        records, then the nodes still ahead. */
    method DeleteIfInBucket(i: nat, pred: R -> bool, ghost before: map<string, R>)
      requires Valid() && i < |heads| && PrunedTo(before, records, pred) && TidyTo(forest, i, 0, pred)
      modifies `heads, `succ, `cells, `nItems, `forest, `records, `held, `refs
      ensures Valid() && |heads| == old(|heads|) && PrunedTo(before, records, pred) && TidyTo(forest, i + 1, 0, pred)
      ensures Paths() <= old(Paths())
    {
      var prev: Link := null;
      ghost var p := 0;
      var node := ReadLink(i, prev, p);
      while node != null
        invariant Valid() && |heads| == old(|heads|) && Paths() <= old(Paths())
        invariant PrunedTo(before, records, pred) && TidyTo(forest, i, p, pred)
        invariant Cursor(forest.shape.chains[i], p, node, prev) && (node != null ==> node in cells)
        decreases records.Keys, |forest.shape.chains[i]| - p
      {
        node, prev, p := Visit(i, node, prev, p, pred, before);
      }
      TidyNext(forest, i, p, pred);
    }

    /** DeleteIf: exactly the selected records go.  Nodes without records may go too. */
    method DeleteIf(pred: R -> bool)
      requires Valid()
      modifies `heads, `succ, `cells, `nItems, `forest, `records, `held, `refs
      ensures Valid()
      ensures records == map p | p in old(records) && !pred(old(records)[p]) :: old(records)[p]
      ensures Paths() <= old(Paths())
    {
      TidyStart(forest, pred);
      PrunedStart(records, pred);
      for i := 0 to |heads|
        invariant Valid() && |heads| == old(|heads|) && Paths() <= old(Paths())
        invariant PrunedTo(old(records), records, pred) && TidyTo(forest, i, 0, pred)
      {
        DeleteIfInBucket(i, pred, old(records));
      }
      TidyDone(hash, keyOf, forest, records, held, pred);
      PrunedDone(old(records), records, pred);
    }

    /** One bucket of Clear: the slot is emptied and the nodes of its chain are released one by one. */
    method ClearBucket(i: nat)
      requires Sound(hash, keyOf, forest, records, held, {}) && succ == forest.shape.succ
      requires cells == forest.family.cells
      requires i < |heads| == |forest.shape.heads| && heads[i] == forest.shape.heads[i]
      requires refs == multiset(HeldBy(keyOf, held, LeftFrom(forest.shape, i, 0))) + handedOut
      modifies `heads, `refs
      ensures heads == old(heads)[i := null]
      ensures refs == multiset(HeldBy(keyOf, held, LeftFrom(forest.shape, i + 1, 0))) + handedOut
    {
      hide LeftFrom, HeldBy, Sound, ChainOk, HashTables.TableOk;
      FirstLink(hash, keyOf, forest, records, held, i);
      var node := heads[i];
      heads := heads[i := null];
      ghost var p := 0;
      while node != null
        invariant p <= |forest.shape.chains[i]| && node == LinkAt(forest.shape.chains[i], p)
        invariant refs == multiset(HeldBy(keyOf, held, LeftFrom(forest.shape, i, p))) + handedOut
        invariant heads == old(heads)[i := null]
        decreases |forest.shape.chains[i]| - p
      {
        ReleaseNext(hash, keyOf, forest, records, held, i, p, refs, handedOut);
        var next := succ[node];
        refs := refs - multiset(OneOrNone(cells[node].held));
        node := next;
        p := p + 1;
      }
      LastLink(hash, keyOf, forest, records, held, i, p);
    }

    /** The loop of Clear over the buckets. */
    method ClearBuckets()
      requires Valid()
      modifies `heads, `refs
      ensures |heads| == old(|heads|) && refs == handedOut && forall k | 0 <= k < |heads| :: heads[k] == null
    {
      hide LeftFrom, HeldBy, ClearedTo, HeldAre, HashTables.TableOk;
      HeldByEnds(hash, keyOf, forest, records, held);
      ClearedStart(heads);
      for i := 0 to |heads|
        invariant |heads| == |forest.shape.heads| && ClearedTo(heads, forest.shape.heads, i)
        invariant refs == multiset(HeldBy(keyOf, held, LeftFrom(forest.shape, i, 0))) + handedOut
      {
        ClearedNext(heads, forest.shape.heads, i);
        ClearBucket(i);
      }
      ClearedEnd(heads, forest.shape.heads);
      assert |heads| == |forest.shape.chains| && refs == multiset{} + handedOut;
    }

    /** Clear: every record is released and the table is empty. */
    method Clear()
      requires heads != [] ==> Valid()
      modifies `heads, `succ, `cells, `nItems, `forest, `records, `held, `refs
      ensures old(heads) != [] ==> Valid() && Paths() == {} && records == map[] && refs == handedOut
      ensures |heads| == old(|heads|)
    {
      if heads == [] {
        return;
      }
      assert 0 < |heads| < MAX_BUCKETS by {
        TableOf(hash, keyOf, forest, records, held, {});
        OpenTable(PathKeys(hash), Self, forest.shape);
      }
      ClearBuckets();
      SetEmpty();
    }
  }

  /** The slots before i are empty, the others as they were. */
  predicate ClearedTo(heads: seq<Link>, was: seq<Link>, i: nat) {
    i <= |heads| == |was| && forall k | 0 <= k < |heads| :: heads[k] == if k < i then null else was[k]
  }

  lemma ClearedStart(heads: seq<Link>)
    ensures ClearedTo(heads, heads, 0)
  {
  }

  lemma ClearedNext(heads: seq<Link>, was: seq<Link>, i: nat)
    requires ClearedTo(heads, was, i) && i < |heads|
    ensures heads[i] == was[i] && ClearedTo(heads[i := null], was, i + 1)
  {
  }

  lemma ClearedEnd(heads: seq<Link>, was: seq<Link>)
    requires ClearedTo(heads, was, |heads|)
    ensures |heads| == |was| && forall k | 0 <= k < |heads| :: heads[k] == null
  {
  }
}

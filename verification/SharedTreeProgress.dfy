/**
 Concurrent insertion into one TREE_HASH_TABLE: all inserts end.

 A caller goes through a bounded number of stages.  Within a stage only the bucket layer and the loop that joins
 a node to its parent can retry: the first is SharedProgress, and in the second a swap fails only if another
 caller's swap succeeded, which brings that one to its next stage.
 */
module SharedTreeProgress {
  import opened HashKeys
  import opened SharedCalls
  import opened SharedInsert
  import opened SharedProgress
  import opened SharedTree
  import opened SharedTreeRuns
  import opened SharedTreeSteps
  import TreeForests
  import opened TreePaths
  import opened Words

  // ----- The measure -----

  /** An upper bound for the stages to come. */
  function Stages<R>(ca: Caller<R>): nat {
    var n := |ca.key|;
    match ca.pc
    case Begun => 6 * n + 5
    case Cutting(end) => 4 * n + 4 + 2 * end
    case Looking(c, _) => 4 * n + 5 + 2 * c
    case Adding(end, _) => if end <= n then 3 * (n - end) + 5 else 0
    case Inserting(end, _, _) => if end <= n then 3 * (n - end) + 4 else 0
    case Joining(end, _, _, _) => if end <= n then 3 * (n - end) + 3 else 0
    case Filling(_) => 2
    case Filled(_) => 1
    case Ended(_) => 0
  }

  /** An upper bound for the steps with which the caller joins its node, if no other does. */
  function JoinSteps<R>(first: map<Id, Ptr>, ca: Caller<R>): nat {
    if !ca.pc.Joining? then 0
    else match ca.pc.phase
      case Reading => 3
      case Storing(cur) => if cur == Read(first, ca.pc.above) then 2 else 5
      case Comparing(cur) => if cur == Read(first, ca.pc.above) then 1 else 4
  }

  ghost function Total<T>(callers: map<nat, T>, f: T -> nat): nat
    decreases |callers|
  {
    if callers == map[] then 0
    else
      var t :| t in callers;
      f(callers[t]) + Total(callers - {t}, f)
  }

  lemma {:induction false} TotalOf<T>(callers: map<nat, T>, f: T -> nat, t: nat)
    requires t in callers
    ensures Total(callers, f) == f(callers[t]) + Total(callers - {t}, f)
    decreases |callers|
  {
    var u :| u in callers && Total(callers, f) == f(callers[u]) + Total(callers - {u}, f);
    if u != t {
      TotalOf(callers - {u}, f, t);
      TotalOf(callers - {t}, f, u);
      assert callers - {u} - {t} == callers - {t} - {u};
    }
  }

  lemma TotalUpdated<T>(callers: map<nat, T>, f: T -> nat, t: nat, ca: T)
    requires t in callers
    ensures Total(callers[t := ca], f) == Total(callers, f) - f(callers[t]) + f(ca)
  {
    TotalOf(callers, f, t);
    TotalOf(callers[t := ca], f, t);
    assert callers[t := ca] - {t} == callers - {t};
  }

  ghost function StagesLeft<R>(s: TreeState<R>): nat { Total(s.callers, ca => Stages(ca)) }

  ghost function JoinStepsLeft<R>(s: TreeState<R>): nat { Total(s.callers, ca => JoinSteps(s.first, ca)) }

  /** The measure of one state is smaller than that of another. */
  ghost predicate TreeCloser<R>(s': TreeState<R>, cs': seq<seq<Id>>, s: TreeState<R>, cs: seq<seq<Id>>)
    requires cs != [] && cs' != []
  {
    || StagesLeft(s') < StagesLeft(s)
    || (StagesLeft(s') == StagesLeft(s) && Closer(s'.b, cs', s.b, cs))
    || (StagesLeft(s') == StagesLeft(s) && s'.b == s.b && cs' == cs && JoinStepsLeft(s') < JoinStepsLeft(s))
  }

  // ----- Every step brings the end closer -----

  lemma NextStage<R>(s: TreeState<R>, s': TreeState<R>, t: nat)
    requires t in s.callers && t in s'.callers && s'.callers == s.callers[t := s'.callers[t]]
    requires Stages(s'.callers[t]) < Stages(s.callers[t])
    ensures StagesLeft(s') < StagesLeft(s)
  {
    TotalUpdated(s.callers, ca => Stages(ca), t, s'.callers[t]);
  }

  lemma NextPhase<R>(s: TreeState<R>, s': TreeState<R>, t: nat)
    requires t in s.callers && t in s'.callers && s'.callers == s.callers[t := s'.callers[t]] && s'.first == s.first
    requires Stages(s'.callers[t]) == Stages(s.callers[t])
    requires JoinSteps(s.first, s'.callers[t]) < JoinSteps(s.first, s.callers[t])
    ensures StagesLeft(s') == StagesLeft(s) && JoinStepsLeft(s') < JoinStepsLeft(s)
  {
    TotalUpdated(s.callers, ca => Stages(ca), t, s'.callers[t]);
    TotalUpdated(s.callers, ca => JoinSteps(s.first, ca), t, s'.callers[t]);
  }

  /** The caller goes on to the next stage. */
  ghost predicate StageTurn<R>(s: TreeState<R>, t: nat)
    requires t in s.callers
  {
    var pc := s.callers[t].pc;
    && !pc.Ended? && !BucketTurn(s, t)
    && (pc.Joining? ==> pc.phase.Comparing? && Read(s.first, pc.above) == pc.phase.cur)
  }

  /** Where a search goes next. */
  function SearchPc<R>(s: TreeState<R>, t: nat, call: nat): CallerPc
    requires t in s.callers && Guarded(s, t)
  {
    var key := s.callers[t].key;
    match s.callers[t].pc
    case Begun => Cutting(|key|)
    case Cutting(end) =>
      if LastCutBefore(key, end) == 0 then Adding(NextCut(key, 1), Null) else Looking(LastCutBefore(key, end), call)
    case Looking(c, k) =>
      if s.b.threads[k].pc.Done? then Looked(key, c, s.b.threads[k].pc.result) else s.callers[t].pc
    case pc => pc
  }

  lemma SearchTurn<R>(
      hash: string -> dword, s: TreeState<R>, t: nat, call: nat, id: Id, memory: bool)
    requires t in s.callers && Guarded(s, t) && StageTurn(s, t) && s.b.nBuckets > 0
    requires s.callers[t].pc.Begun? || s.callers[t].pc.Cutting? || s.callers[t].pc.Looking?
    ensures Turn(hash, s, t, call, id, memory).callers
      == s.callers[t := s.callers[t].(pc := SearchPc(s, t, call))]
  {
    hide Advance, Called, Allocates, InsertTurn, JoinTurn, FilledWith, Returned, IsCut, Looked, NextCut;
  }

  lemma SearchStagesFall<R>(
      hash: string -> dword, s: TreeState<R>, t: nat, call: nat, id: Id, memory: bool)
    requires t in s.callers && Guarded(s, t) && StageTurn(s, t) && s.b.nBuckets > 0
    requires s.callers[t].pc.Begun? || s.callers[t].pc.Cutting? || s.callers[t].pc.Looking?
    ensures var s' := Turn(hash, s, t, call, id, memory);
      t in s'.callers && s'.callers == s.callers[t := s'.callers[t]] && Stages(s'.callers[t]) < Stages(s.callers[t])
  {
    hide Turn, IsCut;
    SearchTurn(hash, s, t, call, id, memory);
  }

  lemma AddStagesFall<R>(
      hash: string -> dword, s: TreeState<R>, t: nat, call: nat, id: Id, memory: bool)
    requires t in s.callers && Guarded(s, t) && StageTurn(s, t) && s.b.nBuckets > 0
    requires s.callers[t].pc.Adding? || s.callers[t].pc.Filling? || s.callers[t].pc.Filled?
    ensures var s' := Turn(hash, s, t, call, id, memory);
      t in s'.callers && s'.callers == s.callers[t := s'.callers[t]] && Stages(s'.callers[t]) < Stages(s.callers[t])
  {
    hide Advance, Called, InsertTurn, JoinTurn, Returned, LastCutBefore, NextCut, IsCut;
  }

  lemma InsertStagesFall<R>(
      hash: string -> dword, s: TreeState<R>, t: nat, call: nat, id: Id, memory: bool)
    requires t in s.callers && Guarded(s, t) && StageTurn(s, t) && s.b.nBuckets > 0 && s.callers[t].pc.Inserting?
    requires var result := s.b.threads[s.callers[t].pc.call].pc.result; result.Inserted? || result.AlreadyExists?
    ensures var s' := Turn(hash, s, t, call, id, memory);
      t in s'.callers && s'.callers == s.callers[t := s'.callers[t]] && Stages(s'.callers[t]) < Stages(s.callers[t])
  {
    hide Advance, Called, Allocates, InsertTurn, JoinTurn, FilledWith, LastCutBefore, IsCut;
  }

  lemma JoinStagesFall<R>(
      hash: string -> dword, s: TreeState<R>, t: nat, call: nat, id: Id, memory: bool)
    requires t in s.callers && Guarded(s, t) && StageTurn(s, t) && s.b.nBuckets > 0 && s.callers[t].pc.Joining?
    ensures var s' := Turn(hash, s, t, call, id, memory);
      t in s'.callers && s'.callers == s.callers[t := s'.callers[t]] && Stages(s'.callers[t]) < Stages(s.callers[t])
  {
    hide Advance, Called, Allocates, InsertTurn, FilledWith, Returned, LastCutBefore, IsCut;
  }

  lemma StagesFall<R(!new)>(
      hash: string -> dword, keyOf: R -> string, base: TreeState<R>, s: TreeState<R>, cs: seq<seq<Id>>,
      kids: map<Id, seq<Id>>, t: nat, call: nat, id: Id, memory: bool)
    requires TreeInv(hash, keyOf, base, s, cs, kids) && t in s.callers && StageTurn(s, t)
    ensures var s' := Turn(hash, s, t, call, id, memory);
      t in s'.callers && s'.callers == s.callers[t := s'.callers[t]] && Stages(s'.callers[t]) < Stages(s.callers[t])
  {
    hide IsTreeInv, Turn, Stages;
    Guards(hash, keyOf, base, s, cs, kids, t);
    match s.callers[t].pc
    case Inserting(_, _, _) =>
      ResultFits(hash, keyOf, base, s, cs, kids, t);
      InsertStagesFall(hash, s, t, call, id, memory);
    case Joining(_, _, _, _) => JoinStagesFall(hash, s, t, call, id, memory);
    case Adding(_, _) => AddStagesFall(hash, s, t, call, id, memory);
    case Filling(_) => AddStagesFall(hash, s, t, call, id, memory);
    case Filled(_) => AddStagesFall(hash, s, t, call, id, memory);
    case _ => SearchStagesFall(hash, s, t, call, id, memory);
  }

  /** An insertion ends as one. */
  lemma ResultFits<R(!new)>(
      hash: string -> dword, keyOf: R -> string, base: TreeState<R>, s: TreeState<R>, cs: seq<seq<Id>>,
      kids: map<Id, seq<Id>>, t: nat)
    requires TreeInv(hash, keyOf, base, s, cs, kids) && t in s.callers && s.callers[t].pc.Inserting?
    requires s.callers[t].pc.call in s.b.threads && s.b.threads[s.callers[t].pc.call].pc.Done?
    ensures var result := s.b.threads[s.callers[t].pc.call].pc.result; result.Inserted? || result.AlreadyExists?
  {
    hide TreeInv;
    CallerIsOk(hash, keyOf, base, s, cs, kids, t);
    assert Reports(TreeForests.PathKeys(hash), s.b, s.b.threads[s.callers[t].pc.call]);
  }

  lemma PhaseFalls<R>(
      hash: string -> dword, s: TreeState<R>, t: nat, call: nat, id: Id, memory: bool)
    requires t in s.callers && Guarded(s, t) && s.b.nBuckets > 0 && s.callers[t].pc.Joining? && !StageTurn(s, t)
    ensures var s' := Turn(hash, s, t, call, id, memory);
      && t in s'.callers && s'.callers == s.callers[t := s'.callers[t]] && s'.first == s.first && s'.b == s.b
      && Stages(s'.callers[t]) == Stages(s.callers[t])
      && JoinSteps(s.first, s'.callers[t]) < JoinSteps(s.first, s.callers[t])
  {
    hide Swapped;
    hide Turn;
    TurnJoins(hash, s, t, call, id, memory);
  }

  lemma CallersStand<R(!new)>(
      hash: string -> dword, keyOf: R -> string, base: TreeState<R>, s: TreeState<R>, cs: seq<seq<Id>>,
      kids: map<Id, seq<Id>>, t: nat, call: nat, id: Id, memory: bool)
    requires TreeInv(hash, keyOf, base, s, cs, kids) && t in s.callers && BucketTurn(s, t)
    ensures Turn(hash, s, t, call, id, memory).callers == s.callers
  {
    hide TreeInv, Advance;
    Guards(hash, keyOf, base, s, cs, kids, t);
  }

  /** Every step of a caller that has not ended brings all of them closer to the end. */
  lemma TreeStepIsCloser<R(!new)>(
      hash: string -> dword, keyOf: R -> string, base: TreeState<R>, s: TreeState<R>, cs: seq<seq<Id>>,
      kids: map<Id, seq<Id>>, t: nat, call: nat, id: Id, memory: bool)
      returns (cs': seq<seq<Id>>, kids': map<Id, seq<Id>>)
    requires TreeInv(hash, keyOf, base, s, cs, kids) && t in s.callers && !s.callers[t].pc.Ended?
    requires call !in s.b.threads && id !in s.b.nodes
    ensures TreeInv(hash, keyOf, base, Turn(hash, s, t, call, id, memory), cs', kids')
    ensures TreeCloser(Turn(hash, s, t, call, id, memory), cs', s, cs)
  {
    hide Turn, IsTreeInv, Closer, Stages, JoinSteps;
    var s' := Turn(hash, s, t, call, id, memory);
    cs', kids' := TurnInv(hash, keyOf, base, s, cs, kids, t, call, id, memory);
    if BucketTurn(s, t) {
      CallersStand(hash, keyOf, base, s, cs, kids, t, call, id, memory);
    } else if StageTurn(s, t) {
      StagesFall(hash, keyOf, base, s, cs, kids, t, call, id, memory);
      NextStage(s, s', t);
    } else {
      Guards(hash, keyOf, base, s, cs, kids, t);
      PhaseFalls(hash, s, t, call, id, memory);
      NextPhase(s, s', t);
    }
  }

  /** Who makes the next step, what a new call and a new node would get, and whether there is memory. */
  datatype Choice = Choice(t: nat, call: nat, id: Id, memory: bool)

  ghost predicate TreeSchedules<R(!new)>(pick: TreeState<R> -> Choice) {
    forall s: TreeState<R> :: !AtRest(s) ==>
      && pick(s).t in s.callers && !s.callers[pick(s).t].pc.Ended?
      && pick(s).call !in s.b.threads && pick(s).id !in s.b.nodes
  }

  ghost predicate Picks<R>(hash: string -> dword, s: TreeState<R>, s': TreeState<R>, c: Choice) {
    && c.t in s.callers && s.b.nBuckets > 0 && c.call !in s.b.threads && c.id !in s.b.nodes
    && s' == Turn(hash, s, c.t, c.call, c.id, c.memory)
  }

  /** However the callers are scheduled, fairly or not, all inserts end. */
  lemma {:induction false} AllInsertsEnd<R(!new)>(
      hash: string -> dword, keyOf: R -> string, base: TreeState<R>, s: TreeState<R>, cs: seq<seq<Id>>,
      kids: map<Id, seq<Id>>, pick: TreeState<R> -> Choice) returns (run: seq<TreeState<R>>)
    requires TreeInv(hash, keyOf, base, s, cs, kids) && TreeSchedules(pick)
    ensures run != [] && run[0] == s && AtRest(run[|run| - 1])
    ensures forall k | 0 <= k < |run| - 1 :: Picks(hash, run[k], run[k + 1], pick(run[k]))
    decreases StagesLeft(s), |Unpublished(s.b.threads)|, |Stale(s.b.mem, s.b.threads)|, Sum(s.b.threads, cs),
      JoinStepsLeft(s)
  {
    hide Turn, IsTreeInv;
    if AtRest(s) {
      run := [s];
    } else {
      var c := pick(s);
      var s' := Turn(hash, s, c.t, c.call, c.id, c.memory);
      var cs', kids' := TreeStepIsCloser(hash, keyOf, base, s, cs, kids, c.t, c.call, c.id, c.memory);
      var rest := AllInsertsEnd(hash, keyOf, base, s', cs', kids', pick);
      run := [s] + rest;
      PicksFirst(hash, s, rest, pick);
    }
  }

  lemma PicksFirst<R(!new)>(
      hash: string -> dword, s: TreeState<R>, rest: seq<TreeState<R>>, pick: TreeState<R> -> Choice)
    requires rest != [] && Picks(hash, s, rest[0], pick(s))
    requires forall k | 0 <= k < |rest| - 1 :: Picks(hash, rest[k], rest[k + 1], pick(rest[k]))
    ensures forall k | 0 <= k < |rest| ::
      Picks(hash, ([s] + rest)[k], ([s] + rest)[k + 1], pick(([s] + rest)[k]))
  {
    hide Picks;
    var run := [s] + rest;
    forall k | 0 <= k < |rest| ensures Picks(hash, run[k], run[k + 1], pick(run[k])) {
      if k > 0 { assert Picks(hash, rest[k - 1], rest[k - 1 + 1], pick(rest[k - 1])); }
    }
  }
}

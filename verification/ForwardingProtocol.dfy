/**
 Who keeps a forwarded request going, and who keeps its handler alive.

 A request is carried by continuations: a WinHTTP operation whose callback will come, or work IIS will
 complete (an entity read, a flush, a posted completion, a child request).  A continuation comes back as an
 activation, a WinHTTP callback or an IIS entry, possibly before the activation that started it has
 returned, on any thread.  Nothing in this state forbids several of them at a time; that there is always
 exactly one, and that the handler is alive whenever it is used, is proved for every run.
 */
module ForwardingProtocol {

  datatype Op = SendRequest | WriteData | ReceiveResponse | QueryDataAvailable | ReadData

  datatype Work = EntityRead | Flush | Posted | ChildRequest | FirstEntry

  datatype Continuation = WinHttp(op: Op) | Iis(work: Work)

  /**
   The handler as its threads see it.
     winHttp, iis         continuations under way
     callbacks, entries   activations in the part of their code that may start continuations
     mustPost             callbacks that started nothing and still hold their reference
     posting              the same, after DereferenceForwardingHandler: only PostCompletion is left
     finishing, finished  entries about to return, and that have returned, without RQ_NOTIFICATION_PENDING
     leaving              activations that started a continuation and still hold their reference
     refs                 m_cRefs
     moduleHolds          CProxyModule has not yet given up its reference
   */
  datatype State = State(
    winHttp: seq<Op>, iis: seq<Work>, callbacks: seq<Op>, entries: seq<Work>,
    mustPost: nat, posting: nat, finishing: nat, finished: nat, leaving: nat,
    refs: int, moduleHolds: bool)

  /** OnExecuteRequestHandler has taken its reference. */
  function Initial(): State {
    State([], [], [], [FirstEntry], 0, 0, 0, 0, 0, 2, true)
  }

  datatype Action =
    | CallbackBegins(i: nat)
    | CallbackEnds(i: nat, started: seq<Continuation>)
    | DropsReference
    | PostsCompletion
    | EntryBegins(i: nat)
    | EntryEnds(i: nat, started: seq<Continuation>)
    | Leaves
    | ReturnsFinished
    | Notified
    | ModuleReleases

  function Without<T>(s: seq<T>, i: nat): seq<T>
    requires i < |s|
  {
    s[..i] + s[i + 1..]
  }

  function OpsIn(cs: seq<Continuation>): seq<Op> {
    if cs == [] then [] else (if cs[0].WinHttp? then [cs[0].op] else []) + OpsIn(cs[1..])
  }

  function WorkIn(cs: seq<Continuation>): seq<Work> {
    if cs == [] then [] else (if cs[0].Iis? then [cs[0].work] else []) + WorkIn(cs[1..])
  }

  /** What the code lets happen.  The handler's methods establish the conditions on what an activation has
      started: a callback reports another completion when it started one, and posts one otherwise; an entry
      returns RQ_NOTIFICATION_PENDING when it started one, and finishes the request otherwise. */
  ghost predicate Enabled(s: State, a: Action) {
    match a
    case CallbackBegins(i) => i < |s.winHttp|
    case CallbackEnds(i, started) => i < |s.callbacks| && |started| <= 1
    case DropsReference => s.mustPost > 0
    case PostsCompletion => s.posting > 0
    case EntryBegins(i) => i < |s.iis|
    case EntryEnds(i, started) => i < |s.entries| && |started| <= 1
    case Leaves => s.leaving > 0
    case ReturnsFinished => s.finishing > 0
    case Notified => SendRequest in s.winHttp
    case ModuleReleases => s.moduleHolds && s.finished > 0
  }

  /** Starting a WinHTTP operation takes a reference for its callback. */
  function Started(s: State, cs: seq<Continuation>): State {
    s.(winHttp := s.winHttp + OpsIn(cs), iis := s.iis + WorkIn(cs), refs := s.refs + |OpsIn(cs)|)
  }

  function Apply(s: State, a: Action): State
    requires Enabled(s, a)
  {
    match a
    case CallbackBegins(i) => s.(winHttp := Without(s.winHttp, i), callbacks := s.callbacks + [s.winHttp[i]])
    case CallbackEnds(i, started) =>
      var t := Started(s.(callbacks := Without(s.callbacks, i)), started);
      if started == [] then t.(mustPost := s.mustPost + 1) else t.(leaving := s.leaving + 1)
    case DropsReference => s.(mustPost := s.mustPost - 1, posting := s.posting + 1, refs := s.refs - 1)
    case PostsCompletion => s.(posting := s.posting - 1, iis := s.iis + [Posted])
    case EntryBegins(i) => s.(iis := Without(s.iis, i), entries := s.entries + [s.iis[i]], refs := s.refs + 1)
    case EntryEnds(i, started) =>
      var t := Started(s.(entries := Without(s.entries, i)), started);
      if started == [] then t.(finishing := s.finishing + 1) else t.(leaving := s.leaving + 1)
    case Leaves => s.(leaving := s.leaving - 1, refs := s.refs - 1)
    case ReturnsFinished => s.(finishing := s.finishing - 1, finished := s.finished + 1, refs := s.refs - 1)
    case Notified => s
    case ModuleReleases => s.(moduleHolds := false, refs := s.refs - 1)
  }

  // ----- Invariants -----

  /** Everything that can still move the request on. */
  function Carriers(s: State): nat {
    |s.winHttp| + |s.iis| + |s.callbacks| + |s.entries| + s.mustPost + s.posting + s.finishing
  }

  /** One reference for the module, one for every WinHTTP operation whose callback has not ended, and one
      for every IIS entry in progress. */
  function Holders(s: State): nat {
    (if s.moduleHolds then 1 else 0) + |s.winHttp| + |s.callbacks| + |s.entries| + s.mustPost + s.finishing + s.leaving
  }

  ghost predicate Inv(s: State) {
    && Carriers(s) + s.finished == 1
    && s.refs == Holders(s)
    && (s.moduleHolds || s.finished == 1)
  }

  lemma StartedCounts(cs: seq<Continuation>)
    requires |cs| <= 1
    ensures |OpsIn(cs)| + |WorkIn(cs)| == |cs|
  {
  }

  lemma StartedInv(s: State, started: seq<Continuation>)
    requires |started| <= 1
    ensures Carriers(Started(s, started)) == Carriers(s) + |started|
    ensures Holders(Started(s, started)) - Started(s, started).refs == Holders(s) - s.refs
  {
    StartedCounts(started);
  }

  lemma AsideInv(s: State, a: Action)
    requires Inv(s) && Enabled(s, a) && !a.CallbackEnds? && !a.EntryEnds?
    ensures Inv(Apply(s, a))
  {
  }

  lemma EndInv(s: State, started: seq<Continuation>, callback: bool, i: nat)
    requires Inv(s) && |started| <= 1 && i < if callback then |s.callbacks| else |s.entries|
    ensures Inv(Apply(s, if callback then CallbackEnds(i, started) else EntryEnds(i, started)))
  {
    hide OpsIn, WorkIn;
    StartedInv(if callback then s.(callbacks := Without(s.callbacks, i))
      else s.(entries := Without(s.entries, i)), started);
  }

  lemma StepInv(s: State, a: Action)
    requires Inv(s) && Enabled(s, a)
    ensures Inv(Apply(s, a))
  {
    match a {
      case CallbackEnds(i, started) => EndInv(s, started, true, i);
      case EntryEnds(i, started) => EndInv(s, started, false, i);
      case _ => AsideInv(s, a);
    }
  }

  /** While an activation runs it alone carries the request. */
  lemma RunningAlone(s: State)
    requires Inv(s) && |s.callbacks| + |s.entries| >= 1
    ensures s.winHttp == [] && s.iis == [] && s.mustPost == s.posting == s.finishing == s.finished == 0
    ensures |s.callbacks| + |s.entries| == 1
  {
  }

  /** Nothing but c carries the request. */
  ghost predicate CarriedBy(s: State, c: Continuation) {
    && (forall op | op in s.winHttp || op in s.callbacks :: c == WinHttp(op))
    && (forall w | w in s.iis || w in s.entries :: c == Iis(w))
    && (s.mustPost + s.posting > 0 ==> c == Iis(Posted))
  }

  /** What carries the request on after an activation has ended. */
  function Next(started: seq<Continuation>): Continuation {
    if started == [] then Iis(Posted) else started[0]
  }

  predicate EndsAlone(s: State, a: Action) {
    (a.CallbackEnds? && |s.callbacks| == 1) || (a.EntryEnds? && |s.entries| == 1)
  }

  /** What the last activation leaves behind when it ends. */
  lemma EndShape(s: State, a: Action)
    requires Inv(s) && Enabled(s, a) && EndsAlone(s, a)
    ensures var t := Apply(s, a);
      && t.winHttp == OpsIn(a.started) && t.iis == WorkIn(a.started) && t.callbacks == [] && t.entries == []
      && t.refs == s.refs + |OpsIn(a.started)| && t.posting == t.finished == 0
      && t.mustPost == (if a.CallbackEnds? && a.started == [] then 1 else 0)
      && t.finishing == (if a.EntryEnds? && a.started == [] then 1 else 0)
  {
    hide OpsIn, WorkIn;
    RunningAlone(s);
  }

  lemma EndCarries(s: State, a: Action)
    requires Inv(s) && Enabled(s, a) && EndsAlone(s, a)
    ensures Inv(Apply(s, a)) && CarriedBy(Apply(s, a), Next(a.started))
    ensures Apply(s, a).refs == s.refs + |OpsIn(a.started)|
    ensures a.CallbackEnds? || a.started != [] ==> Apply(s, a).finishing + Apply(s, a).finished == 0
    ensures a.EntryEnds? && a.started == [] ==> Apply(s, a).finishing + Apply(s, a).finished == 1
  {
    hide Apply, Inv;
    StepInv(s, a);
    EndShape(s, a);
    if a.started != [] { assert a.started == [a.started[0]]; }
  }

  /** The other steps do not change what carries the request. */
  lemma AsideCarries(s: State, a: Action, c: Continuation)
    requires Inv(s) && CarriedBy(s, c) && Enabled(s, a) && !a.CallbackEnds? && !a.EntryEnds?
    ensures Inv(Apply(s, a)) && CarriedBy(Apply(s, a), c)
  {
    StepInv(s, a);
    if a.DropsReference? || a.PostsCompletion? { assert c == Iis(Posted); }
  }

  ghost predicate IsRun(run: seq<State>, actions: seq<Action>) {
    && |run| == |actions| + 1 && run[0] == Initial()
    && forall i | 0 <= i < |actions| :: Enabled(run[i], actions[i]) && run[i + 1] == Apply(run[i], actions[i])
  }

  lemma {:induction false} RunInv(run: seq<State>, actions: seq<Action>, i: nat)
    requires IsRun(run, actions) && i < |run|
    ensures Inv(run[i])
  {
    if i > 0 {
      RunInv(run, actions, i - 1);
      StepInv(run[i - 1], actions[i - 1]);
    }
  }

  /** In every state of every run exactly one thing carries the request on, until an entry has finished it,
      and nothing after that: no activation returns without having handed the request on once or having
      finished it, and the request is finished at most once. */
  lemma OneCarrierUntilFinished(run: seq<State>, actions: seq<Action>, i: nat)
    requires IsRun(run, actions) && i < |run|
    ensures Carriers(run[i]) == if run[i].finished == 0 then 1 else 0
    ensures run[i].finished <= 1
  {
    RunInv(run, actions, i);
  }

  /** m_cRefs is one for the module, plus one for each WinHTTP operation whose callback has not ended, plus
      one for each IIS entry in progress. */
  lemma RefsAreHolders(run: seq<State>, actions: seq<Action>, i: nat)
    requires IsRun(run, actions) && i < |run|
    ensures run[i].refs == Holders(run[i])
  {
    RunInv(run, actions, i);
  }

  /** The handler is alive before every step, and every step may touch it: in particular when a callback that
      has already dropped its own reference posts the completion. */
  lemma AliveWhenTouched(run: seq<State>, actions: seq<Action>, i: nat)
    requires IsRun(run, actions) && i < |actions|
    ensures run[i].refs >= 1
    ensures actions[i].PostsCompletion? ==> run[i].moduleHolds
  {
    RunInv(run, actions, i);
  }

  /** When the last reference goes nothing is left that could touch the handler, and nothing ever happens
      to it again. */
  lemma DestroyedMeansOver(run: seq<State>, actions: seq<Action>, i: nat)
    requires IsRun(run, actions) && i < |run| && run[i].refs == 0
    ensures run[i].finished == 1 && Carriers(run[i]) == 0 && run[i].leaving == 0 && i == |actions|
  {
    RunInv(run, actions, i);
    if i < |actions| { AliveWhenTouched(run, actions, i); }
  }

  /** Once finished, only activations on their way out and the module are left, and their references are all
      that is left: when they are gone the handler is destroyed. */
  lemma FinishedDrains(run: seq<State>, actions: seq<Action>, i: nat)
    requires IsRun(run, actions) && i < |run| && run[i].finished == 1
    ensures run[i].refs == run[i].leaving + if run[i].moduleHolds then 1 else 0
  {
    RunInv(run, actions, i);
  }
}

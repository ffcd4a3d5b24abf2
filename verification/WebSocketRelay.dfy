/**
 The websocket relay as a step system.

 Two relay loops, one per direction, share a lock, the count of outstanding I/O, the cleanup flag and
 the flag that asks for completion to be indicated.  The environment completes every pending I/O once,
 in any order.  A completion routine takes the lock, tests the cleanup flag and starts the next I/O;
 outside the lock it may call Cleanup; then it decrements the count and, if it took it to zero, tests
 the indicate flag.  Each of these is a step, and the steps of different routines interleave.
 */
module WebSocketRelay {
  import opened WebSocketTypes

  const RECEIVE_BUFFER_SIZE: nat := 4096

  /** Direction of a relay loop. */
  datatype Dir = ToServer | ToClient

  /** An I/O in flight.  WinHTTP ends: SendToServer, Shutdown, Receive(ToClient).  IIS ends: the rest. */
  datatype Io =
    | Receive(dir: Dir)
    | SendToServer(cb: nat, bufferType: BufferType)
    | Shutdown
    | SendToClient(cbClient: nat, utf8: bool, final: bool)
    | CloseClient

  function DirOf(io: Io): Dir {
    match io
    case Receive(d) => d
    case SendToServer(_, _) => ToServer
    case Shutdown => ToServer
    case SendToClient(_, _, _) => ToClient
    case CloseClient => ToClient
  }

  /** What the environment reports when it completes an I/O. */
  datatype Outcome =
    | Failed
    | SendDone
    | FromIis(cb: nat, flags: Flags)
    | FromWinHttp(cb: nat, bufferType: BufferType)

  /** Where a completion routine is. */
  datatype Pc =
    | AtLock                // about to enter its critical section
    | Failing               // about to call Cleanup
    | Leaving               // about to decrement the outstanding count
    | Testing(last: bool)   // decremented; `last` if the count became zero

  datatype Routine = Routine(io: Io, outcome: Outcome, pc: Pc)

  /** One direction: its receive buffer, and the fragments received and sent so far. */
  datatype Relay = Relay(buffer: seq<nat>, received: seq<Fragment>, sent: seq<Fragment>)

  datatype State = State(
    outstanding: int,
    cleanup: bool,
    indicate: bool,
    indicated: nat,
    pending: multiset<Io>,
    routines: map<nat, Routine>,
    toServer: Relay,
    toClient: Relay)
  {
    function Side(d: Dir): Relay { if d.ToServer? then toServer else toClient }

    function SetSide(d: Dir, v: Relay): State {
      if d.ToServer? then this.(toServer := v) else this.(toClient := v)
    }
  }

  datatype Event =
    | Fill(dir: Dir, bytes: seq<nat>)          // the environment writes the receive buffer
    | Deliver(io: Io, outcome: Outcome, r: nat)// the environment completes an I/O; routine r begins
    | Enter(r: nat, started: bool, scratch: seq<nat>)
    | Cleanup(r: nat)
    | Decrement(r: nat)
    | Test(r: nat)

  /** Which outcomes an I/O can complete with. */
  predicate Fits(io: Io, o: Outcome) {
    match io
    case Receive(ToServer) => o.Failed? || (o.FromIis? && o.cb <= RECEIVE_BUFFER_SIZE)
    case Receive(ToClient) => o.Failed? || (o.FromWinHttp? && o.cb <= RECEIVE_BUFFER_SIZE)
    case _ => o.Failed? || o.SendDone?
  }

  /** The routine a completion is routed to: an asynchronous WinHTTP error goes straight to Cleanup, a
      finished shutdown straight to the decrement, everything else to a critical section. */
  function FirstPc(io: Io, o: Outcome): Pc {
    if o.Failed? && (io.SendToServer? || io.Shutdown? || io == Receive(ToClient)) then Failing
    else if io.Shutdown? then Leaving
    else AtLock
  }

  function Prefix(buffer: seq<nat>, cb: nat): seq<nat> {
    if cb <= |buffer| then buffer[..cb] else buffer
  }

  function ReceivedFragment(buffer: seq<nat>, o: Outcome): Fragment
    requires o.FromIis? || o.FromWinHttp?
  {
    if o.FromIis? then FromFlags(Prefix(buffer, o.cb), o.flags) else FromType(Prefix(buffer, o.cb), o.bufferType)
  }

  /** The fragment the peer gets: the buffer is read when the send completes. */
  function SentFragment(buffer: seq<nat>, io: Io): Fragment
    requires !io.Receive?
  {
    match io
    case SendToServer(cb, t) => FromType(Prefix(buffer, cb), t)
    case SendToClient(cb, utf8, final) => Data(Prefix(buffer, cb), utf8, final)
    case _ => Close
  }

  /** The I/O the critical section of a routine tries to start, if it gets that far. */
  function NextIo(io: Io, o: Outcome): Io
    requires Fits(io, o) && !o.Failed? && !io.Shutdown?
  {
    match io
    case Receive(ToServer) =>
      var t := GetBufferTypeFromFlags(o.flags);
      if t.CloseBuffer? then Shutdown else SendToServer(o.cb, t)
    case Receive(ToClient) =>
      if o.bufferType.CloseBuffer? then CloseClient
      else var f := GetFlagsFromBufferType(o.bufferType); SendToClient(o.cb, f.utf8, f.final)
    case SendToServer(_, _) => Receive(ToServer)
    case SendToClient(_, _, _) => Receive(ToClient)
    case CloseClient => Receive(ToClient)
  }

  function Move(s: State, r: nat, pc: Pc): State
    requires r in s.routines
  {
    s.(routines := s.routines[r := s.routines[r].(pc := pc)])
  }

  /** A completion is delivered: what was received or sent is recorded and the routine begins. */
  function Delivered(s: State, io: Io, o: Outcome, r: nat): State
    requires Fits(io, o)
  {
    var d := DirOf(io);
    var v := s.Side(d);
    var s1 := s.(pending := s.pending - multiset{io}, routines := s.routines[r := Routine(io, o, FirstPc(io, o))]);
    if o.Failed? then s1
    else if io.Receive? then s1.SetSide(d, v.(received := v.received + [ReceivedFragment(v.buffer, o)]))
    else s1.SetSide(d, v.(sent := v.sent + [SentFragment(v.buffer, io)]))
  }

  /** A critical section: an IIS failure or a failed start leads to Cleanup, a cleanup in progress ends
      the loop, otherwise the next I/O of the direction is in flight.  Asking WinHTTP for the reason of
      a close overwrites the receive buffer. */
  function Entered(s: State, r: nat, started: bool, scratch: seq<nat>): State
    requires r in s.routines && Fits(s.routines[r].io, s.routines[r].outcome)
  {
    var io, o := s.routines[r].io, s.routines[r].outcome;
    if o.Failed? then Move(s, r, Failing)
    else if s.cleanup || io.Shutdown? then Move(s, r, Leaving)
    else
      var next := NextIo(io, o);
      var s1 := if next.CloseClient? then s.(toClient := s.toClient.(buffer := scratch)) else s;
      if started then Move(s1.(outstanding := s.outstanding + 1, pending := s.pending + multiset{next}), r, Leaving)
      else Move(s1, r, Failing)
  }

  function CleanedUp(s: State, r: nat): State
    requires r in s.routines
  {
    Move(if s.cleanup then s else s.(cleanup := true, indicate := true), r, Leaving)
  }

  function Decremented(s: State, r: nat): State
    requires r in s.routines
  {
    Move(s.(outstanding := s.outstanding - 1), r, Testing(s.outstanding - 1 == 0))
  }

  function Tested(s: State, r: nat): State
    requires r in s.routines && s.routines[r].pc.Testing?
  {
    var s1 := s.(routines := s.routines - {r});
    if s.routines[r].pc.last && s.indicate then s1.(indicated := s.indicated + 1) else s1
  }

  predicate Enabled(s: State, e: Event) {
    match e
    case Fill(d, bytes) => Receive(d) in s.pending
    case Deliver(io, o, r) => io in s.pending && Fits(io, o) && r !in s.routines
    case Enter(r, _, scratch) => r in s.routines && s.routines[r].pc.AtLock? &&
      Fits(s.routines[r].io, s.routines[r].outcome)
    case Cleanup(r) => r in s.routines && s.routines[r].pc.Failing?
    case Decrement(r) => r in s.routines && s.routines[r].pc.Leaving?
    case Test(r) => r in s.routines && s.routines[r].pc.Testing?
  }

  function Apply(s: State, e: Event): State
    requires Enabled(s, e)
  {
    match e
    case Fill(d, bytes) => s.SetSide(d, s.Side(d).(buffer := bytes))
    case Deliver(io, o, r) => Delivered(s, io, o, r)
    case Enter(r, started, scratch) => Entered(s, r, started, scratch)
    case Cleanup(r) => CleanedUp(s, r)
    case Decrement(r) => Decremented(s, r)
    case Test(r) => Tested(s, r)
  }

  /** The state a successful ProcessRequest leaves: both receives in flight. */
  predicate Init(s: State) {
    && s.outstanding == 2 && !s.cleanup && !s.indicate && s.indicated == 0
    && s.pending == multiset{Receive(ToServer), Receive(ToClient)}
    && s.routines == map[]
    && s.toServer.received == [] && s.toServer.sent == []
    && s.toClient.received == [] && s.toClient.sent == []
  }

  // ----- The invariant -----

  /** Who carries a direction on: an I/O in flight, or a routine that has not left its critical part. */
  datatype Token = Nobody | InFlight(io: Io) | Running(r: nat)

  /** Routines that still count as outstanding. */
  function Busy(routines: map<nat, Routine>): set<nat> {
    set r | r in routines && !routines[r].pc.Testing?
  }

  function InFlightOf(t: Token): multiset<Io> {
    if t.InFlight? then multiset{t.io} else multiset{}
  }

  /** A routine that took the count to zero and has not looked at the indicate flag yet. */
  ghost predicate SomeLast(routines: map<nat, Routine>) {
    exists r :: r in routines && routines[r].pc == Testing(true)
  }

  ghost predicate LastIsUnique(routines: map<nat, Routine>) {
    forall q, r | q in routines && r in routines && routines[q].pc == Testing(true) &&
      routines[r].pc == Testing(true) :: q == r
  }

  /** At most the fragment in transit is missing from what was sent. */
  predicate OneBehind(v: Relay) {
    v.received == v.sent || (|v.received| == |v.sent| + 1 && v.sent == v.received[..|v.sent|])
  }

  /** The token of direction d fits the state, and says how far the direction has relayed. */
  predicate TokenOk(routines: map<nat, Routine>, v: Relay, d: Dir, t: Token) {
    match t
    case Nobody => OneBehind(v)
    case InFlight(io) =>
      && DirOf(io) == d
      && (if io.Receive? then v.sent == v.received else v.received == v.sent + [SentFragment(v.buffer, io)])
    case Running(r) =>
      && r in routines && DirOf(routines[r].io) == d && (routines[r].pc.AtLock? || routines[r].pc.Failing?)
      && Fits(routines[r].io, routines[r].outcome)
      && OneBehind(v)
      && (routines[r].pc.AtLock? && !routines[r].outcome.Failed? ==>
            && !routines[r].io.Shutdown?
            && (if routines[r].io.Receive? then v.received == v.sent + [ReceivedFragment(v.buffer, routines[r].outcome)]
                else v.sent == v.received))
  }

  /** Direction d is carried by its token and by nothing else. */
  ghost predicate Carried(routines: map<nat, Routine>, v: Relay, d: Dir, t: Token) {
    && TokenOk(routines, v, d, t)
    && (forall r | r in routines && (routines[r].pc.AtLock? || routines[r].pc.Failing?) && DirOf(routines[r].io) == d ::
          t == Running(r))
  }

  function InFlightCount(t: Token): nat { if t.InFlight? then 1 else 0 }

  /** The outstanding count is what is in flight plus the routines that have not decremented. */
  ghost predicate Counting(outstanding: int, pending: multiset<Io>, routines: map<nat, Routine>, ts: Token, tc: Token) {
    pending == InFlightOf(ts) + InFlightOf(tc) &&
      outstanding == InFlightCount(ts) + InFlightCount(tc) + |Busy(routines)|
  }

  /** Completion is indicated, once, by the last routine to decrement, and only after a cleanup. */
  ghost predicate Indicating(outstanding: int, cleanup: bool, indicated: nat, routines: map<nat, Routine>) {
    && LastIsUnique(routines)
    && (if outstanding > 0 then indicated == 0 && !SomeLast(routines)
        else cleanup && indicated == if SomeLast(routines) then 0 else 1)
  }

  ghost predicate Inv(s: State, ts: Token, tc: Token) {
    && Carried(s.routines, s.toServer, ToServer, ts)
    && Carried(s.routines, s.toClient, ToClient, tc)
    && Counting(s.outstanding, s.pending, s.routines, ts, tc)
    && s.cleanup == s.indicate
    && (!s.cleanup ==> !tc.Nobody?)
    && Indicating(s.outstanding, s.cleanup, s.indicated, s.routines)
  }

  /** The token that carries direction d, and its replacement. */
  function Pick(d: Dir, ts: Token, tc: Token): Token { if d.ToServer? then ts else tc }

  function PutS(d: Dir, t: Token, ts: Token): Token { if d.ToServer? then t else ts }

  function PutC(d: Dir, t: Token, tc: Token): Token { if d.ToServer? then tc else t }

  lemma InitInv(s: State)
    requires Init(s)
    ensures Inv(s, InFlight(Receive(ToServer)), InFlight(Receive(ToClient)))
  {
    assert Busy(s.routines) == {};
  }

  lemma FillInv(s: State, ts: Token, tc: Token, d: Dir, bytes: seq<nat>)
    requires Inv(s, ts, tc) && Enabled(s, Fill(d, bytes))
    ensures Inv(Apply(s, Fill(d, bytes)), ts, tc)
  {
    assert ts == InFlight(Receive(d)) || tc == InFlight(Receive(d));
  }

  // ----- How one routine's move shows in each part -----

  lemma LastKept(routines: map<nat, Routine>, r: nat, rt: Routine)
    requires rt.pc != Testing(true) && (r in routines ==> routines[r].pc != Testing(true))
    ensures SomeLast(routines[r := rt]) == SomeLast(routines)
    ensures LastIsUnique(routines) ==> LastIsUnique(routines[r := rt])
  {
    if SomeLast(routines) {
      var q :| q in routines && routines[q].pc == Testing(true);
      assert routines[r := rt][q].pc == Testing(true);
    }
  }

  lemma BusyUpdated(routines: map<nat, Routine>, r: nat, rt: Routine)
    requires r in routines ==> !routines[r].pc.Testing?
    ensures rt.pc.Testing? ==> Busy(routines[r := rt]) == Busy(routines) - {r}
    ensures !rt.pc.Testing? ==> Busy(routines[r := rt]) == Busy(routines) + {r}
    ensures r in routines <==> r in Busy(routines)
  {
  }

  lemma OtherDirection(routines: map<nat, Routine>, r: nat, rt: Routine, v: Relay, d: Dir, t: Token)
    requires Carried(routines, v, d, t)
    requires DirOf(rt.io) != d && (r in routines ==> DirOf(routines[r].io) != d)
    ensures Carried(routines[r := rt], v, d, t)
  {
  }

  /** Replacing the token of one direction replaces what that direction has in flight. */
  lemma TokenReplaced(
      outstanding: int, pending: multiset<Io>, routines: map<nat, Routine>, ts: Token, tc: Token, d: Dir, t: Token)
    requires Counting(outstanding, pending, routines, ts, tc)
    ensures pending - InFlightOf(Pick(d, ts, tc)) + InFlightOf(t) == InFlightOf(PutS(d, t, ts)) + InFlightOf(PutC(d,
      t, tc))
    ensures outstanding - InFlightCount(Pick(d, ts, tc)) + InFlightCount(t)
         == InFlightCount(PutS(d, t, ts)) + InFlightCount(PutC(d, t, tc)) + |Busy(routines)|
  {
    hide InFlightOf, InFlightCount, Busy;
    OneReplaced(InFlightOf(ts), InFlightOf(tc), InFlightOf(t));
  }

  lemma OneReplaced<T>(a: multiset<T>, b: multiset<T>, x: multiset<T>)
    ensures (a + b) - a + x == x + b && (a + b) - b + x == a + x
  {
  }

  lemma TokenGained(
      outstanding: int, pending: multiset<Io>, routines: map<nat, Routine>, ts: Token, tc: Token, d: Dir, t: Token)
    requires Counting(outstanding, pending, routines, ts, tc) && !Pick(d, ts, tc).InFlight?
    ensures Counting(outstanding + InFlightCount(t), pending + InFlightOf(t), routines, PutS(d, t, ts), PutC(d, t, tc))
  {
  }

  // ----- Deliver -----

  lemma DeliverDirection(s: State, t: Token, io: Io, o: Outcome, r: nat)
    requires Carried(s.routines, s.Side(DirOf(io)), DirOf(io), t)
    requires Fits(io, o) && r !in s.routines && t == InFlight(io)
    ensures var s' := Delivered(s, io, o, r);
      Carried(s'.routines, s'.Side(DirOf(io)), DirOf(io), if FirstPc(io, o).Leaving? then Nobody else Running(r))
  {
  }

  lemma DeliverCounts(s: State, ts: Token, tc: Token, io: Io, o: Outcome, r: nat)
    requires Counting(s.outstanding, s.pending, s.routines, ts, tc)
    requires Fits(io, o) && r !in s.routines && Pick(DirOf(io), ts, tc) == InFlight(io)
    ensures var s' := Delivered(s, io, o, r); var t := if FirstPc(io, o).Leaving? then Nobody else Running(r);
      Counting(s'.outstanding, s'.pending, s'.routines, PutS(DirOf(io), t, ts), PutC(DirOf(io), t, tc))
  {
    hide Delivered, ReceivedFragment, SentFragment, Busy;
    var t := if FirstPc(io, o).Leaving? then Nobody else Running(r);
    BusyUpdated(s.routines, r, Routine(io, o, FirstPc(io, o)));
    TokenReplaced(s.outstanding, s.pending, s.routines, ts, tc, DirOf(io), t);
    DeliveredShape(s, io, o, r);
  }

  lemma DeliveredShape(s: State, io: Io, o: Outcome, r: nat)
    requires Fits(io, o)
    ensures var s' := Delivered(s, io, o, r);
      && s'.outstanding == s.outstanding && s'.pending == s.pending - multiset{io} && s'.cleanup == s.cleanup
      && s'.routines == s.routines[r := Routine(io, o, FirstPc(io, o))]
  {
  }

  /** A finished shutdown ends only the direction to the server. */
  lemma DeliverInv(s: State, ts: Token, tc: Token, io: Io, o: Outcome, r: nat) returns (ts': Token, tc': Token)
    requires Inv(s, ts, tc) && Enabled(s, Deliver(io, o, r))
    ensures Inv(Apply(s, Deliver(io, o, r)), ts', tc')
  {
    assert ts == InFlight(io) || tc == InFlight(io);
    var d := DirOf(io);
    var t := if FirstPc(io, o).Leaving? then Nobody else Running(r);
    ts', tc' := PutS(d, t, ts), PutC(d, t, tc);
    DeliverDirection(s, Pick(d, ts, tc), io, o, r);
    var other := if d.ToServer? then ToClient else ToServer;
    OtherDirection(s.routines, r, Routine(io, o, FirstPc(io, o)), s.Side(other), other, Pick(other, ts, tc));
    DeliverCounts(s, ts, tc, io, o, r);
    LastKept(s.routines, r, Routine(io, o, FirstPc(io, o)));
  }

  // ----- Enter -----

  /** What a critical section leaves behind for its direction. */
  function AfterEnter(s: State, r: nat, started: bool): Token
    requires r in s.routines && Fits(s.routines[r].io, s.routines[r].outcome)
  {
    var io, o := s.routines[r].io, s.routines[r].outcome;
    if o.Failed? then Running(r)
    else if s.cleanup || io.Shutdown? then Nobody
    else if started then InFlight(NextIo(io, o)) else Running(r)
  }

  /** The send a receive leads to carries exactly the fragment received. */
  lemma NextSendsWhatWasReceived(buffer: seq<nat>, io: Io, o: Outcome)
    requires io.Receive? && Fits(io, o) && !o.Failed?
    ensures !NextIo(io, o).Receive? && DirOf(NextIo(io, o)) == io.dir
    ensures SentFragment(buffer, NextIo(io, o)) == ReceivedFragment(buffer, o)
  {
    if io.dir.ToServer? {
      TranslationKeepsMeaning(Prefix(buffer, o.cb), BinaryMessage, o.flags);
    } else {
      TranslationKeepsMeaning(Prefix(buffer, o.cb), o.bufferType, Flags(false, false, false));
    }
  }

  /** A close is answered by a shutdown of the server's side or a close of the client's, and by nothing else. */
  lemma CloseClosesPeer(buffer: seq<nat>, io: Io, o: Outcome)
    requires io.Receive? && Fits(io, o) && !o.Failed?
    ensures ReceivedFragment(buffer, o).Close? <==> NextIo(io, o).Shutdown? || NextIo(io, o).CloseClient?
  {
  }

  /** What is received is as many bytes of the buffer as were reported, and what is sent is as many as were asked
      for. */
  lemma BytesRelayed(buffer: seq<nat>, cb: nat, flags: Flags, t: BufferType)
    requires cb <= |buffer|
    ensures !flags.close ==> ReceivedFragment(buffer, FromIis(cb, flags)).bytes == buffer[..cb]
    ensures !t.CloseBuffer? ==> ReceivedFragment(buffer, FromWinHttp(cb, t)).bytes == buffer[..cb]
    ensures !t.CloseBuffer? ==> SentFragment(buffer, SendToServer(cb, t)).bytes == buffer[..cb]
    ensures SentFragment(buffer, SendToClient(cb, flags.utf8, flags.final)).bytes == buffer[..cb]
  {
  }

  lemma EnterDirection(s: State, t: Token, r: nat, started: bool, scratch: seq<nat>)
    requires Enabled(s, Enter(r, started, scratch))
    requires Carried(s.routines, s.Side(DirOf(s.routines[r].io)), DirOf(s.routines[r].io), t)
    ensures var s' := Entered(s, r, started, scratch); var d := DirOf(s.routines[r].io);
      Carried(s'.routines, s'.Side(d), d, AfterEnter(s, r, started))
  {
    var io, o := s.routines[r].io, s.routines[r].outcome;
    assert t == Running(r);
    if !o.Failed? && io.Receive? {
      NextSendsWhatWasReceived(s.Side(io.dir).buffer, io, o);
    }
  }

  lemma EnterCounts(s: State, ts: Token, tc: Token, r: nat, started: bool, scratch: seq<nat>)
    requires Enabled(s, Enter(r, started, scratch))
    requires Counting(s.outstanding, s.pending, s.routines, ts, tc)
    requires Pick(DirOf(s.routines[r].io), ts, tc) == Running(r)
    ensures var s' := Entered(s, r, started, scratch); var d, t := DirOf(s.routines[r].io), AfterEnter(s, r, started);
      Counting(s'.outstanding, s'.pending, s'.routines, PutS(d, t, ts), PutC(d, t, tc))
  {
    var d, t := DirOf(s.routines[r].io), AfterEnter(s, r, started);
    TokenGained(s.outstanding, s.pending, s.routines, ts, tc, d, t);
    EnteredShape(s, r, started, scratch);
    BusyUpdated(s.routines, r, Entered(s, r, started, scratch).routines[r]);
    assert Busy(s.routines) + {r} == Busy(s.routines);
  }

  lemma EnteredShape(s: State, r: nat, started: bool, scratch: seq<nat>)
    requires Enabled(s, Enter(r, started, scratch))
    ensures var s' := Entered(s, r, started, scratch); var d := DirOf(s.routines[r].io);
      && r in s'.routines && s'.routines == s.routines[r := s'.routines[r]]
      && s'.routines[r].io == s.routines[r].io && (s'.routines[r].pc.Failing? || s'.routines[r].pc.Leaving?)
      && s'.cleanup == s.cleanup && s'.indicate == s.indicate && s'.indicated == s.indicated
      && s'.outstanding == s.outstanding + InFlightCount(AfterEnter(s, r, started))
      && s'.pending == s.pending + InFlightOf(AfterEnter(s, r, started))
      && (d.ToServer? ==> s'.toClient == s.toClient) && (d.ToClient? ==> s'.toServer == s.toServer)
      && (!s.cleanup && d.ToClient? ==> !AfterEnter(s, r, started).Nobody?)
  {
    hide NextIo;
    var io, o := s.routines[r].io, s.routines[r].outcome;
    if !o.Failed? && !io.Shutdown? { NextIoDirection(io, o); }
  }

  lemma NextIoDirection(io: Io, o: Outcome)
    requires Fits(io, o) && !o.Failed? && !io.Shutdown?
    ensures DirOf(NextIo(io, o)) == DirOf(io)
  {
  }

  lemma EnterInv(
      s: State, ts: Token, tc: Token, r: nat, started: bool, scratch: seq<nat>) returns (ts': Token, tc': Token)
    requires Inv(s, ts, tc) && Enabled(s, Enter(r, started, scratch))
    ensures ts' == PutS(DirOf(s.routines[r].io), AfterEnter(s, r, started), ts)
    ensures tc' == PutC(DirOf(s.routines[r].io), AfterEnter(s, r, started), tc)
    ensures Inv(Apply(s, Enter(r, started, scratch)), ts', tc')
  {
    var d, t := DirOf(s.routines[r].io), AfterEnter(s, r, started);
    ts', tc' := PutS(d, t, ts), PutC(d, t, tc);
    var s' := Entered(s, r, started, scratch);
    EnteredShape(s, r, started, scratch);
    EnterDirection(s, Pick(d, ts, tc), r, started, scratch);
    var other := if d.ToServer? then ToClient else ToServer;
    OtherDirection(s.routines, r, s'.routines[r], s.Side(other), other, Pick(other, ts, tc));
    EnterCounts(s, ts, tc, r, started, scratch);
    LastKept(s.routines, r, s'.routines[r]);
    assert r in Busy(s.routines);
    hide Carried, Counting, Entered, Busy, SomeLast, LastIsUnique;
  }

  // ----- Cleanup, Decrement, Test -----

  lemma CleanupInv(s: State, ts: Token, tc: Token, r: nat) returns (ts': Token, tc': Token)
    requires Inv(s, ts, tc) && Enabled(s, Cleanup(r))
    ensures Inv(Apply(s, Cleanup(r)), ts', tc')
  {
    var d := DirOf(s.routines[r].io);
    ts', tc' := PutS(d, Nobody, ts), PutC(d, Nobody, tc);
    var rt := s.routines[r].(pc := Leaving);
    assert Pick(d, ts, tc) == Running(r);
    assert Carried(s.routines[r := rt], s.Side(d), d, Nobody);
    var other := if d.ToServer? then ToClient else ToServer;
    OtherDirection(s.routines, r, rt, s.Side(other), other, Pick(other, ts, tc));
    LastKept(s.routines, r, rt);
    BusyUpdated(s.routines, r, rt);
    assert Busy(s.routines) + {r} == Busy(s.routines);
  }

  /** While no cleanup has happened somebody carries the direction to the client, so a routine that is
      leaving is never the last. */
  lemma NotLastBeforeCleanup(routines: map<nat, Routine>, vc: Relay, tc: Token, r: nat)
    requires Carried(routines, vc, ToClient, tc) && !tc.Nobody?
    requires r in routines && routines[r].pc.Leaving?
    ensures InFlightCount(tc) + |Busy(routines)| > 1
  {
    if tc.Running? {
      assert tc.r in Busy(routines) - {r};
      assert |Busy(routines)| == |Busy(routines) - {r}| + 1;
    } else {
      assert r in Busy(routines);
    }
  }

  lemma CarriedOn(routines: map<nat, Routine>, r: nat, last: bool, v: Relay, d: Dir, t: Token)
    requires Carried(routines, v, d, t) && r in routines && routines[r].pc.Leaving?
    ensures Carried(routines[r := routines[r].(pc := Testing(last))], v, d, t)
  {
  }

  lemma CountingOn(
      outstanding: int, pending: multiset<Io>, routines: map<nat, Routine>, ts: Token, tc: Token, r: nat, last: bool)
    requires Counting(outstanding, pending, routines, ts, tc) && r in routines && routines[r].pc.Leaving?
    ensures outstanding > 0
    ensures Counting(outstanding - 1, pending, routines[r := routines[r].(pc := Testing(last))], ts, tc)
  {
    hide InFlightOf;
    BusyUpdated(routines, r, routines[r].(pc := Testing(last)));
  }

  lemma DecrementInv(s: State, ts: Token, tc: Token, r: nat)
    requires Inv(s, ts, tc) && Enabled(s, Decrement(r))
    ensures Inv(Apply(s, Decrement(r)), ts, tc)
  {
    hide Indicating, Carried, Busy, InFlightOf;
    var last := s.outstanding - 1 == 0;
    CarriedOn(s.routines, r, last, s.toServer, ToServer, ts);
    CarriedOn(s.routines, r, last, s.toClient, ToClient, tc);
    CountingOn(s.outstanding, s.pending, s.routines, ts, tc, r, last);
    if !s.cleanup { NotLastBeforeCleanup(s.routines, s.toClient, tc, r); }
    DecrementIndicates(s.outstanding, s.cleanup, s.indicated, s.routines, r);
  }

  lemma DecrementIndicates(outstanding: int, cleanup: bool, indicated: nat, routines: map<nat, Routine>, r: nat)
    requires Indicating(outstanding, cleanup, indicated, routines)
    requires r in routines && routines[r].pc.Leaving? && outstanding > 0 && (outstanding == 1 ==> cleanup)
    ensures Indicating(outstanding - 1, cleanup, indicated,
      routines[r := routines[r].(pc := Testing(outstanding - 1 == 0))])
  {
    var routines' := routines[r := routines[r].(pc := Testing(outstanding - 1 == 0))];
    if outstanding == 1 {
      assert routines'[r].pc == Testing(true);
      assert forall q | q in routines :: routines[q].pc != Testing(true);
    } else {
      LastKept(routines, r, routines'[r]);
    }
  }

  lemma TestIndicates(s: State, r: nat)
    requires Enabled(s, Test(r)) && s.cleanup == s.indicate
    requires Indicating(s.outstanding, s.cleanup, s.indicated, s.routines)
    ensures var s' := Tested(s, r); Indicating(s'.outstanding, s'.cleanup, s'.indicated, s'.routines)
  {
    var s' := Tested(s, r);
    if s.routines[r].pc == Testing(true) {
      assert !SomeLast(s'.routines);
    } else if SomeLast(s.routines) {
      var q :| q in s.routines && s.routines[q].pc == Testing(true);
      assert s'.routines[q].pc == Testing(true);
    }
  }

  lemma CarriedWithout(routines: map<nat, Routine>, r: nat, v: Relay, d: Dir, t: Token)
    requires Carried(routines, v, d, t) && r in routines && routines[r].pc.Testing?
    ensures Carried(routines - {r}, v, d, t)
  {
  }

  lemma CountingWithout(s: State, ts: Token, tc: Token, r: nat)
    requires Counting(s.outstanding, s.pending, s.routines, ts, tc) && r in s.routines && s.routines[r].pc.Testing?
    ensures Counting(s.outstanding, s.pending, s.routines - {r}, ts, tc)
  {
    assert Busy(s.routines - {r}) == Busy(s.routines);
  }

  lemma TestInv(s: State, ts: Token, tc: Token, r: nat)
    requires Inv(s, ts, tc) && Enabled(s, Test(r))
    ensures Inv(Apply(s, Test(r)), ts, tc)
  {
    TestIndicates(s, r);
    CarriedWithout(s.routines, r, s.toServer, ToServer, ts);
    CarriedWithout(s.routines, r, s.toClient, ToClient, tc);
    CountingWithout(s, ts, tc, r);
    hide Carried, Counting, Indicating;
    assert Tested(s, r).routines == s.routines - {r};
  }

  lemma ApplyInv(s: State, ts: Token, tc: Token, e: Event) returns (ts': Token, tc': Token)
    requires Inv(s, ts, tc) && Enabled(s, e)
    ensures Inv(Apply(s, e), ts', tc')
  {
    ts', tc' := ts, tc;
    match e
    case Fill(d, bytes) => FillInv(s, ts, tc, d, bytes);
    case Deliver(io, o, r) => ts', tc' := DeliverInv(s, ts, tc, io, o, r);
    case Enter(r, started, scratch) => ts', tc' := EnterInv(s, ts, tc, r, started, scratch);
    case Cleanup(r) => ts', tc' := CleanupInv(s, ts, tc, r);
    case Decrement(r) => DecrementInv(s, ts, tc, r);
    case Test(r) => TestInv(s, ts, tc, r);
  }

  // ----- Main results -----

  ghost predicate Step(s: State, s': State) {
    exists e :: Enabled(s, e) && s' == Apply(s, e)
  }

  ghost predicate Run(run: seq<State>) {
    |run| > 0 && Init(run[0]) && forall k | 0 <= k < |run| - 1 :: Step(run[k], run[k + 1])
  }

  lemma {:induction false} RunInv(run: seq<State>) returns (ts: Token, tc: Token)
    requires Run(run)
    ensures Inv(run[|run| - 1], ts, tc)
    decreases |run|
  {
    if |run| == 1 {
      ts, tc := InFlight(Receive(ToServer)), InFlight(Receive(ToClient));
      InitInv(run[0]);
    } else {
      var before := run[..|run| - 1];
      RunBefore(run);
      ts, tc := RunInv(before);
      assert Step(run[|run| - 2], run[|run| - 2 + 1]);
      var e :| Enabled(run[|run| - 2], e) && run[|run| - 1] == Apply(run[|run| - 2], e);
      ts, tc := ApplyInv(run[|run| - 2], ts, tc, e);
    }
  }

  // ----- Failures, and only failures, lead to a cleanup -----

  /** A routine whose I/O failed does not leave before a cleanup. */
  predicate FailuresSeen(s: State) {
    forall r | r in s.routines && s.routines[r].outcome.Failed? && !s.routines[r].pc.AtLock? &&
      !s.routines[r].pc.Failing? :: s.cleanup
  }

  /** Somebody carries the direction on: an I/O in flight, or a routine that is about to start one or to clean up. */
  predicate Held(s: State, d: Dir) {
    || (exists io :: io in s.pending && DirOf(io) == d)
    || (exists r :: r in s.routines && (s.routines[r].pc.AtLock? || s.routines[r].pc.Failing?)
                    && DirOf(s.routines[r].io) == d)
  }

  /** The last thing sent was a close. */
  predicate Closed(v: Relay) { v.sent != [] && v.sent[|v.sent| - 1].Close? }

  predicate Alive(s: State) {
    && FailuresSeen(s)
    && (s.cleanup || Held(s, ToClient))
    && (s.cleanup || Held(s, ToServer) || Closed(s.toServer))
  }

  lemma HeldByIo(s: State, io: Io)
    requires io in s.pending
    ensures Held(s, DirOf(io))
  {
  }

  lemma HeldByRoutine(s: State, r: nat)
    requires r in s.routines && (s.routines[r].pc.AtLock? || s.routines[r].pc.Failing?)
    ensures Held(s, DirOf(s.routines[r].io))
  {
  }

  /** A direction stays held while only routines of the other one move. */
  lemma HeldStays(s: State, s': State, r: nat, rt: Routine, d: Dir)
    requires Held(s, d) && s'.routines == s.routines[r := rt]
    requires r in s.routines ==>
      DirOf(s.routines[r].io) != d || (!s.routines[r].pc.AtLock? && !s.routines[r].pc.Failing?)
    requires forall io | io in s.pending && DirOf(io) == d :: io in s'.pending
    ensures Held(s', d)
  {
    if io :| io in s.pending && DirOf(io) == d {
      HeldByIo(s', io);
    } else {
      var q :| q in s.routines && (s.routines[q].pc.AtLock? || s.routines[q].pc.Failing?) &&
        DirOf(s.routines[q].io) == d;
      assert s'.routines[q] == s.routines[q];
      HeldByRoutine(s', q);
    }
  }

  lemma DeliverAlive(s: State, io: Io, o: Outcome, r: nat)
    requires Alive(s) && Enabled(s, Deliver(io, o, r))
    ensures Alive(Delivered(s, io, o, r))
  {
    var s' := Delivered(s, io, o, r);
    DeliveredShape(s, io, o, r);
    if !FirstPc(io, o).Leaving? { HeldByRoutine(s', r); }
    var other := if DirOf(io).ToServer? then ToClient else ToServer;
    if Held(s, other) { HeldStays(s, s', r, s'.routines[r], other); }
  }

  /** After a critical section the direction is still held, unless there was a cleanup before. */
  lemma EnterHolds(s: State, r: nat, started: bool, scratch: seq<nat>)
    requires Enabled(s, Enter(r, started, scratch)) && (s.routines[r].io.Shutdown? ==> s.routines[r].outcome.Failed?)
    ensures s.cleanup || Held(Entered(s, r, started, scratch), DirOf(s.routines[r].io))
    ensures var rt := Entered(s, r, started, scratch).routines[r];
      rt.outcome == s.routines[r].outcome && (rt.outcome.Failed? ==> rt.pc.Failing?)
  {
    hide NextIo;
    var s' := Entered(s, r, started, scratch);
    var io, o := s.routines[r].io, s.routines[r].outcome;
    if s'.routines[r].pc.Failing? {
      HeldByRoutine(s', r);
    } else if !s.cleanup {
      NextIoDirection(io, o);
      HeldByIo(s', NextIo(io, o));
    }
  }

  lemma ShutdownNotAtLock(s: State, ts: Token, tc: Token, r: nat)
    requires Inv(s, ts, tc) && r in s.routines && s.routines[r].pc.AtLock? && s.routines[r].io.Shutdown?
    ensures s.routines[r].outcome.Failed?
  {
    assert Pick(DirOf(s.routines[r].io), ts, tc) == Running(r);
  }

  lemma EnterAlive(s: State, ts: Token, tc: Token, r: nat, started: bool, scratch: seq<nat>)
    requires Inv(s, ts, tc) && Alive(s) && Enabled(s, Enter(r, started, scratch))
    ensures Alive(Entered(s, r, started, scratch))
  {
    hide Inv, Entered, Held, AfterEnter, Closed;
    var s' := Entered(s, r, started, scratch);
    var d := DirOf(s.routines[r].io);
    EnteredShape(s, r, started, scratch);
    if s.routines[r].io.Shutdown? { ShutdownNotAtLock(s, ts, tc, r); }
    EnterHolds(s, r, started, scratch);
    assert forall q | q in s.routines && q != r :: s'.routines[q] == s.routines[q];
    var other := if d.ToServer? then ToClient else ToServer;
    if Held(s, other) { HeldStays(s, s', r, s'.routines[r], other); }
    EnterKeepsSent(s, r, started, scratch);
  }

  lemma EnterKeepsSent(s: State, r: nat, started: bool, scratch: seq<nat>)
    requires Enabled(s, Enter(r, started, scratch))
    ensures Closed(Entered(s, r, started, scratch).toServer) == Closed(s.toServer)
  {
  }

  lemma LeaveAlive(s: State, s': State, r: nat)
    requires Alive(s) && r in s.routines && !s.routines[r].pc.AtLock? && !s.routines[r].pc.Failing?
    requires s'.pending == s.pending && s'.cleanup == s.cleanup && s'.toServer == s.toServer
    requires s'.routines == s.routines - {r}
      || exists pc: Pc :: pc.Testing? && s'.routines == s.routines[r := s.routines[r].(pc := pc)]
    ensures Alive(s')
  {
    forall d | Held(s, d) ensures Held(s', d) {
      if io :| io in s.pending && DirOf(io) == d {
        HeldByIo(s', io);
      } else {
        var q :| q in s.routines && (s.routines[q].pc.AtLock? || s.routines[q].pc.Failing?) &&
          DirOf(s.routines[q].io) == d;
        assert q in s'.routines && s'.routines[q] == s.routines[q];
        HeldByRoutine(s', q);
      }
    }
  }

  lemma ApplyAlive(s: State, ts: Token, tc: Token, e: Event)
    requires Inv(s, ts, tc) && Alive(s) && Enabled(s, e)
    ensures Alive(Apply(s, e))
  {
    hide Delivered, Entered, Carried, Counting, Indicating, Closed;
    match e
    case Fill(d, bytes) =>
      forall d' | Held(s, d') ensures Held(Apply(s, e), d') {
        if io :| io in s.pending && DirOf(io) == d' { HeldByIo(Apply(s, e), io); }
      }
    case Deliver(io, o, r) => DeliverAlive(s, io, o, r);
    case Enter(r, started, scratch) => EnterAlive(s, ts, tc, r, started, scratch);
    case Cleanup(r) =>
    case Decrement(r) => LeaveAlive(s, Apply(s, e), r);
    case Test(r) => LeaveAlive(s, Apply(s, e), r);
  }

  /** In every state of every run: a routine whose I/O failed leaves only after a cleanup, and before a cleanup
      neither direction is abandoned, except that nothing is left to relay to the server once a close was sent. */
  lemma {:induction false} NoDirectionAbandoned(run: seq<State>)
    requires Run(run)
    ensures Alive(run[|run| - 1])
    decreases |run|
  {
    if |run| == 1 {
      HeldByIo(run[0], Receive(ToServer));
      HeldByIo(run[0], Receive(ToClient));
    } else {
      var before := run[..|run| - 1];
      RunBefore(run);
      NoDirectionAbandoned(before);
      var ts, tc := RunInv(before);
      assert Step(run[|run| - 2], run[|run| - 2 + 1]);
      var e :| Enabled(run[|run| - 2], e) && run[|run| - 1] == Apply(run[|run| - 2], e);
      ApplyAlive(run[|run| - 2], ts, tc, e);
    }
  }

  lemma RunBefore(run: seq<State>)
    requires Run(run) && |run| > 1
    ensures var before := run[..|run| - 1]; Run(before) && before[|before| - 1] == run[|run| - 2]
  {
    var before := run[..|run| - 1];
    forall k | 0 <= k < |before| - 1 ensures Step(before[k], before[k + 1]) {
      assert Step(run[k], run[k + 1]);
    }
  }

  /** An event in which nothing fails. */
  predicate GoesWell(e: Event) {
    match e
    case Deliver(_, o, _) => !o.Failed?
    case Enter(_, started, _) => started
    case _ => true
  }

  ghost predicate GoodStep(s: State, s': State) {
    exists e :: Enabled(s, e) && GoesWell(e) && s' == Apply(s, e)
  }

  predicate AllWell(s: State) {
    !s.cleanup && forall r | r in s.routines :: !s.routines[r].outcome.Failed? && !s.routines[r].pc.Failing?
  }

  /** A relay in which no I/O fails, and none fails to start, is not cleaned up. */
  lemma {:induction false} NoCleanupWithoutFailure(run: seq<State>)
    requires Run(run) && forall k | 0 <= k < |run| - 1 :: GoodStep(run[k], run[k + 1])
    ensures !run[|run| - 1].cleanup && AllWell(run[|run| - 1])
    decreases |run|
  {
    if |run| > 1 {
      var before := run[..|run| - 1];
      RunBefore(run);
      forall k | 0 <= k < |before| - 1 ensures GoodStep(before[k], before[k + 1]) {
        assert GoodStep(run[k], run[k + 1]);
      }
      NoCleanupWithoutFailure(before);
      assert GoodStep(run[|run| - 2], run[|run| - 2 + 1]);
      var e :| Enabled(run[|run| - 2], e) && GoesWell(e) && run[|run| - 1] == Apply(run[|run| - 2], e);
      StaysWell(run[|run| - 2], e);
    }
  }

  lemma StaysWell(s: State, e: Event)
    requires AllWell(s) && Enabled(s, e) && GoesWell(e)
    ensures AllWell(Apply(s, e))
  {
    hide Delivered, Entered;
    match e
    case Deliver(io, o, r) => DeliveredShape(s, io, o, r);
    case Enter(r, started, scratch) => EnterWell(s, r, scratch);
    case _ =>
  }

  lemma EnterWell(s: State, r: nat, scratch: seq<nat>)
    requires Enabled(s, Enter(r, true, scratch)) && !s.routines[r].outcome.Failed?
    ensures var s' := Entered(s, r, true, scratch);
      s'.cleanup == s.cleanup && s'.routines == s.routines[r := s.routines[r].(pc := Leaving)]
  {
    hide NextIo;
  }

  /** The events that use the handler object; a failed test of the count does not. */
  predicate TouchesHandler(s: State, e: Event)
    requires Enabled(s, e)
  {
    !e.Test? || s.routines[e.r].pc.last
  }

  /** In every reachable state the count is the pending I/Os plus the routines that have not decremented;
      it stays positive until a cleanup; completion is indicated at most once, only when everything has
      drained, and after that nothing touches the handler. */
  lemma CountAndCompletion(run: seq<State>)
    requires Run(run)
    ensures var s := run[|run| - 1];
      && s.outstanding == |s.pending| + |Busy(s.routines)|
      && (!s.cleanup ==> s.outstanding >= 1)
      && s.indicated <= 1
      && (s.indicated == 1 ==> s.cleanup && s.pending == multiset{} && Busy(s.routines) == {})
      && (s.indicated == 1 ==> forall e | Enabled(s, e) :: !TouchesHandler(s, e))
  {
    var s := run[|run| - 1];
    var ts, tc := RunInv(run);
    assert |s.pending| == InFlightCount(ts) + InFlightCount(tc);
    forall e | Enabled(s, e) && TouchesHandler(s, e) ensures s.indicated != 1 {
      TouchingNeedsWork(s, ts, tc, e);
    }
  }

  lemma TouchingNeedsWork(s: State, ts: Token, tc: Token, e: Event)
    requires Inv(s, ts, tc) && Enabled(s, e) && TouchesHandler(s, e)
    ensures s.outstanding > 0 || SomeLast(s.routines)
  {
    match e
    case Fill(d, _) => assert ts == InFlight(Receive(d)) || tc == InFlight(Receive(d));
    case Deliver(io, _, _) => assert ts == InFlight(io) || tc == InFlight(io);
    case Enter(r, _, _) => assert r in Busy(s.routines);
    case Cleanup(r) => assert r in Busy(s.routines);
    case Decrement(r) => assert r in Busy(s.routines);
    case Test(r) =>
  }

  /** No I/O is started once cleanup has begun. */
  lemma NoIoAfterCleanup(run: seq<State>, e: Event)
    requires Run(run) && Enabled(run[|run| - 1], e)
    requires run[|run| - 1].cleanup
    ensures Apply(run[|run| - 1], e).pending <= run[|run| - 1].pending
    ensures Apply(run[|run| - 1], e).cleanup
  {
    hide Delivered, Entered;
    match e
    case Deliver(io, o, r) => DeliveredShape(run[|run| - 1], io, o, r);
    case Enter(r, started, scratch) =>
      EnteredShape(run[|run| - 1], r, started, scratch);
      NoneStarted(run[|run| - 1], r, started);
    case _ =>
  }

  lemma NoneStarted(s: State, r: nat, started: bool)
    requires s.cleanup && r in s.routines && Fits(s.routines[r].io, s.routines[r].outcome)
    ensures InFlightOf(AfterEnter(s, r, started)) == multiset{}
  {
  }

  // ----- Draining after a cleanup -----

  function Weight(pc: Pc): nat {
    match pc
    case AtLock => 4
    case Failing => 3
    case Leaving => 2
    case Testing(_) => 1
  }

  /** How many moves the routines have left. */
  ghost function MovesLeft(routines: map<nat, Routine>): nat
    decreases routines
  {
    if routines == map[] then 0
    else
      var r :| r in routines;
      Weight(routines[r].pc) + MovesLeft(routines - {r})
  }

  lemma {:induction false} MovesLeftOf(routines: map<nat, Routine>, r: nat)
    requires r in routines
    ensures MovesLeft(routines) == Weight(routines[r].pc) + MovesLeft(routines - {r})
    decreases |routines|
  {
    var q :| q in routines && MovesLeft(routines) == Weight(routines[q].pc) + MovesLeft(routines - {q});
    if q != r {
      assert (routines - {q}) - {r} == (routines - {r}) - {q};
      assert |routines - {q}| < |routines|;
      assert |routines - {r}| < |routines|;
      MovesLeftOf(routines - {q}, r);
      MovesLeftOf(routines - {r}, q);
    }
  }

  lemma MovesLeftUpdated(routines: map<nat, Routine>, r: nat, rt: Routine)
    requires r in routines
    ensures MovesLeft(routines[r := rt]) + Weight(routines[r].pc) == MovesLeft(routines) + Weight(rt.pc)
  {
    MovesLeftOf(routines, r);
    MovesLeftOf(routines[r := rt], r);
    assert routines[r := rt] - {r} == routines - {r};
  }

  ghost function WorkLeft(s: State): nat { 5 * |s.pending| + MovesLeft(s.routines) }

  lemma DeliverDrains(s: State, io: Io, o: Outcome, r: nat)
    requires Enabled(s, Deliver(io, o, r))
    ensures WorkLeft(Delivered(s, io, o, r)) < WorkLeft(s)
  {
    DeliveredShape(s, io, o, r);
    var s' := Delivered(s, io, o, r);
    MovesLeftOf(s'.routines, r);
    assert s'.routines - {r} == s.routines;
    assert |s.pending - multiset{io}| == |s.pending| - 1;
  }

  lemma MoveDrains(s: State, s': State, r: nat, rt: Routine)
    requires r in s.routines && s'.routines == s.routines[r := rt] && s'.pending == s.pending
    requires Weight(rt.pc) < Weight(s.routines[r].pc)
    ensures WorkLeft(s') < WorkLeft(s)
  {
    MovesLeftUpdated(s.routines, r, rt);
  }

  /** After a cleanup every event but a write to a receive buffer brings the drain closer. */
  lemma CleanupDrains(s: State, e: Event)
    requires s.cleanup && Enabled(s, e) && !e.Fill?
    ensures WorkLeft(Apply(s, e)) < WorkLeft(s)
  {
    match e
    case Deliver(io, o, r) => DeliverDrains(s, io, o, r);
    case Enter(r, started, scratch) =>
      EnteredShape(s, r, started, scratch);
      assert s.pending + multiset{} == s.pending;
      MoveDrains(s, Apply(s, e), r, Apply(s, e).routines[r]);
    case Cleanup(r) => MoveDrains(s, Apply(s, e), r, Apply(s, e).routines[r]);
    case Decrement(r) => MoveDrains(s, Apply(s, e), r, Apply(s, e).routines[r]);
    case Test(r) => MovesLeftOf(s.routines, r);
  }

  /** Nothing is left to happen but writes to a receive buffer. */
  ghost predicate Drained(s: State) {
    forall e :: Enabled(s, e) ==> e.Fill?
  }

  /** A run that has cleaned up and has drained has indicated completion exactly once. */
  lemma DrainedMeansIndicated(run: seq<State>)
    requires Run(run) && run[|run| - 1].cleanup && Drained(run[|run| - 1])
    ensures run[|run| - 1].indicated == 1
  {
    var s := run[|run| - 1];
    var ts, tc := RunInv(run);
    NothingPending(s, ts, tc);
    NoRoutines(s, ts, tc);
    assert Busy(s.routines) == {};
  }

  lemma NothingPending(s: State, ts: Token, tc: Token)
    requires Inv(s, ts, tc) && Drained(s)
    ensures InFlightCount(ts) == 0 && InFlightCount(tc) == 0
  {
    if ts.InFlight? { PendingCanComplete(s, ts.io); }
    if tc.InFlight? { PendingCanComplete(s, tc.io); }
  }

  lemma PendingCanComplete(s: State, io: Io)
    requires io in s.pending
    ensures !Drained(s)
  {
    var r := FreshId(s.routines.Keys);
    assert Enabled(s, Deliver(io, Failed, r));
  }

  lemma RoutineCanMove(s: State, ts: Token, tc: Token, r: nat)
    requires Inv(s, ts, tc) && r in s.routines
    ensures !Drained(s)
  {
    if s.routines[r].pc.AtLock? { AtLockFits(s, ts, tc, r); }
    var e :=
      match s.routines[r].pc
      case AtLock => Enter(r, true, [])
      case Failing => Cleanup(r)
      case Leaving => Decrement(r)
      case Testing(_) => Test(r);
    assert Enabled(s, e) && !e.Fill?;
  }

  lemma NoRoutines(s: State, ts: Token, tc: Token)
    requires Inv(s, ts, tc) && Drained(s)
    ensures s.routines.Keys == {}
  {
    if s.routines.Keys != {} {
      var r :| r in s.routines.Keys;
      RoutineCanMove(s, ts, tc, r);
    }
  }

  lemma AtLockFits(s: State, ts: Token, tc: Token, r: nat)
    requires Inv(s, ts, tc) && r in s.routines && s.routines[r].pc.AtLock?
    ensures Fits(s.routines[r].io, s.routines[r].outcome)
  {
    assert Pick(DirOf(s.routines[r].io), ts, tc) == Running(r);
  }

  lemma {:induction false} FreshId(ids: set<nat>) returns (r: nat)
    ensures r !in ids && forall i | i in ids :: i < r
  {
    if ids == {} {
      r := 0;
    } else {
      var i :| i in ids;
      var q := FreshId(ids - {i});
      r := if i < q then q else i + 1;
      forall j | j in ids ensures j < r {
        assert j == i || j in ids - {i};
      }
    }
  }

  // ----- Fragments -----

  /** In each direction at most one I/O is in flight, so no receive can write a buffer that a send is
      reading; the fragments sent are the fragments received, in order, but for at most the last. */
  lemma RelayedInOrder(run: seq<State>, d: Dir)
    requires Run(run)
    ensures var s := run[|run| - 1]; var v := s.Side(d);
      && OneBehind(v)
      && (forall io, jo | io in s.pending && jo in s.pending && DirOf(io) == d && DirOf(jo) == d ::
        io == jo && s.pending[io] == 1)
      && (forall io | io in s.pending && DirOf(io) == d && !io.Receive? ::
        v.received == v.sent + [SentFragment(v.buffer, io)])
  {
    var s := run[|run| - 1];
    var ts, tc := RunInv(run);
    forall io | io in s.pending ensures Pick(DirOf(io), ts, tc) == InFlight(io) && s.pending[io] == 1 {
      PendingIsToken(s, ts, tc, io);
    }
    hide Counting, Indicating;
  }

  lemma PendingIsToken(s: State, ts: Token, tc: Token, io: Io)
    requires Inv(s, ts, tc) && io in s.pending
    ensures Pick(DirOf(io), ts, tc) == InFlight(io) && s.pending[io] == 1
  {
    assert ts == InFlight(io) || tc == InFlight(io);
  }

  lemma EnterKeepsBuffer(s: State, r: nat, started: bool, scratch: seq<nat>, d: Dir)
    requires Enabled(s, Enter(r, started, scratch)) && DirOf(s.routines[r].io) != d
    ensures Entered(s, r, started, scratch).Side(d) == s.Side(d)
  {
  }

  lemma DeliverKeepsBuffer(s: State, io: Io, o: Outcome, r: nat, d: Dir)
    requires Enabled(s, Deliver(io, o, r))
    ensures Delivered(s, io, o, r).Side(d).buffer == s.Side(d).buffer
  {
  }

  lemma BufferKept(s: State, ts: Token, tc: Token, e: Event, io: Io)
    requires Inv(s, ts, tc) && Enabled(s, e) && io in s.pending && !io.Receive?
    ensures Apply(s, e).Side(DirOf(io)).buffer == s.Side(DirOf(io)).buffer
  {
    assert ts == InFlight(io) || tc == InFlight(io);
    match e
    case Fill(d, _) => assert ts == InFlight(Receive(d)) || tc == InFlight(Receive(d));
    case Enter(r, started, scratch) =>
      assert Pick(DirOf(s.routines[r].io), ts, tc) == Running(r);
      EnterKeepsBuffer(s, r, started, scratch, DirOf(io));
    case Deliver(jo, o, r) => DeliverKeepsBuffer(s, jo, o, r, DirOf(io));
    case Cleanup(_) =>
    case Decrement(_) =>
    case Test(_) =>
  }

  /** A step writes the receive buffer of a direction only while no send from it is in flight. */
  lemma BufferStableWhileSending(run: seq<State>, e: Event, io: Io)
    requires Run(run) && Enabled(run[|run| - 1], e)
    requires io in run[|run| - 1].pending && !io.Receive?
    ensures Apply(run[|run| - 1], e).Side(DirOf(io)).buffer == run[|run| - 1].Side(DirOf(io)).buffer
  {
    var ts, tc := RunInv(run);
    BufferKept(run[|run| - 1], ts, tc, e, io);
  }
}

/**
 WEBSOCKET_HANDLER as an object whose methods update its fields.  The ghost field `s` is the state of
 the step system; every method is shown to make exactly the steps the step system allows it.

 `started` parameters are the environment's answer to a call that starts an I/O.
 */
module WebSocketHandler {
  import opened WebSocketTypes
  import opened WebSocketRelay

  class Handler {
    var outstandingIo: int
    var cleanupInProgress: bool
    var indicateCompletionToIis: bool
    var completions: nat                // calls of IndicateCompletionToIIS
    var winHttpReceiveBuffer: seq<nat>
    var iisReceiveBuffer: seq<nat>
    ghost var s: State

    ghost predicate Coupled()
      reads this
    {
      && outstandingIo == s.outstanding
      && cleanupInProgress == s.cleanup
      && indicateCompletionToIis == s.indicate
      && completions == s.indicated
      && winHttpReceiveBuffer == s.toClient.buffer
      && iisReceiveBuffer == s.toServer.buffer
    }

    /** A successful ProcessRequest: both receives are started under the lock. */
    constructor ProcessRequest()
      ensures Coupled() && Init(s)
    {
      outstandingIo := 1 + 1;
      cleanupInProgress := false;
      indicateCompletionToIis := false;
      completions := 0;
      winHttpReceiveBuffer := [];
      iisReceiveBuffer := [];
      s := State(2, false, false, 0, multiset{Receive(ToServer), Receive(ToClient)}, map[],
                 Relay([], [], []), Relay([], [], []));
    }

    method IncrementOutstandingIo()
      modifies this`outstandingIo
      ensures outstandingIo == old(outstandingIo) + 1
    {
      outstandingIo := outstandingIo + 1;
    }

    /** DecrementOutstandingIo. */
    method DecrementOutstandingIo()
      modifies this`outstandingIo, this`completions
      ensures outstandingIo == old(outstandingIo) - 1
      ensures completions == old(completions) + if outstandingIo == 0 && indicateCompletionToIis then 1 else 0
    {
      outstandingIo := outstandingIo - 1;
      if outstandingIo == 0 && indicateCompletionToIis {
        completions := completions + 1;
      }
    }

    /** DoIisWebSocketReceive, DoWinHttpWebSocketReceive and the starting half of the sends.  The decrement
        made when an I/O fails to start never indicates completion: the caller still counts. */
    method StartIo(started: bool) returns (failed: bool)
      requires outstandingIo > 0
      modifies this`outstandingIo, this`completions
      ensures failed == !started
      ensures outstandingIo == old(outstandingIo) + if started then 1 else 0
      ensures completions == old(completions)
    {
      IncrementOutstandingIo();
      failed := false;
      if !started {
        DecrementOutstandingIo();
        failed := true;
      }
    }

    /** A send to the client.  A close first asks WinHTTP for its reason, into the receive buffer;
        when that query fails nothing is counted. */
    method DoIisWebSocketSend(
        cb: nat, t: BufferType, queried: bool, started: bool, scratch: seq<nat>) returns (failed: bool)
      requires outstandingIo > 0
      modifies this`outstandingIo, this`completions, this`winHttpReceiveBuffer
      ensures failed == !((t.CloseBuffer? ==> queried) && started)
      ensures outstandingIo == old(outstandingIo) + if failed then 0 else 1
      ensures completions == old(completions)
      ensures winHttpReceiveBuffer == if t.CloseBuffer? then scratch else old(winHttpReceiveBuffer)
    {
      if t.CloseBuffer? {
        winHttpReceiveBuffer := scratch;
        if !queried {
          return true;
        }
      }
      failed := StartIo(started);
    }

    /** A send to the server; for a close the status may be unavailable, and then nothing is counted. */
    method DoWinHttpWebSocketSend(cb: nat, t: BufferType, queried: bool, started: bool) returns (failed: bool)
      requires outstandingIo > 0
      modifies this`outstandingIo, this`completions
      ensures failed == !((t.CloseBuffer? ==> queried) && started)
      ensures outstandingIo == old(outstandingIo) + if failed then 0 else 1
      ensures completions == old(completions)
    {
      if t.CloseBuffer? && !queried {
        return true;
      }
      failed := StartIo(started);
    }

    /** The critical section of OnIisReceiveComplete, OnIisSendComplete, OnWinHttpReceiveComplete and
        OnWinHttpSendComplete; the step system's Enter. */
    method CriticalSection(
        ghost r: nat, io: Io, o: Outcome, queried: bool, started: bool, scratch: seq<nat>) returns (failed: bool)
      requires Coupled() && outstandingIo > 0
      requires Enabled(s, Enter(r, started && queried, scratch)) && s.routines[r] == Routine(io, o, AtLock)
      requires !io.Shutdown? || o.Failed?
      requires NeedsQuery(io, o) || queried
      modifies this
      ensures Coupled()
      ensures s == Apply(old(s), Enter(r, started && queried, scratch))
      ensures failed == s.routines[r].pc.Failing?
    {
      ghost var s0 := s;
      failed := o.Failed?;
      if !failed && !cleanupInProgress {
        match io
        case Receive(ToServer) =>
          var t := GetBufferTypeFromFlags(o.flags);
          failed := DoWinHttpWebSocketSend(o.cb, t, queried, started);
        case Receive(ToClient) =>
          failed := DoIisWebSocketSend(o.cb, o.bufferType, queried, started, scratch);
        case SendToServer(_, _) => failed := StartIo(started);
        case SendToClient(_, _, _) => failed := StartIo(started);
        case CloseClient => failed := StartIo(started);
      }
      s := Apply(s0, Enter(r, started && queried, scratch));
    }

    method Cleanup(ghost r: nat)
      requires Coupled() && Enabled(s, WebSocketRelay.Cleanup(r))
      modifies this
      ensures Coupled()
      ensures s == Apply(old(s), WebSocketRelay.Cleanup(r))
    {
      ghost var s0 := s;
      if !cleanupInProgress {
        cleanupInProgress := true;
        indicateCompletionToIis := true;
      }
      s := Apply(s0, WebSocketRelay.Cleanup(r));
    }

    /** The end of every completion routine: the interlocked decrement, then the test of its result. */
    method Leave(ghost r: nat)
      requires Coupled() && Enabled(s, Decrement(r))
      modifies this
      ensures Coupled()
      ensures s == Apply(Apply(old(s), Decrement(r)), Test(r))
    {
      ghost var s0 := s;
      DecrementOutstandingIo();
      s := Apply(Apply(s0, Decrement(r)), Test(r));
    }

    /** A whole completion routine, undisturbed: its critical section, Cleanup if that failed, and the
        decrement, in this order. */
    method Complete(ghost r: nat, io: Io, o: Outcome, queried: bool, started: bool, scratch: seq<nat>)
      requires Coupled() && outstandingIo > 0
      requires Enabled(s, Enter(r, started && queried, scratch)) && s.routines[r] == Routine(io, o, AtLock)
      requires !io.Shutdown? || o.Failed?
      requires NeedsQuery(io, o) || queried
      modifies this
      ensures Coupled()
      ensures s == Finish(old(s), r, started && queried, scratch)
    {
      var failed := CriticalSection(r, io, o, queried, started, scratch);
      if failed {
        Cleanup(r);
      }
      Leave(r);
    }

    /** OnWinHttpIoError: a failed WinHTTP operation ends the relay. */
    method OnWinHttpIoError(ghost r: nat)
      requires Coupled() && Enabled(s, WebSocketRelay.Cleanup(r))
      modifies this
      ensures Coupled() && cleanupInProgress
      ensures s == Ended(old(s), r)
    {
      Cleanup(r);
      Leave(r);
    }

    /** OnWinHttpShutdownComplete. */
    method OnWinHttpShutdownComplete(ghost r: nat)
      requires Coupled() && Enabled(s, Decrement(r))
      modifies this
      ensures Coupled()
      ensures s == Ended(old(s), r)
    {
      Leave(r);
    }

    /** Which routine a completion comes to: for the WinHTTP ends FORWARDING_HANDLER decides. */
    method OnCompletion(ghost r: nat, io: Io, o: Outcome, queried: bool, started: bool, scratch: seq<nat>)
      requires Coupled() && outstandingIo > 0 && Fits(io, o)
      requires r in s.routines && s.routines[r] == Routine(io, o, FirstPc(io, o))
      requires NeedsQuery(io, o) || queried
      modifies this
      ensures Coupled()
      ensures s == if FirstPc(io, o).AtLock? then Finish(old(s), r, started && queried, scratch) else Ended(old(s), r)
      ensures o.Failed? ==> cleanupInProgress
    {
      if (io.SendToServer? || io.Shutdown? || io == Receive(ToClient)) && o.Failed? {
        OnWinHttpIoError(r);
      } else if io.Shutdown? {
        OnWinHttpShutdownComplete(r);
      } else {
        Complete(r, io, o, queried, started, scratch);
      }
    }
  }

  /** Routines that ask for a close status before they send. */
  predicate NeedsQuery(io: Io, o: Outcome) {
    io.Receive? && ((o.FromIis? && o.flags.close) || (o.FromWinHttp? && o.bufferType.CloseBuffer?))
  }

  /** The steps of one routine from its critical section to its end. */
  function Finish(s: State, r: nat, started: bool, scratch: seq<nat>): State
    requires Enabled(s, Enter(r, started, scratch))
  {
    var s1 := Apply(s, Enter(r, started, scratch));
    var s2 := if s1.routines[r].pc.Failing? then Apply(s1, Cleanup(r)) else s1;
    Apply(Apply(s2, Decrement(r)), Test(r))
  }

  /** The steps of a routine that does not enter the critical section. */
  function Ended(s: State, r: nat): State
    requires r in s.routines && (s.routines[r].pc.Failing? || s.routines[r].pc.Leaving?)
  {
    var s1 := if s.routines[r].pc.Failing? then Apply(s, Cleanup(r)) else s;
    Apply(Apply(s1, Decrement(r)), Test(r))
  }

  /** Run undisturbed, a completion routine leaves either the next I/O of its direction in flight and the
      count as it was, or the relay in cleanup; whatever happens the invariant holds again, and if the
      count went to zero completion has been indicated. */
  lemma RoutineOutcome(
      s: State, ts: Token, tc: Token, r: nat, started: bool, scratch: seq<nat>) returns (ts': Token, tc': Token)
    requires Inv(s, ts, tc) && Enabled(s, Enter(r, started, scratch)) && !s.routines[r].io.Shutdown?
    ensures var s' := Finish(s, r, started, scratch); var t := Pick(DirOf(s.routines[r].io), ts', tc');
      && Inv(s', ts', tc') && r !in s'.routines
      && (s'.cleanup || (t.InFlight? && s'.outstanding == s.outstanding))
      && (s'.outstanding == 0 ==> s'.indicated == 1)
  {
    hide Inv, Entered, Decremented, Tested;
    var s1 := Apply(s, Enter(r, started, scratch));
    ts', tc' := EnterOutcome(s, ts, tc, r, started, scratch);
    if s1.routines[r].pc.Failing? {
      var s2 := Apply(s1, Cleanup(r));
      ts', tc' := CleanupInv(s1, ts', tc', r);
      FinishLeave(s2, ts', tc', r);
    } else {
      FinishLeave(s1, ts', tc', r);
    }
  }

  lemma EnterOutcome(
      s: State, ts: Token, tc: Token, r: nat, started: bool, scratch: seq<nat>) returns (ts': Token, tc': Token)
    requires Inv(s, ts, tc) && Enabled(s, Enter(r, started, scratch)) && !s.routines[r].io.Shutdown?
    ensures var s1 := Entered(s, r, started, scratch);
      && Inv(s1, ts', tc')
      && r in s1.routines && s1.routines[r].io == s.routines[r].io &&
        (s1.routines[r].pc.Failing? || s1.routines[r].pc.Leaving?)
      && s1.cleanup == s.cleanup
      && (s1.routines[r].pc.Leaving? && !s1.cleanup ==>
            Pick(DirOf(s.routines[r].io), ts', tc').InFlight? && s1.outstanding == s.outstanding + 1)
  {
    ts', tc' := EnterInv(s, ts, tc, r, started, scratch);
    EnteredShape(s, r, started, scratch);
    InFlightAfter(s, Entered(s, r, started, scratch), ts, tc, ts', tc', r, started, scratch);
  }

  lemma InFlightAfter(
      s: State, s1: State, ts: Token, tc: Token, ts': Token, tc': Token, r: nat, started: bool, scratch: seq<nat>)
    requires Enabled(s, Enter(r, started, scratch)) && !s.routines[r].io.Shutdown?
    requires s1 == Entered(s, r, started, scratch)
    requires ts' == PutS(DirOf(s.routines[r].io), AfterEnter(s, r, started), ts)
    requires tc' == PutC(DirOf(s.routines[r].io), AfterEnter(s, r, started), tc)
    ensures s1.routines[r].pc.Leaving? && !s1.cleanup ==>
              Pick(DirOf(s.routines[r].io), ts', tc').InFlight? && s1.outstanding == s.outstanding + 1
  {
  }

  lemma FinishLeave(s: State, ts: Token, tc: Token, r: nat)
    requires Inv(s, ts, tc) && Enabled(s, Decrement(r))
    ensures var s' := Apply(Apply(s, Decrement(r)), Test(r));
      Inv(s', ts, tc) && r !in s'.routines && s'.outstanding == s.outstanding - 1 && s'.cleanup == s.cleanup
      && (s'.outstanding == 0 ==> s'.indicated == 1)
  {
    assert r in Busy(s.routines);
    DecrementInv(s, ts, tc, r);
    var s1 := Apply(s, Decrement(r));
    TestInv(s1, ts, tc, r);
    if s1.outstanding == 0 {
      assert s1.routines[r].pc == Testing(true);
      assert !SomeLast(Apply(s1, Test(r)).routines);
    }
  }
}

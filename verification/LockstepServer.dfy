/**
 The server the ARM drives frame by frame: one TICK in, one DONE out, or in two-phase mode two DONEs
 with a GO in between. A RESET met while waiting for the GO is set aside until the frame is over.
 */
module LockstepServer {

  datatype Option<T> = None | Some(value: T)

  datatype Message = Reset(dl: nat) | Tick(fn: nat, twoPhase: bool) | Go | Dcch(tn: int, kind: nat, ss: nat) | Bye | Other(code: nat)

  /** What a poll of the socket finds: a message, nothing yet, or a peer that is gone. */
  datatype Arrival = Message(m: Message) | Silence | Gone

  /** Everything the server does that the ARM, the DSP or the base-band layer can see. */
  datatype Event =
    | Read(m: Message)           // taken by the main loop
    | Heard(m: Message)          // taken while waiting for the GO
    | DspReset(dl: nat)
    | WholeFrame(fn: nat) | PhaseA(fn: nat) | PhaseB(fn: nat) | RestOfFrame(fn: nat)
    | Done(fn: nat)
    | Dedicated(tn: int, kind: nat, ss: nat) | ChannelReleased

  datatype Phase = Ready | Awaiting(fn: nat, kept: Option<nat>) | Ended

  datatype State = State(log: seq<Event>, phase: Phase)

  // ----- the specification -----

  /** What one message does when the main loop takes it. */
  function Handled(m: Message): (seq<Event>, Phase)
  {
    match m
    case Reset(dl) => ([DspReset(dl)], Ready)
    case Tick(fn, false) => ([WholeFrame(fn), Done(fn)], Ready)
    case Tick(fn, true) => ([PhaseA(fn), Done(fn)], Awaiting(fn, None))
    case Dcch(tn, kind, ss) => ([Dedicated(tn, kind, ss)] + Release(tn, kind), Ready)
    case Bye => ([], Ended)
    case _ => ([], Ready)
  }

  function Release(tn: int, kind: nat): seq<Event>
  {
    if kind == 0xff || tn <= 0 then [ChannelReleased] else []
  }

  /** The end of a two-phase frame; the DONE leaves before the rest of the frame is played, or after. */
  function SecondHalf(fn: nat, early: bool): seq<Event>
  {
    if early then [PhaseB(fn), Done(fn), RestOfFrame(fn)] else [PhaseB(fn), RestOfFrame(fn), Done(fn)]
  }

  function Deferred(kept: Option<nat>): seq<Event>
  {
    if kept.Some? then [DspReset(kept.value)] else []
  }

  function Step(s: State, x: Arrival, early: bool): State
  {
    match s.phase
    case Ended => s
    case Ready =>
      (match x
       case Silence => s
       case Gone => State(s.log, Ended)
       case Message(m) => State(s.log + [Read(m)] + Handled(m).0, Handled(m).1))
    case Awaiting(fn, kept) =>
      match x
      case Silence => s
      case Gone => State(s.log, Ended)
      case Message(m) =>
        var log := s.log + [Heard(m)];
        if m.Go? then State(log + SecondHalf(fn, early) + Deferred(kept), Ready)
        else State(log, if m.Reset? then Awaiting(fn, Some(m.dl)) else s.phase)
  }

  function Run(xs: seq<Arrival>, early: bool): State
  {
    if xs == [] then State([], Ready) else Step(Run(xs[..|xs| - 1], early), xs[|xs| - 1], early)
  }

  lemma OneMore(xs: seq<Arrival>, i: nat, early: bool)
    requires i < |xs|
    ensures Run(xs[..i + 1], early) == Step(Run(xs[..i], early), xs[i], early)
  {
    assert xs[..i + 1][..i] == xs[..i];
  }

  lemma NothingYet(early: bool)
    ensures Run([], early) == State([], Ready) && Deferred(None) == []
  {
  }

  /** A RESET set aside is handled like any other. */
  lemma DeferredIsHandled(dl: nat)
    ensures Deferred(Some(dl)) == Handled(Reset(dl)).0 && Handled(Reset(dl)).1 == Ready
  {
  }

  // ----- the server -----

  class Server {
    /** PONT_DONE_TOT. */
    const doneTot: bool
    var stop: bool
    ghost var log: seq<Event>

    constructor (doneTot: bool)
      ensures log == [] && !stop && this.doneTot == doneTot
    {
      this.doneTot, stop, log := doneTot, false, [];
    }

    /** Waiting for the GO: a RESET is set aside, the last one wins, anything else is dropped. */
    method AttendreGo(xs: seq<Arrival>, from: nat, fn: nat) returns (next: nat, go: bool, deferred: bool, dl: nat)
      requires from <= |xs| && !stop
      requires Run(xs[..from], doneTot) == State(log, Awaiting(fn, None))
      modifies this
      ensures from <= next <= |xs| && (go ==> from < next && !stop)
      ensures go ==> Run(xs[..next], doneTot) ==
                     State(log + SecondHalf(fn, doneTot) + Deferred(if deferred then Some(dl) else None), Ready)
      ensures !go && stop ==> Run(xs[..next], doneTot) == State(log, Ended)
      ensures !go && !stop ==> next == |xs| && Run(xs, doneTot).log == log
    {
      next, go, deferred, dl := from, false, false, 0;
      while !stop && !go && next < |xs|
        invariant from <= next <= |xs|
        invariant go ==> from < next && !stop
        invariant go ==> Run(xs[..next], doneTot) ==
                         State(log + SecondHalf(fn, doneTot) + Deferred(if deferred then Some(dl) else None), Ready)
        invariant !go && stop ==> Run(xs[..next], doneTot) == State(log, Ended)
        invariant !go && !stop ==> Run(xs[..next], doneTot) == State(log, Awaiting(fn, if deferred then Some(dl) else None))
      {
        OneMore(xs, next, doneTot);
        var x := xs[next];
        next := next + 1;
        if x.Gone? {
          stop := true;
        } else if x.Message? {
          log := log + [Heard(x.m)];
          if x.m.Go? {
            go := true;
          } else if x.m.Reset? {
            deferred, dl := true, x.m.dl;
          }
        }
      }
      assert next == |xs| ==> xs[..next] == xs;
    }

    /** The switch on a message, up to the wait of a two-phase frame. */
    method Reagir(m: Message)
      modifies this`log
      ensures log == old(log) + Handled(m).0
    {
      match m {
        case Reset(dl) =>
          log := log + [DspReset(dl)];
        case Tick(fn, false) =>
          log := log + [WholeFrame(fn), Done(fn)];
        case Tick(fn, true) =>
          log := log + [PhaseA(fn), Done(fn)];
        case Dcch(tn, kind, ss) =>
          log := log + [Dedicated(tn, kind, ss)];
          if kind == 0xff || tn <= 0 { log := log + [ChannelReleased]; }
        case _ =>
      }
    }

    /** From the first DONE of a two-phase frame to the end of the frame. */
    method FinirTrame(xs: seq<Arrival>, from: nat, fn: nat) returns (next: nat, over: bool, deferred: bool, dl: nat)
      requires from <= |xs| && !stop
      requires Run(xs[..from], doneTot) == State(log, Awaiting(fn, None))
      modifies this
      ensures !over ==> !stop && from < next && Up(xs, next, deferred, dl)
      ensures over ==> log == Run(xs, doneTot).log
    {
      var go;
      next, go, deferred, dl := AttendreGo(xs, from, fn);
      over := !go;
      if go {
        SecondPhase(fn);
      } else if stop {
        Over(xs, next);
      }
    }

    /** Everything up to arrival i is dealt with, but for a RESET still to be applied. */
    ghost predicate Up(xs: seq<Arrival>, i: nat, deferred: bool, dl: nat)
      reads this
    {
      i <= |xs| && Run(xs[..i], doneTot) == State(log + Deferred(if deferred then Some(dl) else None), Ready)
    }

    /** The message of one turn of the loop, once taken. */
    method Traiter(xs: seq<Arrival>, i: nat, m: Message) returns (next: nat, over: bool, deferred: bool, dl: nat)
      requires i <= |xs| && !stop
      requires Run(xs[..i], doneTot) == State(log + Handled(m).0, Handled(m).1)
      modifies this
      ensures !over ==> !stop && i <= next && Up(xs, next, deferred, dl) && (i < next || !deferred)
      ensures over ==> log == Run(xs, doneTot).log
    {
      next, over, deferred, dl := i, false, false, 0;
      Reagir(m);
      if m.Bye? {
        over := true;
        Over(xs, i);
      } else if m.Tick? && m.twoPhase {
        next, over, deferred, dl := FinirTrame(xs, i, m.fn);
      }
    }

    /** servir: the message loop, on everything that arrives after the handshake. */
    method Servir(xs: seq<Arrival>)
      requires !stop && log == []
      modifies this
      ensures log == Run(xs, doneTot).log
    {
      hide Run, Deferred, Handled;
      NothingYet(doneTot);
      var i, over, deferred := 0, false, false;
      var dl: nat := 0;
      assert xs[..0] == [] && log + Deferred(None) == log;
      while !stop && !over && (deferred || i < |xs|)
        invariant !over ==> !stop && Up(xs, i, deferred, dl)
        invariant over ==> log == Run(xs, doneTot).log
        decreases !over, 2 * (|xs| - i) + if deferred then 1 else 0
      {
        if deferred {
          DeferredIsHandled(dl);
          i, over, deferred, dl := Traiter(xs, i, Reset(dl));
        } else {
          OneMore(xs, i, doneTot);
          NothingYet(doneTot);
          assert log + Deferred(None) == log;
          var x := xs[i];
          i := i + 1;
          if x.Silence? { continue; }
          if x.Gone? {
            over := true;
            Over(xs, i);
            continue;
          }
          log := log + [Read(x.m)];
          i, over, deferred, dl := Traiter(xs, i, x.m);
        }
      }
      NothingYet(doneTot);
      assert i == |xs| ==> xs[..i] == xs;
      assert log + Deferred(None) == log;
    }

    /** The burst is delivered; the DONE may leave before the rest of the frame is played. */
    method SecondPhase(fn: nat)
      modifies this`log
      ensures log == old(log) + SecondHalf(fn, doneTot)
    {
      log := log + [PhaseB(fn)];
      var sent := false;
      if doneTot {
        log := log + [Done(fn)];
        sent := true;
      }
      log := log + [RestOfFrame(fn)];
      if !sent { log := log + [Done(fn)]; }
    }

    /** Nothing arrives any more once the session is over. */
    lemma Over(xs: seq<Arrival>, i: nat)
      requires i <= |xs| && Run(xs[..i], doneTot).phase == Ended
      ensures Run(xs, doneTot) == Run(xs[..i], doneTot)
    {
      if i < |xs| {
        assert xs[..|xs| - 1][..i] == xs[..i];
        Over(xs[..|xs| - 1], i);
      } else {
        assert xs[..i] == xs;
      }
    }
  }

  // ----- what every session looks like -----

  function Hearing(w: seq<Message>): (s: seq<Event>)
    ensures |s| == |w| && forall k :: 0 <= k < |w| ==> s[k] == Heard(w[k])
  {
    if w == [] then [] else Hearing(w[..|w| - 1]) + [Heard(w[|w| - 1])]
  }

  /** The last RESET among messages. */
  function LastReset(w: seq<Message>): Option<nat>
  {
    if w == [] then None
    else if w[|w| - 1].Reset? then Some(w[|w| - 1].dl)
    else LastReset(w[..|w| - 1])
  }

  ghost predicate NoGo(w: seq<Message>) { forall k :: 0 <= k < |w| ==> !w[k].Go? }

  function FirstHalf(fn: nat): seq<Event> { [Read(Tick(fn, true)), PhaseA(fn), Done(fn)] }

  /** A two-phase frame served to its end, w being what came before the GO. */
  ghost predicate Served(turn: seq<Event>, fn: nat, w: seq<Message>, early: bool)
  {
    NoGo(w) && turn == FirstHalf(fn) + Hearing(w) + [Heard(Go)] + SecondHalf(fn, early) + Deferred(LastReset(w))
  }

  /** A two-phase frame whose GO has not come. */
  ghost predicate Unserved(turn: seq<Event>, fn: nat, w: seq<Message>)
  {
    NoGo(w) && turn == FirstHalf(fn) + Hearing(w)
  }

  ghost predicate Complete(turn: seq<Event>, early: bool)
  {
    && |turn| > 0 && turn[0].Read?
    && if turn[0].m.Tick? && turn[0].m.twoPhase then exists w :: Served(turn, turn[0].m.fn, w, early)
       else turn == [turn[0]] + Handled(turn[0].m).0
  }

  /** From i to j, a message of the main loop and all that follows until the next one. */
  ghost predicate Turn(log: seq<Event>, i: nat, j: nat)
  {
    && i < j <= |log| && log[i].Read? && (j == |log| || log[j].Read?)
    && forall k :: i < k < j ==> !log[k].Read?
  }

  /** All turns but the last are complete; the last one is given. */
  ghost predicate Chronicle(log: seq<Event>, last: seq<Event>, early: bool)
  {
    && (log != [] ==> log[0].Read?)
    && forall i: nat, j: nat :: Turn(log, i, j) ==> if j == |log| then log[i..j] == last else Complete(log[i..j], early)
  }

  ghost predicate Fits(last: seq<Event>, phase: Phase, early: bool)
  {
    match phase
    case Ready => last == [] || Complete(last, early)
    case Awaiting(fn, kept) => exists w :: Unserved(last, fn, w) && LastReset(w) == kept
    case Ended => last == [] || Complete(last, early) || exists fn, w :: Unserved(last, fn, w)
  }

  lemma TurnBefore(log: seq<Event>, more: seq<Event>, i: nat, j: nat)
    requires Turn(log + more, i, j) && i < |log|
    ensures Turn(log, i, if j < |log| then j else |log|)
    ensures j <= |log| ==> (log + more)[i..j] == log[i..j]
  {
    forall k | i < k < j && k < |log| ensures !log[k].Read? {
      assert (log + more)[k] == log[k];
    }
  }

  lemma NewTurn(log: seq<Event>, last: seq<Event>, turn: seq<Event>, early: bool)
    requires Chronicle(log, last, early) && (log != [] ==> Complete(last, early))
    requires |turn| > 0 && turn[0].Read? && forall k :: 0 < k < |turn| ==> !turn[k].Read?
    ensures Chronicle(log + turn, turn, early)
  {
    var all := log + turn;
    forall i: nat, j: nat | Turn(all, i, j)
      ensures if j == |all| then all[i..j] == turn else Complete(all[i..j], early)
    {
      if i < |log| {
        assert all[|log|] == turn[0];
        TurnBefore(log, turn, i, j);
      } else {
        assert all[i] == turn[i - |log|];
        assert i == |log|;
        assert all[|log|..] == turn;
      }
    }
  }

  lemma SameTurn(log: seq<Event>, last: seq<Event>, more: seq<Event>, early: bool)
    requires Chronicle(log, last, early) && log != []
    requires forall k :: 0 <= k < |more| ==> !more[k].Read?
    ensures Chronicle(log + more, last + more, early)
  {
    var all := log + more;
    forall i: nat, j: nat | Turn(all, i, j)
      ensures if j == |all| then all[i..j] == last + more else Complete(all[i..j], early)
    {
      TurnBefore(log, more, i, j);
      assert j == |all| ==> all[i..j] == log[i..|log|] + more;
    }
  }

  lemma OneMoreHeard(last: seq<Event>, fn: nat, w: seq<Message>, m: Message, early: bool)
    requires Unserved(last, fn, w)
    ensures !m.Go? ==> Unserved(last + [Heard(m)], fn, w + [m]) && LastReset(w + [m]) == if m.Reset? then Some(m.dl) else LastReset(w)
    ensures m.Go? ==> Served(last + ([Heard(m)] + SecondHalf(fn, early) + Deferred(LastReset(w))), fn, w, early)
  {
    assert (w + [m])[..|w|] == w;
  }

  /**
   Over every session, each message is dealt with before the next is read, exactly as its turn
   says: a two-phase TICK gets its first DONE, the wait, and only then the second half, its second
   DONE and the last RESET met in the wait. Only the last turn can be waiting.
   */
  lemma {:induction false} EverySession(xs: seq<Arrival>, early: bool) returns (last: seq<Event>)
    ensures Chronicle(Run(xs, early).log, last, early) && Fits(last, Run(xs, early).phase, early)
    ensures Run(xs, early).log == [] <==> last == []
  {
    if xs == [] {
      last := [];
    } else {
      var s, x := Run(xs[..|xs| - 1], early), xs[|xs| - 1];
      last := EverySession(xs[..|xs| - 1], early);
      if x.Message? && s.phase.Ready? {
        last := ReadyStep(s, last, x.m, early);
      } else if x.Message? && s.phase.Awaiting? {
        last := AwaitingStep(s, last, x.m, early);
      }
    }
  }

  lemma ReadyStep(s: State, last: seq<Event>, m: Message, early: bool) returns (turn: seq<Event>)
    requires s.phase.Ready? && Chronicle(s.log, last, early) && (s.log != [] ==> Complete(last, early))
    ensures Chronicle(Step(s, Message(m), early).log, turn, early) && turn != []
    ensures Fits(turn, Step(s, Message(m), early).phase, early)
  {
    turn := [Read(m)] + Handled(m).0;
    NewTurn(s.log, last, turn, early);
    assert s.log + [Read(m)] + Handled(m).0 == s.log + turn;
    if m.Tick? && m.twoPhase {
      assert Unserved(turn, m.fn, []) && LastReset([]) == None;
    } else {
      assert Complete(turn, early);
    }
  }

  lemma AwaitingStep(s: State, last: seq<Event>, m: Message, early: bool) returns (turn: seq<Event>)
    requires s.phase.Awaiting? && Chronicle(s.log, last, early) && s.log != [] && Fits(last, s.phase, early)
    ensures Chronicle(Step(s, Message(m), early).log, turn, early) && turn != []
    ensures Fits(turn, Step(s, Message(m), early).phase, early)
  {
    var w :| Unserved(last, s.phase.fn, w) && LastReset(w) == s.phase.kept;
    if m.Go? {
      turn := GoStep(s, last, w, early);
    } else {
      turn := last + [Heard(m)];
      OneMoreHeard(last, s.phase.fn, w, m, early);
      SameTurn(s.log, last, [Heard(m)], early);
    }
  }

  lemma GoStep(s: State, last: seq<Event>, w: seq<Message>, early: bool) returns (turn: seq<Event>)
    requires s.phase.Awaiting? && Chronicle(s.log, last, early) && s.log != []
    requires Unserved(last, s.phase.fn, w) && LastReset(w) == s.phase.kept
    ensures Chronicle(Step(s, Message(Go), early).log, turn, early) && turn != [] && Complete(turn, early)
  {
    var fn := s.phase.fn;
    var more := [Heard(Go)] + SecondHalf(fn, early) + Deferred(LastReset(w));
    OneMoreHeard(last, fn, w, Go, early);
    SameTurn(s.log, last, more, early);
    turn := last + more;
    assert turn[0] == Read(Tick(fn, true)) && Served(turn, fn, w, early);
    assert s.log + [Heard(Go)] + SecondHalf(fn, early) + Deferred(s.phase.kept) == s.log + more;
  }

  // ----- what a turn is, event by event -----

  /** The first DONE of a two-phase frame is out, and everything heard since is no GO. */
  predicate Waits(turn: seq<Event>, fn: nat, n: nat)
  {
    && 3 <= n <= |turn| && turn[..3] == [Read(Tick(fn, true)), PhaseA(fn), Done(fn)]
    && forall k :: 3 <= k < n ==> turn[k].Heard? && turn[k].m != Go
  }

  /** A RESET with that DL_STATUS was heard at q, and none later. */
  predicate HeardLast(turn: seq<Event>, q: nat, n: nat, dl: nat)
  {
    3 <= q < n <= |turn| && turn[q] == Heard(Reset(dl)) && forall k :: q < k < n ==> turn[k].Heard? && !turn[k].m.Reset?
  }

  /**
   The GO came at g: the burst is delivered, the rest of the frame played and the second DONE sent,
   before the rest or after it; then the DSP is reset once if a RESET was heard in the wait.
   */
  ghost predicate Goes(turn: seq<Event>, fn: nat, g: nat, early: bool)
  {
    && Waits(turn, fn, g) && g + 4 <= |turn| <= g + 5 && turn[g] == Heard(Go)
    && turn[g + 1] == PhaseB(fn)
    && turn[if early then g + 2 else g + 3] == Done(fn)
    && turn[if early then g + 3 else g + 2] == RestOfFrame(fn)
    && if |turn| == g + 5 then exists q: nat, dl: nat :: HeardLast(turn, q, g, dl) && turn[g + 4] == DspReset(dl)
       else forall k :: 3 <= k < g ==> !turn[k].m.Reset?
  }

  /** All that happens between a message of the main loop and the next. */
  ghost predicate Proper(turn: seq<Event>, early: bool)
  {
    && |turn| > 0 && turn[0].Read?
    && match turn[0].m
       case Tick(fn, twoPhase) =>
         if twoPhase then exists g: nat :: Goes(turn, fn, g, early)
         else |turn| == 3 && turn[1] == WholeFrame(fn) && turn[2] == Done(fn)
       case Reset(dl) => |turn| == 2 && turn[1] == DspReset(dl)
       case Dcch(tn, kind, ss) =>
         && |turn| >= 2 && turn[1] == Dedicated(tn, kind, ss)
         && if kind == 255 || tn <= 0 then |turn| == 3 && turn[2] == ChannelReleased else |turn| == 2
       case _ => |turn| == 1
  }

  lemma {:induction false} LastResetIsHeard(turn: seq<Event>, w: seq<Message>, n: nat, to: nat)
    requires 3 <= n && to == n + |w| <= |turn| && turn[n..to] == Hearing(w)
    ensures if LastReset(w).Some? then exists q: nat :: HeardLast(turn, q, to, LastReset(w).value)
            else forall k :: n <= k < to ==> turn[k].Heard? && !turn[k].m.Reset?
  {
    if w != [] {
      var m := |w| - 1;
      assert Hearing(w)[..m] == Hearing(w[..m]) && turn[n..n + m] == turn[n..to][..m];
      LastResetIsHeard(turn, w[..m], n, n + m);
      assert turn[n + m] == turn[n..to][m] == Heard(w[m]);
      if w[m].Reset? {
        assert HeardLast(turn, n + m, to, LastReset(w).value);
      } else if LastReset(w).Some? {
        var q: nat :| HeardLast(turn, q, n + m, LastReset(w).value);
        assert HeardLast(turn, q, to, LastReset(w).value);
      }
    }
  }

  lemma WaitsAre(turn: seq<Event>, fn: nat, w: seq<Message>)
    requires |turn| >= 3 + |w| && turn[..3 + |w|] == FirstHalf(fn) + Hearing(w) && NoGo(w)
    ensures Waits(turn, fn, 3 + |w|) && turn[3..3 + |w|] == Hearing(w)
  {
    assert turn[..3] == turn[..3 + |w|][..3] == FirstHalf(fn);
    assert turn[3..3 + |w|] == turn[..3 + |w|][3..];
    forall k | 3 <= k < 3 + |w| ensures turn[k].Heard? && turn[k].m != Go {
      assert turn[k] == turn[3..3 + |w|][k - 3] == Heard(w[k - 3]);
    }
  }

  lemma UnservedWaits(turn: seq<Event>, fn: nat, w: seq<Message>)
    requires Unserved(turn, fn, w)
    ensures Waits(turn, fn, |turn|)
  {
    assert turn == FirstHalf(fn) + Hearing(w);
    assert turn[..3 + |w|] == turn;
    WaitsAre(turn, fn, w);
  }

  lemma ServedGoes(turn: seq<Event>, fn: nat, w: seq<Message>, early: bool)
    requires Served(turn, fn, w, early)
    ensures Goes(turn, fn, 3 + |w|, early)
  {
    var g := 3 + |w|;
    assert turn == (FirstHalf(fn) + Hearing(w)) + ([Heard(Go)] + SecondHalf(fn, early) + Deferred(LastReset(w)));
    assert turn[..g] == FirstHalf(fn) + Hearing(w);
    assert turn[g..] == [Heard(Go)] + SecondHalf(fn, early) + Deferred(LastReset(w));
    assert forall k :: 0 <= k < |turn[g..]| ==> turn[g + k] == turn[g..][k];
    assert turn[g] == Heard(Go) && turn[g + 1] == PhaseB(fn);
    WaitsAre(turn, fn, w);
    LastResetIsHeard(turn, w, 3, g);
  }

  lemma CompleteIsProper(turn: seq<Event>, early: bool)
    requires Complete(turn, early)
    ensures Proper(turn, early)
  {
    hide Served, Goes;
    var m := turn[0].m;
    if m.Tick? && m.twoPhase {
      var w :| Served(turn, m.fn, w, early);
      ServedGoes(turn, m.fn, w, early);
    }
  }

  /**
   Over every session, each message of the main loop is followed by exactly what it calls for: a
   frame is played and answered once in single phase; in two phases its halves are played once each
   around the wait, with two DONEs; a RESET resets the DSP once, an announcement is handed over as
   it came. Only the last turn can still be waiting.
   */
  lemma EveryTurnIsProper(xs: seq<Arrival>, early: bool, i: nat, j: nat)
    requires Turn(Run(xs, early).log, i, j)
    ensures var s := Run(xs, early);
            j < |s.log| || s.phase.Ready? ==> Proper(s.log[i..j], early)
    ensures var s := Run(xs, early);
            var turn := s.log[i..j];
            !Proper(turn, early) ==> exists fn: nat :: Waits(turn, fn, |turn|)
  {
    hide Run, Complete, Proper, Waits;
    var s := Run(xs, early);
    var last := EverySession(xs, early);
    var turn := s.log[i..j];
    if j < |s.log| {
      CompleteIsProper(turn, early);
    } else {
      assert turn == last && last != [];
      LastTurn(last, s.phase, early);
    }
  }

  lemma LastTurn(last: seq<Event>, phase: Phase, early: bool)
    requires Fits(last, phase, early) && last != []
    ensures phase.Ready? ==> Proper(last, early)
    ensures Proper(last, early) || exists fn: nat :: Waits(last, fn, |last|)
  {
    if Complete(last, early) {
      CompleteIsProper(last, early);
    } else {
      hide Unserved;
      var fn: nat, w: seq<Message> :| Unserved(last, fn, w);
      UnservedWaits(last, fn, w);
    }
  }

  // ----- every message is taken -----

  predicate Hung(xs: seq<Arrival>) { exists k :: 0 <= k < |xs| && xs[k].Gone? }

  /** The messages that came before the peer was gone. */
  function Sent(xs: seq<Arrival>): seq<Message>
  {
    if xs == [] then []
    else
      var before, x := xs[..|xs| - 1], xs[|xs| - 1];
      Sent(before) + if x.Message? && !Hung(before) then [x.m] else []
  }

  function Taken(log: seq<Event>): seq<Message>
  {
    if log == [] then []
    else
      var x := log[|log| - 1];
      Taken(log[..|log| - 1]) + if x.Read? || x.Heard? then [x.m] else []
  }

  lemma {:induction false} TakenAdd(a: seq<Event>, b: seq<Event>)
    ensures Taken(a + b) == Taken(a) + Taken(b)
  {
    if b == [] {
      assert a + b == a;
    } else {
      assert (a + b)[..|a + b| - 1] == a + b[..|b| - 1];
      TakenAdd(a, b[..|b| - 1]);
    }
  }

  lemma {:induction false} NothingTaken(b: seq<Event>)
    requires forall k :: 0 <= k < |b| ==> !b[k].Read? && !b[k].Heard?
    ensures Taken(b) == []
  {
    if b != [] { NothingTaken(b[..|b| - 1]); }
  }

  lemma StepTakes(s: State, m: Message, early: bool)
    requires !s.phase.Ended?
    ensures Taken(Step(s, Message(m), early).log) == Taken(s.log) + [m]
    ensures Step(s, Message(m), early).phase.Ended? <==> s.phase.Ready? && m.Bye?
  {
    hide Taken;
    if s.phase.Ready? {
      OneTaken(s.log, Read(m), Handled(m).0);
    } else if m.Go? {
      OneTaken(s.log, Heard(m), SecondHalf(s.phase.fn, early) + Deferred(s.phase.kept));
      assert s.log + [Heard(m)] + SecondHalf(s.phase.fn, early) + Deferred(s.phase.kept)
          == s.log + [Heard(m)] + (SecondHalf(s.phase.fn, early) + Deferred(s.phase.kept));
    } else {
      OneTaken(s.log, Heard(m), []);
      assert s.log + [Heard(m)] + [] == s.log + [Heard(m)];
    }
  }

  lemma OneTaken(log: seq<Event>, x: Event, more: seq<Event>)
    requires x.Read? || x.Heard?
    requires forall k :: 0 <= k < |more| ==> !more[k].Read? && !more[k].Heard?
    ensures Taken(log + [x] + more) == Taken(log) + [x.m]
  {
    assert (log + [x])[..|log|] == log;
    hide Taken;
    TakenAdd(log + [x], more);
    NothingTaken(more);
  }

  /** The server takes every message once, in the order they came, until the peer is gone or says BYE outside a frame. */
  lemma {:induction false} EveryMessageIsTaken(xs: seq<Arrival>, early: bool)
    ensures var s := Run(xs, early);
            if s.phase.Ended? && !Hung(xs) then
              Taken(s.log) <= Sent(xs) && Taken(s.log) != [] && Taken(s.log)[|Taken(s.log)| - 1] == Bye
            else if s.phase.Ended? then
              Taken(s.log) == Sent(xs) || (Taken(s.log) < Sent(xs) && Taken(s.log) != [] && Taken(s.log)[|Taken(s.log)| - 1] == Bye)
            else Taken(s.log) == Sent(xs) && !Hung(xs)
  {
    if xs != [] {
      var before, x := xs[..|xs| - 1], xs[|xs| - 1];
      var s := Run(before, early);
      EveryMessageIsTaken(before, early);
      assert Hung(xs) <==> Hung(before) || x.Gone? by {
        if Hung(before) { var k :| 0 <= k < |before| && before[k].Gone?; assert xs[k].Gone?; }
        if x.Gone? { assert xs[|xs| - 1].Gone?; }
      }
      if x.Message? && !s.phase.Ended? { StepTakes(s, x.m, early); }
    }
  }

  // ----- what the ARM can count on -----

  function Dones(s: seq<Event>): nat
  {
    if s == [] then 0 else Dones(s[..|s| - 1]) + if s[|s| - 1].Done? then 1 else 0
  }

  lemma {:induction false} DonesAdd(a: seq<Event>, b: seq<Event>)
    ensures Dones(a + b) == Dones(a) + Dones(b)
  {
    if b == [] {
      assert a + b == a;
    } else {
      assert (a + b)[..|a + b| - 1] == a + b[..|b| - 1];
      DonesAdd(a, b[..|b| - 1]);
    }
  }

  lemma {:induction false} HearingIsQuiet(w: seq<Message>)
    ensures Dones(Hearing(w)) == 0
  {
    if w != [] {
      HearingIsQuiet(w[..|w| - 1]);
      DonesAdd(Hearing(w[..|w| - 1]), [Heard(w[|w| - 1])]);
    }
  }

  lemma FewEvents(x: Event, y: Event, z: Event)
    ensures Dones([x]) == One(x) && Dones([x, y]) == One(x) + One(y) && Dones([x, y, z]) == One(x) + One(y) + One(z)
  {
    assert [x, y, z][..2] == [x, y] && [x, y][..1] == [x] && [x][..0] == [];
  }

  function One(x: Event): nat { if x.Done? then 1 else 0 }

  lemma DonesOfAFrame(turn: seq<Event>, fn: nat, w: seq<Message>, early: bool)
    requires Served(turn, fn, w, early)
    ensures Dones(turn) == 2
  {
    var a, b, c, d := FirstHalf(fn), Hearing(w), SecondHalf(fn, early), Deferred(LastReset(w));
    HearingIsQuiet(w);
    FewEvents(a[0], a[1], a[2]);
    FewEvents(c[0], c[1], c[2]);
    FewEvents(Heard(Go), Heard(Go), Heard(Go));
    if d != [] { FewEvents(d[0], d[0], d[0]); }
    DonesAdd(a, b);
    DonesAdd(a + b, [Heard(Go)]);
    DonesAdd(a + b + [Heard(Go)], c);
    DonesAdd(a + b + [Heard(Go)] + c, d);
  }

  /** A TICK served to its end gets one DONE, or two in two-phase mode; nothing else gets any. */
  lemma DonesOfATurn(turn: seq<Event>, early: bool)
    requires Complete(turn, early)
    ensures Dones(turn) == if !turn[0].m.Tick? then 0 else if turn[0].m.twoPhase then 2 else 1
  {
    var m := turn[0].m;
    if m.Tick? && m.twoPhase {
      var w :| Served(turn, m.fn, w, early);
      DonesOfAFrame(turn, m.fn, w, early);
    } else {
      var h := Handled(m).0;
      DonesAdd([turn[0]], h);
      FewEvents(turn[0], turn[0], turn[0]);
      if |h| == 1 { FewEvents(h[0], h[0], h[0]); }
      if |h| == 2 { FewEvents(h[0], h[1], h[1]); }
    }
  }

  /** The second half of a frame starts right after a GO, and only there. */
  lemma {:induction false} PhaseBFollowsGo(xs: seq<Arrival>, early: bool, k: nat)
    requires k < |Run(xs, early).log| && Run(xs, early).log[k].PhaseB?
    ensures k > 0 && Run(xs, early).log[k - 1] == Heard(Go)
  {
    var s, log := Run(xs[..|xs| - 1], early), Run(xs, early).log;
    if k < |s.log| {
      assert log[k] == s.log[k];
      PhaseBFollowsGo(xs[..|xs| - 1], early, k);
    }
  }

  // ----- the deferral is a reordering -----

  /** What the DSP, the ARM and the base band see of a session. */
  function Visible(log: seq<Event>): seq<Event>
  {
    if log == [] then []
    else
      var x := log[|log| - 1];
      Visible(log[..|log| - 1]) + if x.Read? || x.Heard? then [] else [x]
  }

  lemma {:induction false} VisibleAdd(a: seq<Event>, b: seq<Event>)
    ensures Visible(a + b) == Visible(a) + Visible(b)
  {
    if b == [] {
      assert a + b == a;
    } else {
      assert (a + b)[..|a + b| - 1] == a + b[..|b| - 1];
      VisibleAdd(a, b[..|b| - 1]);
    }
  }

  /** The session without what the server ignores, each RESET met in a wait moved behind the GO. */
  function Straightened(xs: seq<Arrival>, early: bool): seq<Arrival>
  {
    if xs == [] then []
    else
      var before, x := xs[..|xs| - 1], xs[|xs| - 1];
      var s := Run(before, early);
      Straightened(before, early) +
      if s.phase.Ended? || x.Silence? then []
      else if s.phase.Ready? || x.Gone? then [x]
      else if x.m.Go? then [x] + (if s.phase.kept.Some? then [Message(Reset(s.phase.kept.value))] else [])
      else []
  }

  /** In a straight session nothing but the GO, or the end, comes after a two-phase TICK. */
  ghost predicate Straight(xs: seq<Arrival>)
  {
    forall k :: 0 <= k < |xs| - 1 && TwoPhase(xs[k]) ==> xs[k + 1].Gone? || xs[k + 1] == Message(Go)
  }

  predicate TwoPhase(x: Arrival) { x.Message? && x.m.Tick? && x.m.twoPhase }

  ghost predicate Alike(s: State, t: State)
  {
    && Visible(s.log) == Visible(t.log)
    && t.phase == if s.phase.Awaiting? then Awaiting(s.phase.fn, None) else s.phase
  }

  lemma OneVisible(x: Event)
    ensures Visible([x]) == if x.Read? || x.Heard? then [] else [x]
  {
    assert [x][..0] == [];
  }

  lemma ReadyAlike(s: State, t: State, m: Message, early: bool)
    requires Alike(s, t) && s.phase.Ready?
    ensures Alike(Step(s, Message(m), early), Step(t, Message(m), early))
  {
    VisibleAdd(s.log + [Read(m)], Handled(m).0);
    VisibleAdd(t.log + [Read(m)], Handled(m).0);
    VisibleAdd(s.log, [Read(m)]);
    VisibleAdd(t.log, [Read(m)]);
  }

  lemma GoAlike(s: State, t: State, early: bool)
    requires Alike(s, t) && s.phase.Awaiting?
    ensures var t' := Step(t, Message(Go), early);
            var kept := s.phase.kept;
            Alike(Step(s, Message(Go), early), if kept.Some? then Step(t', Message(Reset(kept.value)), early) else t')
  {
    var fn, kept := s.phase.fn, s.phase.kept;
    var half, rest := SecondHalf(fn, early), Deferred(kept);
    OneVisible(Heard(Go));
    VisibleAdd(s.log, [Heard(Go)]);
    VisibleAdd(t.log, [Heard(Go)]);
    VisibleAdd(s.log + [Heard(Go)], half);
    VisibleAdd(t.log + [Heard(Go)], half);
    VisibleAdd(s.log + [Heard(Go)] + half, rest);
    var after := t.log + [Heard(Go)] + half;
    assert after + Deferred(None) == after;
    assert Step(t, Message(Go), early) == State(after, Ready);
    if kept.Some? {
      OneVisible(Read(Reset(kept.value)));
      VisibleAdd(after, [Read(Reset(kept.value))]);
      VisibleAdd(after + [Read(Reset(kept.value))], rest);
    }
  }

  lemma HeardAlike(s: State, t: State, m: Message, early: bool)
    requires Alike(s, t) && s.phase.Awaiting? && !m.Go?
    ensures Alike(Step(s, Message(m), early), t)
  {
    OneVisible(Heard(m));
    VisibleAdd(s.log, [Heard(m)]);
  }

  lemma RunTwo(xs: seq<Arrival>, x: Arrival, y: Arrival, early: bool)
    ensures Run(xs + [x], early) == Step(Run(xs, early), x, early)
    ensures Run(xs + [x, y], early) == Step(Step(Run(xs, early), x, early), y, early)
  {
    assert (xs + [x])[..|xs|] == xs;
    assert xs + [x, y] == (xs + [x]) + [y];
    assert (xs + [x, y])[..|xs| + 1] == xs + [x];
  }

  /**
   Setting a RESET aside only moves it behind the GO of its frame, and of several only the last
   counts: straightened, the session is seen exactly alike.
   */
  lemma {:induction false} DeferralReorders(xs: seq<Arrival>, early: bool)
    ensures Alike(Run(xs, early), Run(Straightened(xs, early), early))
  {
    if xs != [] {
      hide Handled, SecondHalf, Deferred, Visible;
      var before, x := xs[..|xs| - 1], xs[|xs| - 1];
      var s, ys := Run(before, early), Straightened(before, early);
      var t := Run(ys, early);
      DeferralReorders(before, early);
      RunTwo(ys, x, Message(Reset(if s.phase.Awaiting? && s.phase.kept.Some? then s.phase.kept.value else 0)), early);
      if s.phase.Ended? || x.Silence? {
        assert Straightened(xs, early) == ys;
      } else if s.phase.Ready? && x.Message? {
        ReadyAlike(s, t, x.m, early);
      } else if x.Message? && x.m.Go? {
        GoAlike(s, t, early);
        assert s.phase.kept.None? ==> Straightened(xs, early) == ys + [x];
        assert s.phase.kept.Some? ==> Straightened(xs, early) == ys + [x, Message(Reset(s.phase.kept.value))];
      } else if x.Message? {
        HeardAlike(s, t, x.m, early);
        assert Straightened(xs, early) == ys;
      }
    }
  }

  ghost predicate EndsInTick(xs: seq<Arrival>) { xs != [] && TwoPhase(xs[|xs| - 1]) }

  lemma StaysStraight(xs: seq<Arrival>, x: Arrival)
    requires Straight(xs) && (EndsInTick(xs) ==> x.Gone? || x == Message(Go))
    ensures Straight(xs + [x]) && (EndsInTick(xs + [x]) <==> TwoPhase(x))
  {
    var all := xs + [x];
    forall k | 0 <= k < |all| - 1 && TwoPhase(all[k]) ensures all[k + 1].Gone? || all[k + 1] == Message(Go) {
      assert k < |xs| - 1 ==> all[k + 1] == xs[k + 1];
    }
  }

  /** Straightened, a session has nothing between a two-phase TICK and its GO. */
  lemma {:induction false} StraightenedIsStraight(xs: seq<Arrival>, early: bool)
    ensures Straight(Straightened(xs, early))
    ensures EndsInTick(Straightened(xs, early)) ==> Run(xs, early).phase.Awaiting?
  {
    if xs != [] {
      var before, x := xs[..|xs| - 1], xs[|xs| - 1];
      StraightenedIsStraight(before, early);
      var s, ys := Run(before, early), Straightened(before, early);
      if s.phase.Ended? || x.Silence? {
        assert Straightened(xs, early) == ys;
      } else {
        StraightStep(s, ys, x, early);
      }
    }
  }

  lemma StraightStep(s: State, ys: seq<Arrival>, x: Arrival, early: bool)
    requires Straight(ys) && (EndsInTick(ys) ==> s.phase.Awaiting?) && !s.phase.Ended? && !x.Silence?
    ensures var zs := ys + if s.phase.Ready? || x.Gone? then [x]
                           else if x.m.Go? then [x] + (if s.phase.kept.Some? then [Message(Reset(s.phase.kept.value))] else [])
                           else [];
            Straight(zs) && (EndsInTick(zs) ==> Step(s, x, early).phase.Awaiting?)
  {
    if s.phase.Ready? || x.Gone? {
      StaysStraight(ys, x);
    } else if x.m.Go? {
      StaysStraight(ys, x);
      if s.phase.kept.Some? {
        var r := Message(Reset(s.phase.kept.value));
        StaysStraight(ys + [x], r);
        assert ys + [x] + [r] == ys + ([x] + [r]);
      } else {
        assert ys + ([x] + []) == ys + [x];
      }
    } else {
      assert ys + [] == ys;
    }
  }
}

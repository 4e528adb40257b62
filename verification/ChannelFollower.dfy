/**
 The dedicated-channel follower: side-band announcements and firmware tasks decide which channel
 the BSP plays, and the follower must stay in agreement with what the BSP was last told.
 */
module ChannelFollower {

  datatype Option<T> = None | Some(value: T)

  datatype Sdcch = Sdcch(tn: int, genre: int, ss: int)

  /** What calypso_bsp_set_dedie was last told; a release before the first call. */
  datatype Channel = Released | OnSdcch(sd: Sdcch) | OnPdch(tn: int) | OnTch(tn: int)

  const KIND_PDCH := 4
  const KIND_RELEASE := 0xFF

  datatype Event =
    | Dcch(seqNo: nat, genre: int, ss: int, tn: int)                // calypso_dcch_cfg
    | TchCfg(seqNo: nat, tn: int)                                   // calypso_tch_cfg
    | Task(taskD: int, taskU: int, tnTpu: int, fn: nat)             // tasks of the announced W page
    | SyncSearch                                                    // an FB or SB task is posted

  predicate IsTchTask(t: int) { t in {13, 14, 28} }

  predicate IsBlockTask(t: int) { t in {24, 26, 27} }

  predicate IsTchKind(genre: int) { genre == 2 || genre == 3 }

  datatype State = State(
    bsp: Channel, dedieArme: bool, surTch: bool,
    sd: Option<Sdcch>,                    // sd_valide, sd_tn, sd_genre, sd_ss
    tchTn: int, dcchSeq: nat, tchSeq: nat,
    attenteUl: bool, attenteFn: nat)      // TI firmware only

  const INITIAL := State(Released, false, false, None, 0, 0, 0, false, 0)

  // ----- the follower on values -----

  function Release(s: State): State { s.(bsp := Released, dedieArme := false, surTch := false) }

  function RevenirSdcch(s: State): State
  {
    match s.sd
    case Some(sd) => s.(surTch := false, bsp := OnSdcch(sd), dedieArme := true)
    case None => Release(s)
  }

  function DcchStep(s: State, genre: int, ss: int, tn: int): State
  {
    if genre == KIND_PDCH then s.(bsp := OnPdch(tn), dedieArme := true)
    else if IsTchKind(genre) then (if s.tchTn == 0 && 1 <= tn <= 7 then s.(tchTn := tn) else s)
    else if genre == KIND_RELEASE then Release(s).(sd := None)
    else
      var r := s.(sd := Some(Sdcch(tn, genre, ss)));
      if s.surTch then r else r.(bsp := OnSdcch(Sdcch(tn, genre, ss)), dedieArme := true)
  }

  function TchStep(s: State, seqNo: nat, tn: int): State
  {
    if seqNo == 0 then (if s.surTch then Release(s.(tchTn := 0)) else s.(tchTn := 0))
    else if tn <= 0 || tn > 7 then (if s.surTch then RevenirSdcch(s.(tchTn := 0)) else s.(tchTn := 0))
    else s.(tchTn := tn)
  }

  function TaskStep(s: State, ti: bool, e: Event): State
    requires e.Task?
  {
    if IsTchTask(e.taskD) && !s.surTch then
      var tn := if s.tchTn == 0 && 1 <= e.tnTpu <= 7 then e.tnTpu else s.tchTn;
      if tn == 0 then s else s.(tchTn := tn, bsp := OnTch(tn), surTch := true, dedieArme := true)
    else if IsBlockTask(e.taskD) && s.surTch then
      if !ti then RevenirSdcch(s) else Release(s).(attenteUl := s.sd.Some?, attenteFn := e.fn)
    else if s.attenteUl then
      if e.taskU != 0 then RevenirSdcch(s.(attenteUl := false))
      else if (e.fn - s.attenteFn) % 0x1_0000_0000 > 102 then s.(attenteUl := false)
      else s
    else s
  }

  function Step(s: State, ti: bool, e: Event): State
  {
    match e
    case Dcch(seqNo, genre, ss, tn) =>
      if seqNo == 0 || seqNo == s.dcchSeq then s else DcchStep(s.(dcchSeq := seqNo), genre, ss, tn)
    case TchCfg(seqNo, tn) => if seqNo == s.tchSeq then s else TchStep(s.(tchSeq := seqNo), seqNo, tn)
    case Task(_, _, _, _) => TaskStep(s, ti, e)
    case SyncSearch => if s.dedieArme then Release(s).(sd := None) else s
  }

  function Run(ti: bool, events: seq<Event>): State
  {
    if events == [] then INITIAL else Step(Run(ti, events[..|events| - 1]), ti, events[|events| - 1])
  }

  // ----- the follower as the source has it -----

  class Follower {
    const ti: bool
    var dedieArme: bool
    var sdTn: int
    var sdGenre: int
    var sdSs: int
    var sdValide: bool
    var tchTn: int
    var surTch: bool
    var dcchSeq: nat
    var tchSeq: nat
    var attenteUl: bool
    var attenteFn: nat
    ghost var bsp: Channel

    ghost function View(): State
      reads this
    {
      State(bsp, dedieArme, surTch, if sdValide then Some(Sdcch(sdTn, sdGenre, sdSs)) else None,
            tchTn, dcchSeq, tchSeq, attenteUl, attenteFn)
    }

    constructor (ti: bool)
      ensures View() == INITIAL && this.ti == ti
    {
      this.ti := ti;
      dedieArme, surTch, sdValide, attenteUl := false, false, false, false;
      sdTn, sdGenre, sdSs, tchTn, dcchSeq, tchSeq, attenteFn := 0, 0, 0, 0, 0, 0, 0;
      bsp := Released;
    }

    /** calypso_bsp_set_dedie. */
    method SetDedie(tn: int, genre: int, ss: int)
      modifies this`bsp
      ensures bsp == if genre == KIND_RELEASE then Released else if genre == KIND_PDCH then OnPdch(tn)
                     else if genre == 2 then OnTch(tn) else OnSdcch(Sdcch(tn, genre, ss))
    {
      bsp := if genre == KIND_RELEASE then Released else if genre == KIND_PDCH then OnPdch(tn)
             else if genre == 2 then OnTch(tn) else OnSdcch(Sdcch(tn, genre, ss));
    }

    /** What is remembered is never a TCH, a PDCH or a release. */
    ghost predicate Valid()
      reads this
    {
      sdValide ==> !IsTchKind(sdGenre) && sdGenre != KIND_PDCH && sdGenre != KIND_RELEASE
    }

    method ScruterDcch(seqNo: nat, genre: int, ss: int, tn: int)
      requires Valid()
      modifies this
      ensures Valid() && View() == Step(old(View()), ti, Dcch(seqNo, genre, ss, tn))
    {
      if seqNo == 0 || seqNo == dcchSeq { return; }
      dcchSeq := seqNo;
      if genre == KIND_PDCH {
        SetDedie(tn, 4, 0);
        dedieArme := true;
        return;
      }
      if genre == 2 || genre == 3 {
        if tchTn == 0 && tn >= 1 && tn <= 7 { tchTn := tn; }
        return;
      }
      if genre == KIND_RELEASE {
        SetDedie(0, 0xFF, 0);
        dedieArme := false;
        sdValide := false;
        surTch := false;
        return;
      }
      sdTn, sdGenre, sdSs, sdValide := tn, genre, ss, true;
      if surTch { return; }
      SetDedie(tn, genre, ss);
      dedieArme := true;
    }

    method Revenir()
      requires Valid()
      modifies this
      ensures Valid() && View() == RevenirSdcch(old(View()))
    {
      surTch := false;
      if sdValide {
        SetDedie(sdTn, sdGenre, sdSs);
        dedieArme := true;
      } else {
        SetDedie(0, 0xFF, 0);
        dedieArme := false;
      }
    }

    method ScruterTch(seqNo: nat, tn: int)
      requires Valid()
      modifies this
      ensures Valid() && View() == Step(old(View()), ti, TchCfg(seqNo, tn))
    {
      if seqNo == tchSeq { return; }
      tchSeq := seqNo;
      if seqNo == 0 {
        tchTn := 0;
        if surTch {
          SetDedie(0, 0xFF, 0);
          surTch := false;
          dedieArme := false;
        }
        return;
      }
      if tn <= 0 || tn > 7 {
        tchTn := 0;
        if surTch { Revenir(); }
        return;
      }
      tchTn := tn;
    }

    method SuivreTacheTch(taskD: int, taskU: int, tnTpu: int, fn: nat)
      requires Valid()
      modifies this
      ensures Valid() && View() == Step(old(View()), ti, Task(taskD, taskU, tnTpu, fn))
    {
      if IsTchTask(taskD) && !surTch {
        if tchTn == 0 {
          if tnTpu >= 1 && tnTpu <= 7 { tchTn := tnTpu; } else { return; }
        }
        SetDedie(tchTn, 2, 0);
        surTch := true;
        dedieArme := true;
        return;
      }
      if IsBlockTask(taskD) && surTch {
        if !ti {
          Revenir();
        } else {
          surTch := false;
          dedieArme := false;
          SetDedie(0, 0xFF, 0);
          attenteUl := sdValide;
          attenteFn := fn;
        }
        return;
      }
      if attenteUl {
        if taskU != 0 {
          attenteUl := false;
          Revenir();
        } else if (fn - attenteFn) % 0x1_0000_0000 > 102 {
          attenteUl := false;
        }
      }
    }

    /** The end of montant_scruter: an FB or SB task means the mobile searches for sync. */
    method LibererSurSynchro()
      requires Valid()
      modifies this
      ensures Valid() && View() == Step(old(View()), ti, SyncSearch)
    {
      if dedieArme {
        dedieArme := false;
        surTch := false;
        sdValide := false;
        SetDedie(0, 0xFF, 0);
      }
    }
  }

  // ----- agreement with the BSP -----

  predicate Agrees(s: State, ti: bool)
  {
    && (s.dedieArme <==> s.bsp != Released)
    && (s.surTch ==> s.bsp.OnTch? || s.bsp.OnPdch?)
    && (s.bsp.OnTch? ==> s.surTch)
    && (s.attenteUl ==> ti)
    && 0 <= s.tchTn <= 7
  }

  /**
   For every sequence of announcements, tasks and sync searches: dedie_arme says exactly whether
   the last word to the BSP was a channel, sur_tch implies it, and the BSP is on a TCH only then.
   */
  lemma {:induction false} FollowerAgrees(ti: bool, events: seq<Event>)
    ensures Agrees(Run(ti, events), ti)
    ensures Run(ti, events).surTch ==> Run(ti, events).dedieArme
  {
    if events != [] { FollowerAgrees(ti, events[..|events| - 1]); }
  }

  /**
   Every way off a TCH gives the BSP either a release, when the channel is released, when a sync
   search is seen, or when the TI firmware reads a block; or exactly the remembered SDCCH.
   */
  lemma ReturnFromTch(ti: bool, events: seq<Event>, e: Event)
    requires Run(ti, events).surTch && !Step(Run(ti, events), ti, e).surTch
    ensures var s := Run(ti, events);
            var released := e.SyncSearch? || e.Dcch? || (e.TchCfg? && e.seqNo == 0)
                            || (ti && e.Task? && IsBlockTask(e.taskD)) || s.sd.None?;
            Step(s, ti, e).bsp == if released then Released else OnSdcch(s.sd.value)
  {
  }

  // ----- which channel the BSP is told -----

  /** An announcement that the follower has not seen yet. */
  predicate IsNews(s: State, e: Event) { e.Dcch? && e.seqNo != 0 && e.seqNo != s.dcchSeq }

  predicate IsTchNews(s: State, e: Event) { e.TchCfg? && e.seqNo != s.tchSeq }

  /** The timeslot of the PDCH announced last. */
  function LastPdch(ti: bool, events: seq<Event>): Option<int>
  {
    if events == [] then None
    else
      var rest, e := events[..|events| - 1], events[|events| - 1];
      if IsNews(Run(ti, rest), e) && e.genre == KIND_PDCH then Some(e.tn) else LastPdch(ti, rest)
  }

  predicate IsTimeslot(tn: int) { 1 <= tn <= 7 }

  /**
   The TCH timeslot an observer knows of: a configuration gives or withdraws it; while none is known,
   the announcement of a TCH or the TPU window of a TCH task gives one.
   */
  function TchTimeslot(ti: bool, events: seq<Event>): Option<int>
  {
    if events == [] then None
    else
      var rest, e := events[..|events| - 1], events[|events| - 1];
      var s, known := Run(ti, rest), TchTimeslot(ti, rest);
      if IsTchNews(s, e) then (if e.seqNo != 0 && IsTimeslot(e.tn) then Some(e.tn) else None)
      else if known.Some? then known
      else if IsNews(s, e) && IsTchKind(e.genre) && IsTimeslot(e.tn) then Some(e.tn)
      else if e.Task? && IsTchTask(e.taskD) && !s.surTch && IsTimeslot(e.tnTpu) then Some(e.tnTpu)
      else None
  }

  /** What the BSP was told last: an SDCCH is the one remembered, a PDCH is on the timeslot it was last announced on. */
  lemma {:induction false} BspIsToldTheRightChannel(ti: bool, events: seq<Event>)
    ensures var s := Run(ti, events);
            && (s.bsp.OnSdcch? ==> s.sd == Some(s.bsp.sd))
            && (s.bsp.OnPdch? ==> LastPdch(ti, events) == Some(s.bsp.tn))
  {
    if events != [] {
      var rest := events[..|events| - 1];
      BspIsToldTheRightChannel(ti, rest);
      FollowerAgrees(ti, rest);
    }
  }

  /** The timeslot the follower goes by is the one an observer knows of. */
  lemma {:induction false} TimeslotIsKnown(ti: bool, events: seq<Event>)
    ensures var s := Run(ti, events);
            && 0 <= s.tchTn <= 7
            && TchTimeslot(ti, events) == if s.tchTn == 0 then None else Some(s.tchTn)
  {
    if events != [] { TimeslotIsKnown(ti, events[..|events| - 1]); }
  }

  /** An announcement not seen yet is told to the BSP as it came, unless the firmware is on a TCH or it names one. */
  lemma AnnouncementIsTold(ti: bool, events: seq<Event>, e: Event)
    requires IsNews(Run(ti, events), e)
    ensures var s := Run(ti, events);
            Step(s, ti, e).bsp ==
            if e.genre == KIND_RELEASE then Released
            else if e.genre == KIND_PDCH then OnPdch(e.tn)
            else if IsTchKind(e.genre) || s.surTch then s.bsp
            else OnSdcch(Sdcch(e.tn, e.genre, e.ss))
  {
  }

  /**
   A TCH task off the TCH puts the BSP on the timeslot known, or on that of the TPU window when none
   is; it changes nothing when there is neither.
   */
  lemma TchTaskIsFollowed(ti: bool, events: seq<Event>, e: Event)
    requires e.Task? && IsTchTask(e.taskD) && !Run(ti, events).surTch
    ensures var s, known := Run(ti, events), TchTimeslot(ti, events);
            if known.Some? then Step(s, ti, e).bsp == OnTch(known.value) && Step(s, ti, e).surTch
            else if IsTimeslot(e.tnTpu) then Step(s, ti, e).bsp == OnTch(e.tnTpu) && Step(s, ti, e).surTch
            else Step(s, ti, e) == s
  {
    TimeslotIsKnown(ti, events);
  }

  /**
   The BSP leaves a TCH exactly at the release of the dedicated channel, the withdrawal of the TCH, a
   block task, the uplink task a TI wait was for, or a sync search.
   */
  lemma TchIsLeftWhen(ti: bool, events: seq<Event>, e: Event)
    requires Run(ti, events).surTch
    ensures var s := Run(ti, events);
            !Step(s, ti, e).surTch <==>
              || e.SyncSearch?
              || (IsNews(s, e) && e.genre == KIND_RELEASE)
              || (IsTchNews(s, e) && (e.seqNo == 0 || !IsTimeslot(e.tn)))
              || (e.Task? && IsBlockTask(e.taskD))
              || (e.Task? && s.attenteUl && e.taskU != 0)
  {
    FollowerAgrees(ti, events);
  }

  /** A sync search releases whatever channel the BSP was on. */
  lemma SyncSearchReleases(ti: bool, events: seq<Event>)
    ensures Step(Run(ti, events), ti, SyncSearch).bsp == Released
  {
    FollowerAgrees(ti, events);
  }

  /** The frame of the last block task that took the BSP off a TCH. */
  function LeftTchAt(ti: bool, events: seq<Event>): Option<nat>
  {
    if events == [] then None
    else
      var rest, e := events[..|events| - 1], events[|events| - 1];
      if e.Task? && IsBlockTask(e.taskD) && Run(ti, rest).surTch then Some(e.fn) else LeftTchAt(ti, rest)
  }

  lemma {:induction false} WaitBeginsAtTheBlockTask(ti: bool, events: seq<Event>)
    ensures Run(ti, events).attenteUl ==> ti && LeftTchAt(ti, events) == Some(Run(ti, events).attenteFn)
  {
    if events != [] { WaitBeginsAtTheBlockTask(ti, events[..|events| - 1]); }
  }

  /**
   The TI wait: off the TCH, the first uplink task posted while it lasts brings the SDCCH back, and the
   first task without one that comes more than 102 frames after the block task ends it.
   */
  lemma TiWait(events: seq<Event>, e: Event)
    requires Run(true, events).attenteUl && e.Task? && !Run(true, events).surTch && !IsTchTask(e.taskD)
    ensures LeftTchAt(true, events).Some?
    ensures var s, r := Run(true, events), Step(Run(true, events), true, e);
            if e.taskU != 0 then !r.attenteUl && r.bsp == if s.sd.Some? then OnSdcch(s.sd.value) else Released
            else r.bsp == s.bsp && (r.attenteUl <==> (e.fn - LeftTchAt(true, events).value) % 0x1_0000_0000 <= 102)
  {
    WaitBeginsAtTheBlockTask(true, events);
  }

  // ----- what is remembered -----

  /** The SDCCH last announced since the last release or sync search, as an observer notes it. */
  function Noted(noted: Option<Sdcch>, s: State, e: Event): Option<Sdcch>
  {
    if e.SyncSearch? then None
    else if IsNews(s, e) && e.genre == KIND_RELEASE then None
    else if IsNews(s, e) && e.genre != KIND_PDCH && !IsTchKind(e.genre) then Some(Sdcch(e.tn, e.genre, e.ss))
    else noted
  }

  function NotedBy(ti: bool, events: seq<Event>): Option<Sdcch>
  {
    if events == [] then None
    else
      var rest := events[..|events| - 1];
      Noted(NotedBy(ti, rest), Run(ti, rest), events[|events| - 1])
  }

  /** A sync search the follower ignores although it remembers an SDCCH: the BSP is released already. */
  predicate Overlooked(s: State, e: Event) { e.SyncSearch? && !s.dedieArme && s.sd.Some? }

  /** One event keeps the memory right exactly when it is not an overlooked sync search. */
  lemma MemoryStep(s: State, ti: bool, e: Event)
    ensures Step(s, ti, e).sd == Noted(s.sd, s, e) <==> !Overlooked(s, e)
  {
  }

  /** An overlooked sync search, and since then no SDCCH, no release and no search that was heeded. */
  predicate Stale(ti: bool, events: seq<Event>)
  {
    if events == [] then false
    else
      var rest, e := events[..|events| - 1], events[|events| - 1];
      var s := Run(ti, rest);
      if Overlooked(s, e) then true
      else if e.SyncSearch? || (IsNews(s, e) && e.genre != KIND_PDCH && !IsTchKind(e.genre)) then false
      else Stale(ti, rest)
  }

  /**
   TCH and PDCH announcements, tasks and returns leave the memory alone: over every run, what is
   remembered is the SDCCH last announced since the last release or sync search, if and only if the
   memory is not stale; and a stale one remembers an SDCCH where nothing should be.
   */
  lemma {:induction false} RemembersTheLastSdcch(ti: bool, events: seq<Event>)
    ensures Run(ti, events).sd == NotedBy(ti, events) <==> !Stale(ti, events)
    ensures Stale(ti, events) ==> Run(ti, events).sd.Some? && NotedBy(ti, events) == None
  {
    if events != [] { RemembersTheLastSdcch(ti, events[..|events| - 1]); }
  }

  /** What the BSP ought to be told on the way back from a TCH. */
  function Proper(noted: Option<Sdcch>): Channel { if noted.Some? then OnSdcch(noted.value) else Released }

  /** The event takes the follower off the TCH without the channel being given up. */
  predicate GoesBack(ti: bool, e: Event)
  {
    (e.TchCfg? && e.seqNo != 0) || (!ti && e.Task?) || (e.Task? && !IsBlockTask(e.taskD))
  }

  /**
   A return from a TCH hands the BSP exactly the SDCCH last announced since the last release or sync
   search, a release if there is none, if and only if the memory is not stale.
   */
  lemma ReturnHandsOutTheLastSdcch(ti: bool, events: seq<Event>, e: Event)
    requires Run(ti, events).surTch && !Step(Run(ti, events), ti, e).surTch && GoesBack(ti, e)
    ensures Step(Run(ti, events), ti, e).bsp == Proper(NotedBy(ti, events)) <==> !Stale(ti, events)
  {
    RemembersTheLastSdcch(ti, events);
    ReturnFromTch(ti, events, e);
  }

  /**
   The only events after which an SDCCH is remembered while the BSP is released: the full release
   of a TCH (sequence number 0), or a block task under the TI firmware.
   */
  lemma HowTheSdcchOutlivesTheChannel(s: State, ti: bool, e: Event)
    requires Agrees(s, ti) && (s.dedieArme || s.sd.None?)
    ensures var r := Step(s, ti, e);
            (!r.dedieArme && r.sd.Some?) <==>
              s.surTch && s.sd.Some? && ((e.TchCfg? && e.seqNo == 0 && s.tchSeq != 0) || (ti && e.Task? && IsBlockTask(e.taskD)))
  {
  }

  lemma RunSnoc(ti: bool, events: seq<Event>, e: Event)
    ensures Run(ti, events + [e]) == Step(Run(ti, events), ti, e)
    ensures Stale(ti, events + [e]) ==
            (Overlooked(Run(ti, events), e)
             || (!e.SyncSearch? && !(IsNews(Run(ti, events), e) && e.genre != KIND_PDCH && !IsTchKind(e.genre)) && Stale(ti, events)))
  {
    assert (events + [e])[..|events|] == events;
  }

  /**
   How a memory gets stale from power-up on: an SDCCH is announced, then a TCH, the TCH is entered and
   fully released, and the mobile searches for sync. A new TCH is announced and left: the BSP is
   handed the SDCCH announced before the search.
   */
  lemma StaleSdcchComesBack(sd: Sdcch, tn: int, fn: nat)
    requires sd.genre != KIND_PDCH && !IsTchKind(sd.genre) && sd.genre != KIND_RELEASE && 1 <= tn <= 7
    ensures var search := [Dcch(1, sd.genre, sd.ss, sd.tn), TchCfg(1, tn), Task(13, 0, 0, fn), TchCfg(0, 0)] + [SyncSearch];
            var again := search + [TchCfg(2, tn)] + [Task(13, 0, 0, fn)];
            && Stale(false, search)
            && Run(false, again).bsp == OnTch(tn) && Stale(false, again)
            && Run(false, again + [Task(24, 0, 0, fn)]).bsp == OnSdcch(sd)
  {
    var e0, e1, e2, e3 := Dcch(1, sd.genre, sd.ss, sd.tn), TchCfg(1, tn), Task(13, 0, 0, fn), TchCfg(0, 0);
    RunSnoc(false, [], e0);
    RunSnoc(false, [] + [e0], e1);
    RunSnoc(false, [] + [e0] + [e1], e2);
    RunSnoc(false, [] + [e0] + [e1] + [e2], e3);
    assert [] + [e0] + [e1] + [e2] + [e3] == [e0, e1, e2, e3];
    RunSnoc(false, [e0, e1, e2, e3], SyncSearch);
    var search := [e0, e1, e2, e3] + [SyncSearch];
    RunSnoc(false, search, TchCfg(2, tn));
    RunSnoc(false, search + [TchCfg(2, tn)], e2);
    RunSnoc(false, search + [TchCfg(2, tn)] + [e2], Task(24, 0, 0, fn));
  }

  /**
   While the firmware posts TCH tasks the BSP stays on the TCH, except under the TI firmware when
   the wait for an uplink task, begun at an earlier return, is still on and such a task is posted.
   */
  lemma TchTaskStaysOnTch(ti: bool, events: seq<Event>, e: Event)
    requires Run(ti, events).surTch && e.Task? && IsTchTask(e.taskD)
    ensures var s := Run(ti, events);
            && (Step(s, ti, e).surTch <==> !(s.attenteUl && e.taskU != 0))
            && (Step(s, ti, e).bsp == s.bsp <==> !(s.attenteUl && e.taskU != 0))
            && (s.attenteUl ==> ti)
  {
    FollowerAgrees(ti, events);
  }

  /**
   And such a wait does survive the return to a TCH. From power-up: an SDCCH and a TCH are announced,
   the TCH is entered, left by a block task and entered again; then the next uplink task throws the BSP
   off the TCH the firmware is working on.
   */
  lemma TiWaitSurvivesReentry(sd: Sdcch, tn: int, fn: nat, u: int)
    requires sd.genre != KIND_PDCH && !IsTchKind(sd.genre) && sd.genre != KIND_RELEASE && 1 <= tn <= 7 && u != 0
    ensures var left := [Dcch(1, sd.genre, sd.ss, sd.tn), TchCfg(1, tn), Task(13, 0, 0, fn), Task(24, 0, 0, fn + 1)];
            var back := left + [Task(13, 0, 0, fn + 2)];
            && Run(true, left).bsp == Released && Run(true, left).attenteUl
            && Run(true, back).bsp == OnTch(tn) && Run(true, back).attenteUl
            && Run(true, back + [Task(13, u, 0, fn + 3)]).bsp == OnSdcch(sd)
  {
    var e0, e1, e2, e3 := Dcch(1, sd.genre, sd.ss, sd.tn), TchCfg(1, tn), Task(13, 0, 0, fn), Task(24, 0, 0, fn + 1);
    RunSnoc(true, [], e0);
    RunSnoc(true, [] + [e0], e1);
    RunSnoc(true, [] + [e0] + [e1], e2);
    RunSnoc(true, [] + [e0] + [e1] + [e2], e3);
    assert [] + [e0] + [e1] + [e2] + [e3] == [e0, e1, e2, e3];
    RunSnoc(true, [e0, e1, e2, e3], Task(13, 0, 0, fn + 2));
    RunSnoc(true, [e0, e1, e2, e3] + [Task(13, 0, 0, fn + 2)], Task(13, u, 0, fn + 3));
  }
}

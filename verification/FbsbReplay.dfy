/**
 The replayed ARM of the FB/SB acquisition: a 32-slot work list whose callbacks reset and refill
 the very list being scanned. The list is proved to be, at all times, one plan minus what has
 already run; on plans, the absence of stalls and the retry bounds are proved for all DSP answers.
 */
module FbsbReplay {

  const SLOTS: nat := 32
  const FB0_RETRY_MAX: nat := 3
  const AFC_RETRY_MAX: nat := 30

  datatype Callback = NoCb | FbCmd | FbResp | SbCmd | SbResp

  datatype Entry = Entry(frame: int, cb: Callback, attempt: int)

  /** What the DSP has for the ARM in one frame. */
  datatype FbAnswer = NoFb | Fb(freq: int, toa: int)
  datatype SbAnswer = CrcBad | CrcOk(genuine: bool)

  datatype Answer = Answer(fb: FbAnswer, sb: SbAnswer)

  /** REJEU_SB_UNIQUE, REJEU_ARRET_1ER, REJEU_CONTINUER. */
  datatype Config = Config(sbUnique: bool, stopFirst: bool, carryOn: bool)

  // ----- plans -----

  /** An FB search or an SB attempt, by the frame of its first command. */
  datatype Plan = NoPlan | FbPlan(base: int) | SbPlan(base: int)

  function Planned(p: Plan, cfg: Config): seq<Entry>
  {
    match p
    case NoPlan => []
    case FbPlan(b) => [Entry(b, FbCmd, 0)] + seq(12, a requires 0 <= a < 12 => Entry(b + 2 + a, FbResp, a + 1))
    case SbPlan(b) =>
      if cfg.sbUnique then [Entry(b, SbCmd, 1), Entry(b + 3, SbResp, 1)]
      else [Entry(b, SbCmd, 1), Entry(b + 1, SbCmd, 2), Entry(b + 3, SbResp, 1), Entry(b + 4, SbResp, 2)]
  }

  /** A list of entries with those before frame fn already taken. */
  function AsOf(es: seq<Entry>, fn: int): (r: seq<Entry>)
    ensures |r| == |es|
  {
    seq(|es|, k requires 0 <= k < |es| => if es[k].frame < fn then es[k].(cb := NoCb) else es[k])
  }

  ghost predicate Increasing(es: seq<Entry>) { forall i, j :: 0 <= i < j < |es| ==> es[i].frame < es[j].frame }

  lemma PlannedIsIncreasing(p: Plan, cfg: Config)
    ensures Increasing(Planned(p, cfg)) && |Planned(p, cfg)| <= 13
    ensures forall k :: 0 <= k < |Planned(p, cfg)| ==> Planned(p, cfg)[k].cb != NoCb
    ensures !p.NoPlan? ==> forall k :: 0 <= k < |Planned(p, cfg)| ==> p.base <= Planned(p, cfg)[k].frame
  {
  }

  // ----- the machine on plans -----

  datatype State = State(
    plan: Plan, fbMode: int, afcRetries: nat, fb0Retries: nat, verdict: int, afcDac: int,
    exhausted: nat, offTune: nat)    // FB searches without a detection, and mode-0 detections off frequency

  function Abs(x: int): int { if x < 0 then -x else x }

  /** C division: the quotient is truncated toward zero. */
  function Quot(a: int, b: int): int
    requires b > 0
  {
    if a >= 0 then a / b else -((-a) / b)
  }

  /** afc_correct, clamped to the DAC's range. */
  function AfcCorrect(dac: int, freq: int): (r: int)
    ensures -4096 <= r <= 4095
  {
    var d := dac + Quot((32768 / 947) * freq, 287);
    if d > 4095 then 4095 else if d < -4096 then -4096 else d
  }

  /** Frames from an FB1 response to the SB command, clamped to 0..20. */
  function SbDelay(attempt: int, toa: int): int
  {
    var t := toa - 23;
    var ntdma := if t < 0 then -1 else t / 1250;
    var delay := 10 - attempt + ntdma;
    if delay < 0 then 0 else if delay > 20 then 20 else delay
  }

  function PlanFb(s: State, fn: int, mode: int): State { s.(plan := FbPlan(fn + 1), fbMode := mode) }

  function FbResponse(s: State, fn: int, attempt: int, a: FbAnswer): State
  {
    match a
    case NoFb =>
      if attempt < 12 then s
      else
        var r := s.(exhausted := s.exhausted + 1);
        if s.fb0Retries < FB0_RETRY_MAX then PlanFb(r.(fb0Retries := s.fb0Retries + 1), fn, 0)
        else r.(plan := NoPlan, verdict := -1)
    case Fb(freq, toa) =>
      var r := s.(afcDac := AfcCorrect(s.afcDac, freq));
      if s.fbMode == 0 then
        if Abs(freq) < 10000 then PlanFb(r, fn, 1)
        else
          var o := r.(offTune := s.offTune + 1);
          if s.afcRetries < AFC_RETRY_MAX then PlanFb(o.(afcRetries := s.afcRetries + 1), fn, 0)
          else o.(plan := NoPlan, verdict := -1)
      else if Abs(freq) < 800 then r.(plan := SbPlan(fn + SbDelay(attempt, toa)))
      else PlanFb(r, fn, 1)
  }

  function SbResponse(s: State, cfg: Config, fn: int, attempt: int, a: SbAnswer): State
  {
    match a
    case CrcBad => if attempt == (if cfg.sbUnique then 1 else 2) then PlanFb(s, fn, 0) else s
    case CrcOk(genuine) => if cfg.stopFirst || (genuine && !cfg.carryOn) then s.(verdict := 1) else PlanFb(s, fn, 0)
  }

  function Called(s: State, cfg: Config, fn: int, e: Entry, a: Answer): State
  {
    match e.cb
    case FbResp => FbResponse(s, fn, e.attempt, a.fb)
    case SbResp => SbResponse(s, cfg, fn, e.attempt, a.sb)
    case _ => s
  }

  /** The entry of the plan due in frame fn, if any. */
  function DueEntry(p: Plan, cfg: Config, fn: int): (r: Entry)
    ensures r.cb == NoCb || r in Planned(p, cfg)
    ensures r.cb == NoCb || r.frame == fn
  {
    var none := Entry(fn, NoCb, 0);
    match p
    case NoPlan => none
    case FbPlan(b) =>
      if fn == b then Planned(p, cfg)[0]
      else if b + 2 <= fn <= b + 13 then Planned(p, cfg)[fn - b - 1]
      else none
    case SbPlan(b) =>
      if fn == b then Planned(p, cfg)[0]
      else if fn == b + 1 && !cfg.sbUnique then Planned(p, cfg)[1]
      else if fn == b + 3 then Planned(p, cfg)[if cfg.sbUnique then 1 else 2]
      else if fn == b + 4 && !cfg.sbUnique then Planned(p, cfg)[3]
      else none
  }

  /**
   One frame. A plan made for the current frame (an SB attempt with no delay) starts with a
   command, which changes nothing here but is not left behind.
   */
  function FrameStep(s: State, cfg: Config, fn: int, a: Answer): State
  {
    Called(s, cfg, fn, DueEntry(s.plan, cfg, fn), a)
  }

  /** The callback leaves the work list alone: a command, an early miss, or the end of the run. */
  predicate Kept(cfg: Config, e: Entry, a: Answer)
  {
    match e.cb
    case FbResp => a.fb.NoFb? && e.attempt < 12
    case SbResp =>
      if a.sb.CrcBad? then e.attempt != if cfg.sbUnique then 1 else 2
      else cfg.stopFirst || (a.sb.genuine && !cfg.carryOn)
    case _ => true
  }

  lemma DueIsUnique(p: Plan, cfg: Config, fn: int, k: nat)
    requires k < |Planned(p, cfg)| && Planned(p, cfg)[k].frame == fn
    ensures Planned(p, cfg)[k] == DueEntry(p, cfg, fn)
  {
    PlannedIsIncreasing(p, cfg);
  }

  lemma NothingDue(p: Plan, cfg: Config, fn: int)
    requires DueEntry(p, cfg, fn).cb == NoCb
    ensures forall k :: 0 <= k < |Planned(p, cfg)| ==> Planned(p, cfg)[k].frame != fn
  {
    forall k | 0 <= k < |Planned(p, cfg)| && Planned(p, cfg)[k].frame == fn ensures false {
      DueIsUnique(p, cfg, fn, k);
    }
  }

  lemma FbPlanIs(b: int, cfg: Config)
    ensures var es := Planned(FbPlan(b), cfg);
            && |es| == 13 && es[0] == Entry(b, FbCmd, 0)
            && forall k :: 1 <= k < 13 ==> es[k] == Entry(b + 1 + k, FbResp, k)
  {
  }

  lemma NothingPlanned(cfg: Config)
    ensures Planned(NoPlan, cfg) == []
  {
  }

  // ----- the class -----

  class Replay {
    const cfg: Config
    var sched: array<Entry>
    var nSched: nat
    var fnCur: nat
    var fbMode: int
    var afcRetries: nat
    var fb0Retries: nat
    var verdict: int
    var afcDac: int
    ghost var plan: Plan
    ghost var exhausted: nat
    ghost var offTune: nat

    ghost predicate Valid()
      reads this
    {
      sched.Length == SLOTS && nSched <= SLOTS
    }

    ghost function Content(): seq<Entry>
      requires Valid()
      reads this, sched
    {
      sched[..nSched]
    }

    ghost function View(): State
      reads this
    {
      State(plan, fbMode, afcRetries, fb0Retries, verdict, afcDac, exhausted, offTune)
    }

    method PlanEntry(delay: int, cb: Callback, attempt: int)
      requires Valid()
      modifies this`nSched, sched
      ensures Valid() && nSched == if old(nSched) < SLOTS then old(nSched) + 1 else old(nSched)
      ensures Content() == if old(nSched) < SLOTS then old(Content()) + [Entry(fnCur + delay, cb, attempt)] else old(Content())
    {
      if nSched >= SLOTS { return; }
      sched[nSched] := Entry(fnCur + delay, cb, attempt);
      nSched := nSched + 1;
    }

    method SchedReset()
      requires Valid()
      modifies this`nSched
      ensures Valid() && Content() == []
    {
      nSched := 0;
    }

    method PlanFbSet(delay: int, mode: int)
      requires Valid() && nSched + 13 <= SLOTS
      modifies this`nSched, this`fbMode, sched
      ensures Valid() && fbMode == mode
      ensures Content() == old(Content()) + Planned(FbPlan(fnCur + delay), cfg)
    {
      ghost var planned := Planned(FbPlan(fnCur + delay), cfg);
      FbPlanIs(fnCur + delay, cfg);
      hide Planned;
      fbMode := mode;
      PlanEntry(delay + 0, FbCmd, 0);
      assert planned[..1] == [planned[0]];
      for a := 1 to 13
        invariant Valid() && nSched == old(nSched) + a && fbMode == mode
        invariant Content() == old(Content()) + planned[..a]
      {
        ghost var before := Content();
        PlanEntry(delay + 1 + a, FbResp, a);
        assert Content() == before + [planned[a]];
        assert planned[..a + 1] == planned[..a] + [planned[a]];
      }
      assert planned[..13] == planned;
    }

    method PlanSbSet(delay: int)
      requires Valid() && nSched + 4 <= SLOTS
      modifies this`nSched, sched
      ensures Valid()
      ensures Content() == old(Content()) + Planned(SbPlan(fnCur + delay), cfg)
    {
      PlanEntry(delay + 0, SbCmd, 1);
      if !cfg.sbUnique { PlanEntry(delay + 1, SbCmd, 2); }
      PlanEntry(delay + 3, SbResp, 1);
      if !cfg.sbUnique { PlanEntry(delay + 4, SbResp, 2); }
    }

    /** fbdet_resp: a miss, a mode-0 correction, or the decision after a mode-1 detection. */
    method FbdetResp(attempt: int, a: FbAnswer)
      requires Valid()
      modifies this`nSched, this`fbMode, this`afcRetries, this`fb0Retries, this`verdict, this`afcDac, sched
      modifies this`plan, this`exhausted, this`offTune
      ensures Valid() && View() == FbResponse(old(View()), fnCur, attempt, a)
      ensures Content() == if a.NoFb? && attempt < 12 then old(Content()) else Planned(plan, cfg)
    {
      NothingPlanned(cfg);
      hide Planned;
      if a.NoFb? {
        if attempt < 12 { return; }
        SchedReset();
        exhausted := exhausted + 1;
        if fb0Retries < FB0_RETRY_MAX {
          fb0Retries := fb0Retries + 1;
          PlanFbSet(1, 0);
          plan := FbPlan(fnCur + 1);
        } else {
          verdict := -1;
          plan := NoPlan;
        }
        return;
      }
      afcDac := AfcCorrect(afcDac, a.freq);
      SchedReset();
      if fbMode == 0 {
        if Abs(a.freq) < 10000 {
          PlanFbSet(1, 1);
          plan := FbPlan(fnCur + 1);
        } else {
          offTune := offTune + 1;
          if afcRetries < AFC_RETRY_MAX {
            afcRetries := afcRetries + 1;
            PlanFbSet(1, 0);
            plan := FbPlan(fnCur + 1);
          } else {
            verdict := -1;
            plan := NoPlan;
          }
        }
      } else {
        var toa := a.toa - 23;
        var ntdma := if toa < 0 then -1 else toa / 1250;
        var fnOffset := fnCur - attempt + ntdma;
        var delay := fnOffset + 11 - fnCur - 1;
        if Abs(a.freq) < 800 {
          if delay < 0 { delay := 0; }
          if delay > 20 { delay := 20; }
          PlanSbSet(delay);
          plan := SbPlan(fnCur + delay);
        } else {
          PlanFbSet(1, 1);
          plan := FbPlan(fnCur + 1);
        }
      }
    }

    /** sbdet_resp: a CRC failure counts on the last attempt only; a decode ends the run or restarts. */
    method SbdetResp(attempt: int, a: SbAnswer)
      requires Valid()
      modifies this`nSched, this`fbMode, this`verdict, this`plan, sched
      ensures Valid() && View() == SbResponse(old(View()), cfg, fnCur, attempt, a)
      ensures Content() == if Kept(cfg, Entry(fnCur, SbResp, attempt), Answer(NoFb, a)) then old(Content()) else Planned(plan, cfg)
    {
      if a.CrcBad? {
        if attempt == (if cfg.sbUnique then 1 else 2) {
          SchedReset();
          PlanFbSet(1, 0);
          plan := FbPlan(fnCur + 1);
        }
        return;
      }
      if cfg.stopFirst || (a.genuine && !cfg.carryOn) {
        verdict := 1;
        return;
      }
      SchedReset();
      PlanFbSet(1, 0);
      plan := FbPlan(fnCur + 1);
    }

    method Call(e: Entry, a: Answer)
      requires Valid()
      modifies this`nSched, this`fbMode, this`afcRetries, this`fb0Retries, this`verdict, this`afcDac, sched
      modifies this`plan, this`exhausted, this`offTune
      ensures Valid() && View() == Called(old(View()), cfg, fnCur, e, a)
      ensures Content() == if Kept(cfg, e, a) then old(Content()) else Planned(plan, cfg)
    {
      match e.cb
      case FbResp => FbdetResp(e.attempt, a.fb);
      case SbResp => SbdetResp(e.attempt, a.sb);
      case _ =>
    }

    /** The entry at position i is taken out, then called. */
    method Take(i: nat, a: Answer)
      requires Valid() && i < nSched && verdict == 0
      requires Content() == AsOf(Planned(plan, cfg), fnCur) && Content()[i] == DueEntry(plan, cfg, fnCur)
      modifies this`nSched, this`fbMode, this`afcRetries, this`fb0Retries, this`verdict, this`afcDac, sched
      modifies this`plan, this`exhausted, this`offTune
      ensures Valid()
      ensures var e := DueEntry(old(plan), cfg, fnCur);
              && View() == Called(old(View()), cfg, fnCur, e, a)
              && (verdict == 0 ==>
                    && Content() == AsOf(Planned(plan, cfg), if Kept(cfg, e, a) then fnCur + 1 else fnCur)
                    && NoneDueFrom(Content(), i + 1, fnCur))
    {
      var e := sched[i];
      ghost var p := plan;
      assert e == Content()[i];
      TakenOut(p, cfg, fnCur, i);
      sched[i] := e.(cb := NoCb);
      assert Content() == old(Content())[i := e.(cb := NoCb)];
      Call(e, a);
      if !Kept(cfg, e, a) { FreshPlan(old(View()), cfg, fnCur, e, a); }
    }

    /** One scan of the list, while the callbacks it runs may replace the list under it. */
    method Scan(a: Answer, ghost taken: bool) returns (fait: bool)
      requires Valid() && verdict == 0
      requires Content() == AsOf(Planned(plan, cfg), if taken then fnCur + 1 else fnCur)
      modifies this`nSched, this`fbMode, this`afcRetries, this`fb0Retries, this`verdict, this`afcDac, sched
      modifies this`plan, this`exhausted, this`offTune
      ensures Valid()
      ensures var e := DueEntry(old(plan), cfg, fnCur);
              if taken || e.cb == NoCb then !fait && View() == old(View()) && Content() == old(Content())
              else fait && View() == Called(old(View()), cfg, fnCur, e, a)
                   && (verdict == 0 ==> Content() == AsOf(Planned(plan, cfg), if Kept(cfg, e, a) then fnCur + 1 else fnCur))
    {
      fait := false;
      var i := 0;
      ghost var s, l := View(), Content();
      ghost var due := DueEntry(plan, cfg, fnCur);
      DuePosition(plan, cfg, fnCur, taken);
      hide Called, Planned, DueEntry;
      while i < nSched
        invariant Valid() && i >= 0 && (!fait ==> i <= nSched)
        invariant !fait ==> View() == s && Content() == l && NoneDueUpTo(l, i, fnCur)
        invariant fait ==> verdict == 0 && due.cb != NoCb && !taken && NoneDueFrom(Content(), i, fnCur)
        invariant fait ==> View() == Called(s, cfg, fnCur, due, a)
        invariant fait ==> Content() == AsOf(Planned(plan, cfg), if Kept(cfg, due, a) then fnCur + 1 else fnCur)
        decreases if fait then 0 else 1, nSched - i
      {
        var e := sched[i];
        assert e == Content()[i] && (fait ==> !IsDue(e, fnCur)) && (!fait ==> e == l[i]);
        if e.frame == fnCur && e.cb != NoCb {
          DueIsUnique(plan, cfg, fnCur, i);
          Take(i, a);
          fait := true;
          if verdict != 0 { return; }
        } else if !fait {
          assert !IsDue(l[i], fnCur);
        }
        i := i + 1;
      }
    }

    /**
     l1_sync: scan until nothing is due. Whatever the callbacks do to the list, no entry of this
     frame is left behind, and three of the eight passes are enough.
     */
    method L1Sync(a: Answer) returns (ghost tours: nat)
      requires Valid() && verdict == 0
      requires Content() == AsOf(Planned(plan, cfg), fnCur)
      modifies this`nSched, this`fbMode, this`afcRetries, this`fb0Retries, this`verdict, this`afcDac, sched
      modifies this`plan, this`exhausted, this`offTune
      ensures Valid() && tours <= 3
      ensures View() == FrameStep(old(View()), cfg, fnCur, a)
      ensures verdict == 0 ==> Content() == AsOf(Planned(plan, cfg), fnCur + 1)
    {
      ghost var taken := false;
      ghost var s, due := View(), DueEntry(plan, cfg, fnCur);
      for tour := 0 to 8
        invariant Valid() && verdict == 0 && tour <= 2
        invariant Content() == AsOf(Planned(plan, cfg), if taken then fnCur + 1 else fnCur)
        invariant tour == 0 ==> View() == s && !taken
        invariant tour >= 1 ==> View() == FrameStep(s, cfg, fnCur, a)
        invariant tour >= 1 ==> taken || DueEntry(plan, cfg, fnCur).cb in {NoCb, SbCmd}
        invariant tour == 2 ==> taken
      {
        ghost var e := DueEntry(plan, cfg, fnCur);
        var fait := Scan(a, taken);
        if verdict != 0 { return tour + 1; }
        if !fait {
          if !taken { NothingDueAsOf(plan, cfg, fnCur); }
          return tour + 1;
        }
        if Kept(cfg, e, a) { taken := true; } else { FreshPlanDue(s, cfg, fnCur, e, a); }
      }
    }

    constructor (cfg: Config)
      ensures Valid() && fresh(sched) && fnCur == 0 && this.cfg == cfg
      ensures View() == Initial() && Content() == AsOf(Planned(plan, cfg), 0)
    {
      this.cfg := cfg;
      sched := new Entry[SLOTS](_ => Entry(0, NoCb, 0));
      nSched, fnCur, fbMode, afcRetries, fb0Retries, verdict, afcDac := 0, 0, 0, 0, 0, 0, -700;
      plan, exhausted, offTune := FbPlan(1), 0, 0;
      new;
      PlanFbSet(1, 0);
      PlannedIsIncreasing(FbPlan(1), cfg);
    }

    /** The work list at the start of frame t. */
    ghost predicate Up(t: nat)
      requires Valid()
      reads this, sched
    {
      Content() == AsOf(Planned(plan, cfg), t)
    }

    method JouerTrame(t: nat, a: Answer)
      requires Valid() && verdict == 0 && Up(t)
      modifies this, sched
      ensures Valid() && sched == old(sched) && View() == Frame(old(View()), cfg, t, a)
      ensures verdict == 0 ==> Up(t + 1)
    {
      fnCur := t;
      ghost var tours := L1Sync(a);
    }

    /** The replay loop: frame after frame until the verdict or the last frame. */
    method Rejouer(frames: nat, answers: nat -> Answer)
      requires Valid() && fnCur == 0 && View() == Initial() && Content() == AsOf(Planned(plan, cfg), 0)
      modifies this, sched
      ensures View() == Run(cfg, answers, frames)
    {
      var t := 0;
      while t < frames && verdict == 0
        invariant Valid() && t <= frames && sched == old(sched)
        invariant View() == Run(cfg, answers, t)
        invariant verdict == 0 ==> Up(t)
      {
        JouerTrame(t, answers(t));
        RunNext(cfg, answers, t);
        t := t + 1;
      }
      RunStops(cfg, answers, t, frames);
    }
  }

  // ----- entries due in a list -----

  ghost predicate IsDue(e: Entry, fn: int) { e.frame == fn && e.cb != NoCb }

  ghost predicate NoneDueUpTo(es: seq<Entry>, n: int, fn: int) { forall k :: 0 <= k < n && k < |es| ==> !IsDue(es[k], fn) }

  ghost predicate NoneDueFrom(es: seq<Entry>, n: int, fn: int) { forall k :: 0 <= n <= k < |es| ==> !IsDue(es[k], fn) }

  /** A list as of frame fn has nothing due exactly when the plan has not, or its entry was taken. */
  lemma DuePosition(p: Plan, cfg: Config, fn: int, taken: bool)
    ensures var l := AsOf(Planned(p, cfg), if taken then fn + 1 else fn);
            NoneDueUpTo(l, |l|, fn) <==> taken || DueEntry(p, cfg, fn).cb == NoCb
  {
    var es, l := Planned(p, cfg), AsOf(Planned(p, cfg), if taken then fn + 1 else fn);
    var due := DueEntry(p, cfg, fn);
    if !taken && due.cb != NoCb {
      var k :| 0 <= k < |es| && es[k] == due;
      assert IsDue(l[k], fn);
    } else if !taken {
      NothingDue(p, cfg, fn);
    }
  }

  /** Taking the due entry out moves the list one frame on; nothing behind it is due. */
  lemma TakenOut(p: Plan, cfg: Config, fn: int, i: nat)
    requires i < |Planned(p, cfg)| && Planned(p, cfg)[i].frame == fn
    ensures var l := AsOf(Planned(p, cfg), fn);
            && l[i := l[i].(cb := NoCb)] == AsOf(Planned(p, cfg), fn + 1)
            && NoneDueFrom(AsOf(Planned(p, cfg), fn + 1), i + 1, fn)
  {
    PlannedIsIncreasing(p, cfg);
  }

  /** A replaced plan starts at this frame at the earliest, so only its first entry can be due now. */
  lemma FreshPlan(s: State, cfg: Config, fn: int, e: Entry, a: Answer)
    requires !Kept(cfg, e, a)
    ensures var p := Called(s, cfg, fn, e, a).plan;
            && AsOf(Planned(p, cfg), fn) == Planned(p, cfg)
            && forall i :: i >= 1 ==> NoneDueFrom(Planned(p, cfg), i, fn)
  {
    PlannedIsIncreasing(Called(s, cfg, fn, e, a).plan, cfg);
  }

  lemma NothingDueAsOf(p: Plan, cfg: Config, fn: int)
    requires DueEntry(p, cfg, fn).cb == NoCb
    ensures AsOf(Planned(p, cfg), fn) == AsOf(Planned(p, cfg), fn + 1)
  {
    NothingDue(p, cfg, fn);
  }

  /** All that a new plan can have due in the frame that made it is an SB command. */
  lemma FreshPlanDue(s: State, cfg: Config, fn: int, e: Entry, a: Answer)
    requires !Kept(cfg, e, a)
    ensures DueEntry(Called(s, cfg, fn, e, a).plan, cfg, fn).cb in {NoCb, SbCmd}
  {
  }

  // ----- whole runs -----

  function Initial(): State { State(FbPlan(1), 0, 0, 0, 0, -700, 0, 0) }

  /** The state after the first n frames; a verdict ends the run. */
  function Run(cfg: Config, answers: nat -> Answer, n: nat): State
  {
    if n == 0 then Initial() else Frame(Run(cfg, answers, n - 1), cfg, n - 1, answers(n - 1))
  }

  function Frame(s: State, cfg: Config, fn: int, a: Answer): State
  {
    if s.verdict != 0 then s else FrameStep(s, cfg, fn, a)
  }

  lemma RunNext(cfg: Config, answers: nat -> Answer, n: nat)
    ensures Run(cfg, answers, n + 1) == Frame(Run(cfg, answers, n), cfg, n, answers(n))
  {
  }

  lemma {:induction false} RunStops(cfg: Config, answers: nat -> Answer, m: nat, n: nat)
    requires m <= n && (m == n || Run(cfg, answers, m).verdict != 0)
    ensures Run(cfg, answers, n) == Run(cfg, answers, m)
  {
    if m < n { RunStops(cfg, answers, m, n - 1); }
  }

  /** At the start of frame fn, the plan has a response left to run and is not far ahead. */
  predicate Live(p: Plan, cfg: Config, fn: int)
  {
    match p
    case NoPlan => false
    case FbPlan(b) => b - 1 <= fn <= b + 13
    case SbPlan(b) => b - 19 <= fn <= b + if cfg.sbUnique then 3 else 4
  }

  /** The retry counters against what happened, and what ended the run. */
  predicate Budgeted(s: State)
  {
    && s.exhausted <= FB0_RETRY_MAX + 1 && s.offTune <= AFC_RETRY_MAX + 1
    && (s.verdict == 0 ==> s.exhausted == s.fb0Retries <= FB0_RETRY_MAX && s.offTune == s.afcRetries <= AFC_RETRY_MAX)
    && (s.verdict == -1 <==> s.exhausted == FB0_RETRY_MAX + 1 || s.offTune == AFC_RETRY_MAX + 1)
    && s.verdict in {-1, 0, 1}
    && -4096 <= s.afcDac <= 4095
  }

  predicate Healthy(s: State, cfg: Config, fn: int) { Budgeted(s) && (s.verdict == 0 ==> Live(s.plan, cfg, fn)) }

  lemma FbKeepsHealth(s: State, cfg: Config, fn: int, e: Entry, a: FbAnswer)
    requires Healthy(s, cfg, fn) && s.verdict == 0 && e == DueEntry(s.plan, cfg, fn) && e.cb == FbResp
    ensures Healthy(FbResponse(s, fn, e.attempt, a), cfg, fn + 1)
  {
  }

  lemma SbKeepsHealth(s: State, cfg: Config, fn: int, e: Entry, a: SbAnswer)
    requires Healthy(s, cfg, fn) && s.verdict == 0 && e == DueEntry(s.plan, cfg, fn) && e.cb == SbResp
    ensures Healthy(SbResponse(s, cfg, fn, e.attempt, a), cfg, fn + 1)
  {
  }

  lemma FrameKeepsHealth(s: State, cfg: Config, fn: int, a: Answer, r: State)
    requires Healthy(s, cfg, fn) && r == Frame(s, cfg, fn, a)
    ensures Healthy(r, cfg, fn + 1)
  {
    if s.verdict == 0 {
      var e := DueEntry(s.plan, cfg, fn);
      if e.cb == FbResp {
        FbKeepsHealth(s, cfg, fn, e, a.fb);
      } else if e.cb == SbResp {
        SbKeepsHealth(s, cfg, fn, e, a.sb);
      }
    }
  }

  lemma {:induction false} RunIsHealthy(cfg: Config, answers: nat -> Answer, n: nat)
    ensures Healthy(Run(cfg, answers, n), cfg, n)
  {
    if n > 0 {
      RunIsHealthy(cfg, answers, n - 1);
      FrameKeepsHealth(Run(cfg, answers, n - 1), cfg, n - 1, answers(n - 1), Run(cfg, answers, n));
    }
  }

  predicate ResponseAt(p: Plan, cfg: Config, k: int, first: int, last: int)
  {
    0 <= k < |Planned(p, cfg)| && Planned(p, cfg)[k].cb in {FbResp, SbResp} && first <= Planned(p, cfg)[k].frame <= last
  }

  ghost predicate ResponseBetween(p: Plan, cfg: Config, first: int, last: int) { exists k :: ResponseAt(p, cfg, k, first, last) }

  /**
   The replayed ARM never stalls: after any frame that ends without a verdict, whatever the DSP
   answered so far, the plan holds a response due within the next 23 frames.
   */
  lemma NeverStalls(cfg: Config, answers: nat -> Answer, fn: nat)
    requires Run(cfg, answers, fn + 1).verdict == 0
    ensures ResponseBetween(Run(cfg, answers, fn + 1).plan, cfg, fn + 1, fn + 23)
  {
    RunIsHealthy(cfg, answers, fn + 1);
    var p := Run(cfg, answers, fn + 1).plan;
    match p
    case FbPlan(b) => assert ResponseAt(p, cfg, if fn < b + 2 then 1 else fn - b, fn + 1, fn + 23);
    case SbPlan(b) =>
      var first := if cfg.sbUnique then 1 else 2;
      assert ResponseAt(p, cfg, if fn < b + 3 then first else first + 1, fn + 1, fn + 23);
  }

  /**
   A run gives up exactly at the fourth FB search without a detection or the 31st mode-0
   detection off frequency, counted over the whole run.
   */
  lemma GivesUpOnBudget(cfg: Config, answers: nat -> Answer, n: nat)
    ensures var s := Run(cfg, answers, n);
            && (s.verdict == -1 <==> s.exhausted == 4 || s.offTune == 31)
            && s.exhausted <= 4 && s.offTune <= 31
            && (s.verdict == 0 ==> s.exhausted <= 3 && s.offTune <= 30)
  {
    RunIsHealthy(cfg, answers, n);
  }

  /** A decode that ends the run. */
  predicate Ends(cfg: Config, a: SbAnswer) { a.CrcOk? && (cfg.stopFirst || (a.genuine && !cfg.carryOn)) }

  /** Frame k of the run reads an SB result, and it ends the run. */
  predicate DecodesIn(cfg: Config, answers: nat -> Answer, k: nat)
  {
    var s := Run(cfg, answers, k);
    s.verdict == 0 && DueEntry(s.plan, cfg, k).cb == SbResp && Ends(cfg, answers(k).sb)
  }

  ghost predicate SomeBelow(n: nat, p: nat -> bool) { exists k: nat :: k < n && p(k) }

  lemma OneMoreBelow(n: nat, p: nat -> bool)
    ensures SomeBelow(n + 1, p) <==> SomeBelow(n, p) || p(n)
  {
  }

  function Decoding(cfg: Config, answers: nat -> Answer): nat -> bool { (k: nat) => DecodesIn(cfg, answers, k) }

  lemma NothingDecodedYet(cfg: Config, answers: nat -> Answer)
    ensures Run(cfg, answers, 0).verdict == 0 && !SomeBelow(0, Decoding(cfg, answers))
  {
  }

  /** A run succeeds exactly when some frame of it read an ending decode. */
  lemma {:induction false} SucceedsOnDecode(cfg: Config, answers: nat -> Answer, n: nat)
    ensures Run(cfg, answers, n).verdict == 1 <==> SomeBelow(n, Decoding(cfg, answers))
  {
    hide Run, DecodesIn, SomeBelow;
    if n == 0 {
      NothingDecodedYet(cfg, answers);
    } else {
      SucceedsOnDecode(cfg, answers, n - 1);
      RunNext(cfg, answers, n - 1);
      DecodeStep(cfg, answers, n - 1, Run(cfg, answers, n - 1), Run(cfg, answers, n));
      OneMoreBelow(n - 1, Decoding(cfg, answers));
    }
  }

  lemma DecodeStep(cfg: Config, answers: nat -> Answer, k: nat, s: State, r: State)
    requires s == Run(cfg, answers, k) && r == Frame(s, cfg, k, answers(k))
    ensures r.verdict == 1 <==> s.verdict == 1 || DecodesIn(cfg, answers, k)
  {
    if s.verdict == 0 { FrameSucceeds(s, cfg, k, answers(k)); }
  }

  lemma FrameSucceeds(s: State, cfg: Config, fn: int, a: Answer)
    requires s.verdict == 0
    ensures FrameStep(s, cfg, fn, a).verdict == 1 <==> DueEntry(s.plan, cfg, fn).cb == SbResp && Ends(cfg, a.sb)
  {
    FrameEnds(s, cfg, fn, DueEntry(s.plan, cfg, fn), a);
  }

  lemma FrameEnds(s: State, cfg: Config, fn: int, e: Entry, a: Answer)
    requires s.verdict == 0
    ensures Called(s, cfg, fn, e, a).verdict == 1 <==> e.cb == SbResp && Ends(cfg, a.sb)
  {
  }

  /** So a run goes on exactly while no budget is spent and nothing was decoded. */
  lemma GoesOnUnlessSpentOrDecoded(cfg: Config, answers: nat -> Answer, n: nat)
    ensures var s := Run(cfg, answers, n);
            s.verdict == 0 <==> s.exhausted < 4 && s.offTune < 31 && !SomeBelow(n, Decoding(cfg, answers))
  {
    RunIsHealthy(cfg, answers, n);
    SucceedsOnDecode(cfg, answers, n);
  }

  /**
   The other two retries have no budget: while every FB search detects within 10 kHz, in mode 1 off
   frequency or not, and no SB result ends the run, it goes on for ever.
   */
  lemma {:induction false} MayGoOnForEver(cfg: Config, answers: nat -> Answer, n: nat)
    requires forall i: nat :: answers(i).fb.Fb? && Abs(answers(i).fb.freq) < 10000 && !Ends(cfg, answers(i).sb)
    ensures Run(cfg, answers, n).verdict == 0
  {
    if n > 0 {
      MayGoOnForEver(cfg, answers, n - 1);
      var s := Run(cfg, answers, n - 1);
      OnTuneGoesOn(s, cfg, n - 1, DueEntry(s.plan, cfg, n - 1), answers(n - 1));
      RunNext(cfg, answers, n - 1);
    }
  }

  lemma OnTuneGoesOn(s: State, cfg: Config, fn: int, e: Entry, a: Answer)
    requires s.verdict == 0 && a.fb.Fb? && Abs(a.fb.freq) < 10000 && !Ends(cfg, a.sb)
    ensures Called(s, cfg, fn, e, a).verdict == 0
  {
  }
}

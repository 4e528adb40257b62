/**
 What a run of the replay does, told by what its frames read of the DSP: where the SB command lands,
 the mode and the plan after each frame, the two budgets, and the AFC value.
 */
module FbsbReadings {
  import opened FbsbReplay

  /** What frame fn reads of the DSP: results count in the frames responses are due in, counted from the command. */
  datatype Reading = Nothing | Missed | Detected(freq: int, toa: int) | SbFailed | SbRead

  function Reads(p: Plan, cfg: Config, fn: int, a: Answer): Reading
  {
    match p
    case NoPlan => Nothing
    case FbPlan(b) =>
      if fn < b + 2 || fn > b + 13 then Nothing
      else if a.fb.Fb? then Detected(a.fb.freq, a.fb.toa)
      else if fn == b + 13 then Missed
      else Nothing
    case SbPlan(b) =>
      if fn != b + 3 && (cfg.sbUnique || fn != b + 4) then Nothing
      else if a.sb.CrcOk? then SbRead
      else if cfg.sbUnique || fn == b + 4 then SbFailed
      else Nothing
  }

  /** The time of arrival counts bits from the frame of the FB command: n whole frames of 1250 bits, -1 if before it. */
  predicate FramesIn(toa: int, n: int)
  {
    if toa < 23 then n == -1 else 1250 * n <= toa - 23 < 1250 * (n + 1)
  }

  /** Nearest frame to t from lo to hi. */
  function Within(t: int, lo: int, hi: int): int { if t < lo then lo else if t > hi then hi else t }

  /**
   Whichever of the twelve responses reads a detection within 800 Hz, the SB command goes out eleven
   frames after the frame the burst was found in, or as near to that as the next twenty frames allow.
   */
  lemma SbLands(s: State, cfg: Config, fn: int, a: Answer, b: int, n: int)
    requires s.verdict == 0 && s.fbMode == 1 && s.plan == FbPlan(b) && b + 2 <= fn <= b + 13
    requires a.fb.Fb? && -800 < a.fb.freq < 800 && FramesIn(a.fb.toa, n)
    ensures FrameStep(s, cfg, fn, a).plan == SbPlan(Within(b + 11 + n, fn, fn + 20))
    ensures FrameStep(s, cfg, fn, a).verdict == 0
  {
  }

  predicate FcchFrame(f: int) { f % 51 in {0, 10, 20, 30, 40} }

  predicate SchFrame(f: int) { f % 51 in {1, 11, 21, 31, 41} }

  /**
   If the FCCH was in frame f, the first SB command meets an SCH for all but the last FCCH of a
   51-multiframe: behind that one it falls into the next FCCH, and only the second command meets an SCH.
   */
  lemma SbMeetsSch(s: State, cfg: Config, fn: int, a: Answer, b: int, f: int)
    requires s.verdict == 0 && s.fbMode == 1 && s.plan == FbPlan(b) && b + 2 <= fn <= b + 13
    requires a.fb.Fb? && -800 < a.fb.freq < 800 && b <= f && FcchFrame(f) && FramesIn(a.fb.toa, f - b) && fn <= f + 11 <= fn + 20
    ensures FrameStep(s, cfg, fn, a).plan == SbPlan(f + 11)
    ensures SchFrame(f + 11) <==> f % 51 != 40
    ensures f % 51 == 40 ==> FcchFrame(f + 11)
    ensures SchFrame(f + 12) <==> f % 51 == 40
  {
    SbLands(s, cfg, fn, a, b, f - b);
    ElevenOn(f);
    hide FcchFrame, SchFrame;
  }

  lemma ElevenOn(f: int)
    requires FcchFrame(f)
    ensures SchFrame(f + 11) <==> f % 51 != 40
    ensures f % 51 == 40 ==> FcchFrame(f + 11)
    ensures SchFrame(f + 12) <==> f % 51 == 40
  {
    var m := f % 51;
    assert (f + 11) % 51 == if m == 40 then 0 else m + 11;
    assert (f + 12) % 51 == if m == 40 then 1 else m + 12;
  }

  /** Plan and mode after a frame, from what it read. */
  ghost predicate Follows(p: Plan, mode: int, fn: int, e: Reading, p': Plan, mode': int)
  {
    match e
    case Nothing => p' == p && mode' == mode
    case Missed => p' == FbPlan(fn + 1) && mode' == 0
    case SbFailed => p' == FbPlan(fn + 1) && mode' == 0
    case SbRead => p' == FbPlan(fn + 1) && mode' == 0
    case Detected(freq, toa) =>
      if mode == 0 then p' == FbPlan(fn + 1) && mode' == if -10000 < freq < 10000 then 1 else 0
      else if -800 < freq < 800 then
        p.FbPlan? && mode' == mode && forall n :: FramesIn(toa, n) ==> p' == SbPlan(Within(p.base + 11 + n, fn, fn + 20))
      else p' == FbPlan(fn + 1) && mode' == 1
  }

  lemma FrameFollows(s: State, cfg: Config, fn: int, a: Answer)
    requires s.verdict == 0 && s.fbMode in {0, 1} && FrameStep(s, cfg, fn, a).verdict == 0
    ensures var r := FrameStep(s, cfg, fn, a);
            Follows(s.plan, s.fbMode, fn, Reads(s.plan, cfg, fn, a), r.plan, r.fbMode) && r.fbMode in {0, 1}
  {
    var e := Reads(s.plan, cfg, fn, a);
    if e.Detected? && s.fbMode == 1 && -800 < e.freq < 800 {
      forall n | FramesIn(e.toa, n) ensures FrameStep(s, cfg, fn, a).plan == SbPlan(Within(s.plan.base + 11 + n, fn, fn + 20)) {
        SbLands(s, cfg, fn, a, s.plan.base, n);
      }
    }
  }

  function ReadIn(cfg: Config, answers: nat -> Answer, k: nat): Reading
  {
    Reads(Run(cfg, answers, k).plan, cfg, k, answers(k))
  }

  /** As long as it goes on, every frame of every run does to plan and mode what it read says. */
  lemma {:induction false} RunFollows(cfg: Config, answers: nat -> Answer, k: nat)
    ensures Run(cfg, answers, k).fbMode in {0, 1}
    ensures Run(cfg, answers, k + 1).verdict == 0 ==>
              var s, r := Run(cfg, answers, k), Run(cfg, answers, k + 1);
              Follows(s.plan, s.fbMode, k, ReadIn(cfg, answers, k), r.plan, r.fbMode)
  {
    hide Run, FrameStep, Follows, Reads;
    StartsCoarse(cfg, answers);
    RunNext(cfg, answers, k);
    if k > 0 {
      RunFollows(cfg, answers, k - 1);
      RunNext(cfg, answers, k - 1);
      FrameKeepsMode(Run(cfg, answers, k - 1), cfg, k - 1, answers(k - 1));
    }
    var s := Run(cfg, answers, k);
    if s.verdict == 0 && FrameStep(s, cfg, k, answers(k)).verdict == 0 { FrameFollows(s, cfg, k, answers(k)); }
  }

  lemma StartsCoarse(cfg: Config, answers: nat -> Answer)
    ensures var s := Run(cfg, answers, 0);
            s.fbMode == 0 == s.exhausted == s.offTune
  {
  }

  lemma FrameKeepsMode(s: State, cfg: Config, fn: int, a: Answer)
    requires s.fbMode in {0, 1}
    ensures FrameStep(s, cfg, fn, a).fbMode in {0, 1}
  {
  }

  function Count(n: nat, p: nat -> bool): nat { if n == 0 then 0 else Count(n - 1, p) + if p(n - 1) then 1 else 0 }

  function Misses(cfg: Config, answers: nat -> Answer): nat -> bool
  {
    (k: nat) => Run(cfg, answers, k).verdict == 0 && ReadIn(cfg, answers, k).Missed?
  }

  /** A coarse detection 10 kHz off or more. */
  function OffTune(cfg: Config, answers: nat -> Answer): nat -> bool
  {
    (k: nat) =>
      var s, e := Run(cfg, answers, k), ReadIn(cfg, answers, k);
      s.verdict == 0 && s.fbMode == 0 && e.Detected? && (e.freq <= -10000 || e.freq >= 10000)
  }

  lemma FrameCounts(s: State, cfg: Config, fn: int, a: Answer)
    requires s.verdict == 0
    ensures var r, e := FrameStep(s, cfg, fn, a), Reads(s.plan, cfg, fn, a);
            && r.exhausted == s.exhausted + (if e.Missed? then 1 else 0)
            && r.offTune == s.offTune + if s.fbMode == 0 && e.Detected? && (e.freq <= -10000 || e.freq >= 10000) then 1 else 0
  {
  }

  /** The two budgets count what the frames of the run read. */
  lemma {:induction false} BudgetsCount(cfg: Config, answers: nat -> Answer, n: nat)
    ensures Run(cfg, answers, n).exhausted == Count(n, Misses(cfg, answers))
    ensures Run(cfg, answers, n).offTune == Count(n, OffTune(cfg, answers))
  {
    hide Run, FrameStep, Reads;
    if n == 0 {
      StartsCoarse(cfg, answers);
    } else {
      BudgetsCount(cfg, answers, n - 1);
      var s := Run(cfg, answers, n - 1);
      RunNext(cfg, answers, n - 1);
      if s.verdict == 0 { FrameCounts(s, cfg, n - 1, answers(n - 1)); }
    }
  }

  /**
   Each detection read moves the AFC value by 34/287 of the frequency error, toward it and cut to a
   whole step, up to the ends of the DAC's range; nothing else moves it.
   */
  lemma AfcFollowsTheError(s: State, cfg: Config, fn: int, a: Answer)
    requires -4096 <= s.afcDac <= 4095
    ensures var dac, e := FrameStep(s, cfg, fn, a).afcDac, Reads(s.plan, cfg, fn, a);
            if e.Detected? then
              var moved := dac - s.afcDac;
              && -4096 <= dac <= 4095
              && (e.freq >= 0 ==> 0 <= 287 * moved <= 34 * e.freq && (dac < 4095 ==> 34 * e.freq < 287 * (moved + 1)))
              && (e.freq <= 0 ==> 0 >= 287 * moved >= 34 * e.freq && (dac > -4096 ==> 34 * e.freq > 287 * (moved - 1)))
            else dac == s.afcDac
  {
    var e := Reads(s.plan, cfg, fn, a);
    if e.Detected? { AfcMoves(s.afcDac, e.freq); }
    hide AfcCorrect;
  }

  lemma AfcMoves(dac: int, freq: int)
    requires -4096 <= dac <= 4095
    ensures var moved := AfcCorrect(dac, freq) - dac;
            && (freq >= 0 ==> 0 <= 287 * moved <= 34 * freq && (dac + moved < 4095 ==> 34 * freq < 287 * (moved + 1)))
            && (freq <= 0 ==> 0 >= 287 * moved >= 34 * freq && (dac + moved > -4096 ==> 34 * freq > 287 * (moved - 1)))
  {
  }

  /** An SB command is answered by its response three frames on, an FB command by twelve from two frames on. */
  lemma CommandsAreAnswered(p: Plan, cfg: Config)
    ensures forall f, k :: Entry(f, SbCmd, k) in Planned(p, cfg) <==> Entry(f + 3, SbResp, k) in Planned(p, cfg)
    ensures forall f, k :: Entry(f, FbCmd, k) in Planned(p, cfg) <==> k == 0 && p == FbPlan(f)
    ensures forall f, k :: Entry(f, FbResp, k) in Planned(p, cfg) <==> p.FbPlan? && 1 <= k <= 12 && f == p.base + 1 + k
  {
    if p.FbPlan? {
      var es := Planned(p, cfg);
      assert es[0] == Entry(p.base, FbCmd, 0);
      forall f, k ensures Entry(f, FbResp, k) in es <==> 1 <= k <= 12 && f == p.base + 1 + k {
        if 1 <= k <= 12 { assert es[k] == Entry(p.base + 1 + k, FbResp, k); }
      }
    } else if p.SbPlan? {
      SbPlanAnswers(p.base, cfg);
    }
  }

  /** With one attempt or with two on consecutive frames. */
  lemma SbPlanAnswers(b: int, cfg: Config)
    ensures forall f, k :: Entry(f, SbCmd, k) in Planned(SbPlan(b), cfg) <==> Entry(f + 3, SbResp, k) in Planned(SbPlan(b), cfg)
    ensures forall f, k :: Entry(f, SbCmd, k) in Planned(SbPlan(b), cfg) <==>
              f == b - 1 + k && 1 <= k <= if cfg.sbUnique then 1 else 2
    ensures forall f, k :: Entry(f, FbCmd, k) !in Planned(SbPlan(b), cfg) && Entry(f, FbResp, k) !in Planned(SbPlan(b), cfg)
  {
    var es := Planned(SbPlan(b), cfg);
    assert es[0] == Entry(b, SbCmd, 1);
    if cfg.sbUnique {
      assert es[1] == Entry(b + 3, SbResp, 1);
    } else {
      assert es[1] == Entry(b + 1, SbCmd, 2) && es[2] == Entry(b + 3, SbResp, 1) && es[3] == Entry(b + 4, SbResp, 2);
    }
  }
}

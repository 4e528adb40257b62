/**
 The double-buffered pages between the ARM and the DSP. The ARM writes one W page while the other,
 announced in d_dsp_page, belongs to the DSP; R pages are cleared when used and swapped. Callbacks
 run inside l1_sync and may write, use the R page, or reset the hardware pages.
 */
module DspPages {

  type Page = p: nat | p < 2

  function Other(p: Page): Page { 1 - p }

  /** A W page is what was written to it since it was last cleared. */
  type Content = seq<int>

  datatype RContent = Cleared | Results(words: seq<int>)

  datatype Action =
    | WriteW(word: int)      // db_w->... = word
    | UseR                   // r_page_used = 1
    | ResetHw                // l1s_reset_hw()

  datatype Api = Api(
    wPage: Page, rPage: Page, rPageUsed: bool,
    dbW: Page, dbR: Page,                 // the pages db_w and db_r point to
    armed: bool, dspPage: Page,           // d_dsp_page: B_GSM_TASK and the page bit
    w0: Content, w1: Content, r0: RContent, r1: RContent)
  {
    function W(p: Page): Content { if p == 0 then w0 else w1 }

    function R(p: Page): RContent { if p == 0 then r0 else r1 }

    function SetW(p: Page, c: Content): Api { if p == 0 then this.(w0 := c) else this.(w1 := c) }

    function SetR(p: Page, c: RContent): Api { if p == 0 then this.(r0 := c) else this.(r1 := c) }
  }

  // ----- the functions of the source, on values -----

  function Pages(a: Api): Api { a.(dbW := a.wPage, dbR := a.rPage) }

  function L1sResetHw(a: Api): Api { Pages(a.(wPage := 0, rPage := 0, rPageUsed := false)).(armed := false, dspPage := 0) }

  function DspEndScenario(a: Api): Api { a.(armed := true, dspPage := a.wPage, wPage := Other(a.wPage)) }

  function Perform(a: Api, act: Action): Api
  {
    match act
    case WriteW(word) => a.SetW(a.dbW, a.W(a.dbW) + [word])
    case UseR => a.(rPageUsed := true)
    case ResetHw => L1sResetHw(a)
  }

  function PerformAll(a: Api, acts: seq<Action>): Api
  {
    if acts == [] then a else Perform(PerformAll(a, acts[..|acts| - 1]), acts[|acts| - 1])
  }

  /** The start of l1_sync: point at the pages, clear the W page, load the AFC value. */
  function Begin(a: Api, afc: int): Api
  {
    var b := Pages(a.(rPageUsed := false));
    b.SetW(b.dbW, [afc])
  }

  /** Its end: a used R page is cleared and swapped, a scenario is closed. */
  function Finish(a: Api, dsp: bool): Api
  {
    var b := if a.rPageUsed then a.SetR(a.dbR, Cleared).(rPage := Other(a.rPage)) else a;
    if dsp then DspEndScenario(b) else b
  }

  function L1Sync(a: Api, afc: int, acts: seq<Action>, dsp: bool): Api { Finish(PerformAll(Begin(a, afc), acts), dsp) }

  class DspApi {
    var wPage: Page
    var rPage: Page
    var rPageUsed: bool
    var dbW: Page
    var dbR: Page
    var armed: bool
    var dspPage: Page
    var w: array<Content>
    var r: array<RContent>

    ghost predicate Valid() reads this { w.Length == 2 && r.Length == 2 }

    ghost function View(): Api
      requires Valid()
      reads this, w, r
    {
      Api(wPage, rPage, rPageUsed, dbW, dbR, armed, dspPage, w[0], w[1], r[0], r[1])
    }

    constructor ()
      ensures Valid() && fresh(w) && fresh(r)
      ensures View() == Api(0, 0, false, 0, 0, false, 0, [], [], Cleared, Cleared)
    {
      wPage, rPage, rPageUsed, dbW, dbR, armed, dspPage := 0, 0, false, 0, 0, false, 0;
      w := new Content[2](_ => []);
      r := new RContent[2](_ => Cleared);
    }

    method PerformAction(act: Action)
      requires Valid()
      modifies this`wPage, this`rPage, this`rPageUsed, this`dbW, this`dbR, this`armed, this`dspPage, w
      ensures Valid() && View() == Perform(old(View()), act)
    {
      match act
      case WriteW(word) => w[dbW] := w[dbW] + [word];
      case UseR => rPageUsed := true;
      case ResetHw =>
        wPage, rPage, rPageUsed := 0, 0, false;
        dbW, dbR := wPage, rPage;
        armed, dspPage := false, 0;
    }

    method EndScenario()
      requires Valid()
      modifies this`armed, this`dspPage, this`wPage
      ensures Valid() && View() == DspEndScenario(old(View()))
    {
      armed, dspPage := true, wPage;
      wPage := 1 - wPage;
    }

    method Sync(afc: int, acts: seq<Action>, dsp: bool)
      requires Valid()
      modifies this`wPage, this`rPage, this`rPageUsed, this`dbW, this`dbR, this`armed, this`dspPage, w, r
      ensures Valid() && View() == L1Sync(old(View()), afc, acts, dsp)
    {
      rPageUsed := false;
      dbW, dbR := wPage, rPage;
      w[dbW] := [];
      w[dbW] := w[dbW] + [afc];
      ghost var begun := View();
      assert [] + [afc] == [afc];
      assert begun == Begin(old(View()), afc);
      for i := 0 to |acts|
        invariant Valid() && View() == PerformAll(begun, acts[..i])
      {
        assert acts[..i + 1][..i] == acts[..i];
        PerformAction(acts[i]);
      }
      assert acts[..|acts|] == acts;
      ghost var ran := View();
      if rPageUsed {
        r[dbR] := Cleared;
        rPage := 1 - rPage;
      }
      assert View() == Finish(ran, false);
      if dsp { EndScenario(); }
    }
  }

  // ----- what the ARM may do to an announced page -----

  /** Between frames: an announced page is not the one that will be written next. */
  predicate Apart(a: Api) { a.armed ==> a.wPage != a.dspPage }

  /** Inside l1_sync: the pointers are on the current pages, and the announced page is not written. */
  predicate Open(a: Api) { a.dbW == a.wPage && a.dbR == a.rPage && (a.armed ==> a.dbW != a.dspPage) }

  /** Some callback of the frame resets the hardware pages. */
  predicate Resets(acts: seq<Action>)
  {
    acts != [] && (acts[|acts| - 1] == ResetHw || Resets(acts[..|acts| - 1]))
  }

  /** Callbacks cannot touch the announced page; they can only withdraw it, by a hardware reset. */
  lemma {:induction false} CallbacksLeaveTheAnnouncedPage(a: Api, acts: seq<Action>)
    requires Open(a)
    ensures var b := PerformAll(a, acts);
            && Open(b)
            && (b.armed <==> a.armed && !Resets(acts))
            && (b.armed ==> b.dspPage == a.dspPage && b.W(b.dspPage) == a.W(a.dspPage))
  {
    if acts != [] {
      CallbacksLeaveTheAnnouncedPage(a, acts[..|acts| - 1]);
    }
  }

  datatype Frame = Frame(afc: int, acts: seq<Action>, dsp: bool)

  function Run(a: Api, frames: seq<Frame>): Api
  {
    if frames == [] then a
    else
      var f := frames[|frames| - 1];
      L1Sync(Run(a, frames[..|frames| - 1]), f.afc, f.acts, f.dsp)
  }

  /** In every reachable state the announced page is apart from the page the ARM writes next. */
  lemma {:induction false} AlwaysApart(a: Api, frames: seq<Frame>)
    requires Apart(a)
    ensures Apart(Run(a, frames))
  {
    if frames != [] {
      AlwaysApart(a, frames[..|frames| - 1]);
      var f := frames[|frames| - 1];
      CallbacksLeaveTheAnnouncedPage(Begin(Run(a, frames[..|frames| - 1]), f.afc), f.acts);
    }
  }

  /**
   From one announcement to the next, whatever the callbacks write: the page stays announced with
   the very content it was announced with, unless a hardware reset withdraws it.
   */
  lemma {:induction false} AnnouncedContentIsStable(a: Api, frames: seq<Frame>)
    requires Apart(a) && a.armed && forall f :: f in frames ==> !f.dsp
    ensures var b := Run(a, frames);
            && (b.armed <==> forall f :: f in frames ==> !Resets(f.acts))
            && (b.armed ==> b.dspPage == a.dspPage && b.W(b.dspPage) == a.W(a.dspPage))
  {
    if frames != [] {
      var rest, f := frames[..|frames| - 1], frames[|frames| - 1];
      assert frames == rest + [f];
      assert f in frames;
      AlwaysApart(a, rest);
      AnnouncedContentIsStable(a, rest);
      CallbacksLeaveTheAnnouncedPage(Begin(Run(a, rest), f.afc), f.acts);
    }
  }

  // ----- what is announced -----

  function Written(acts: seq<Action>): seq<int>
  {
    if acts == [] then []
    else Written(acts[..|acts| - 1]) + match acts[|acts| - 1] case WriteW(word) => [word] case _ => []
  }

  /** The words written after the first hardware reset of the frame. */
  function WrittenAfterReset(acts: seq<Action>): seq<int>
  {
    if acts == [] || !Resets(acts[..|acts| - 1]) then []
    else WrittenAfterReset(acts[..|acts| - 1]) + match acts[|acts| - 1] case WriteW(word) => [word] case _ => []
  }

  lemma AtTheStart(a: Api, afc: int)
    ensures var b := Begin(a, afc);
            b.dbW == b.wPage == a.wPage && b.W(b.wPage) == [afc] && (a.wPage == 1 ==> b.w0 == a.w0)
  {
  }

  lemma OnePerform(b: Api, act: Action)
    requires b.dbW == b.wPage
    ensures var r := Perform(b, act);
            && r.dbW == r.wPage == (if act.ResetHw? then 0 else b.wPage)
            && r.w0 == (if act.WriteW? && b.wPage == 0 then b.w0 + [act.word] else b.w0)
            && r.w1 == (if act.WriteW? && b.wPage == 1 then b.w1 + [act.word] else b.w1)
  {
  }

  lemma {:induction false} CurrentPage(a: Api, afc: int, acts: seq<Action>)
    ensures var b := PerformAll(Begin(a, afc), acts);
            && b.dbW == b.wPage && b.wPage == (if Resets(acts) then 0 else a.wPage)
            && (a.wPage == 0 || !Resets(acts) ==> b.W(b.wPage) == [afc] + Written(acts))
            && (a.wPage == 1 && Resets(acts) ==> b.w0 == a.w0 + WrittenAfterReset(acts))
            && (a.wPage == 1 && !Resets(acts) ==> b.w0 == a.w0)
  {
    AtTheStart(a, afc);
    hide Begin, Perform;
    if acts != [] {
      CurrentPage(a, afc, acts[..|acts| - 1]);
      OnePerform(PerformAll(Begin(a, afc), acts[..|acts| - 1]), acts[|acts| - 1]);
    }
  }

  /**
   What an announced page holds: the AFC value and the words this frame's callbacks wrote, in
   order. The one exception is a frame on page 1 in which a callback resets the hardware pages:
   page 0 is then announced without having been cleared, and without the AFC value.
   */
  lemma AnnouncedContent(a: Api, afc: int, acts: seq<Action>)
    ensures var b := L1Sync(a, afc, acts, true);
            && b.armed && b.wPage == Other(b.dspPage)
            && b.dspPage == (if Resets(acts) then 0 else a.wPage)
            && b.W(b.dspPage) == if Resets(acts) && a.wPage == 1 then a.w0 + WrittenAfterReset(acts)
                                 else [afc] + Written(acts)
  {
    CurrentPage(a, afc, acts);
  }

  // ----- R pages -----

  /** A callback used the R page, and no reset came after it. */
  predicate Used(acts: seq<Action>)
  {
    acts != [] && (acts[|acts| - 1] == UseR || (acts[|acts| - 1] != ResetHw && Used(acts[..|acts| - 1])))
  }

  lemma {:induction false} CallbacksLeaveRPages(a: Api, afc: int, acts: seq<Action>)
    ensures var b := PerformAll(Begin(a, afc), acts);
            && b.rPageUsed == Used(acts) && b.r0 == a.r0 && b.r1 == a.r1
            && b.dbR == b.rPage == if Resets(acts) then 0 else a.rPage
  {
    if acts != [] {
      CallbacksLeaveRPages(a, afc, acts[..|acts| - 1]);
    }
  }

  /** A frame clears one R page, the current one, and swaps, exactly when that page was used. */
  lemma UsedPageIsClearedOnce(a: Api, afc: int, acts: seq<Action>, dsp: bool)
    ensures var b := L1Sync(a, afc, acts, dsp);
            var p: Page := if Resets(acts) then 0 else a.rPage;
            && b.rPage == (if Used(acts) then Other(p) else p)
            && b.R(p) == (if Used(acts) then Cleared else a.R(p))
            && b.R(Other(p)) == a.R(Other(p))
  {
    CallbacksLeaveRPages(a, afc, acts);
  }
}

/**
 What a multiframe entry comes to over a whole run of the scheduler: which bookings a reset or a
 refusal can cost, and that each item of a set runs in its own frame exactly when the set was
 triggered and had room.
 */
module ScheduleRuns {
  import opened Division
  import opened Calendar

  // ----- runs in two parts -----

  lemma RunUncons(l: Ledger, ops: seq<Op>)
    requires Sound(l) && Legal(l, ops) && ops != []
    ensures ops[0].Frame? ==> PriorityOrder(ops[0].order, Due(l.pending, l.now))
    ensures Sound(Step(l, ops[0])) && Legal(Step(l, ops[0]), ops[1..]) && RunOps(l, ops) == RunOps(Step(l, ops[0]), ops[1..])
  {
    StepIsSound(l, ops[0]);
  }

  lemma RunCons(l: Ledger, op: Op, ops: seq<Op>)
    requires Sound(l) && (op.Frame? ==> PriorityOrder(op.order, Due(l.pending, l.now)))
    requires Sound(Step(l, op)) && Legal(Step(l, op), ops)
    ensures Legal(l, [op] + ops) && RunOps(l, [op] + ops) == RunOps(Step(l, op), ops)
  {
    assert ([op] + ops)[1..] == ops;
  }

  lemma {:induction false} RunSplit(l: Ledger, ops: seq<Op>, k: nat)
    requires Sound(l) && Legal(l, ops) && k <= |ops|
    ensures Legal(l, ops[..k]) && Sound(RunOps(l, ops[..k])) && Legal(RunOps(l, ops[..k]), ops[k..])
    ensures RunOps(l, ops) == RunOps(RunOps(l, ops[..k]), ops[k..])
    decreases k
  {
    if k == 0 {
      assert ops[..0] == [] && ops[0..] == ops;
    } else {
      hide RunOps, Legal, Step, Due;
      var r := Step(l, ops[0]);
      RunUncons(l, ops);
      RunSplit(r, ops[1..], k - 1);
      RunCons(l, ops[0], ops[1..][..k - 1]);
      assert ops[..k] == [ops[0]] + ops[1..][..k - 1] && ops[k..] == ops[1..][k - 1..];
    }
  }

  lemma StepIsSound(l: Ledger, op: Op)
    requires Sound(l) && (op.Frame? ==> PriorityOrder(op.order, Due(l.pending, l.now)))
    ensures Sound(Step(l, op))
  {
    StepKeepsTheBooks(l, op);
    var r := Step(l, op);
    assert r.ran == l.ran + r.ran[|l.ran|..];
  }

  /** Frames and the frame counter advance together. */
  lemma {:induction false} ClockOfRun(l: Ledger, ops: seq<Op>)
    requires Sound(l) && Legal(l, ops) && l.fn < 2715648
    ensures var r := RunOps(l, ops);
            r.now == l.now + FrameCount(ops) && r.fn == FrameNumber(l.fn, FrameCount(ops))
    decreases |ops|
  {
    hide RunOps, Legal, Step, Due;
    if ops == [] {
      RunNothing(l);
    } else {
      RunUncons(l, ops);
      StepClock(l, ops[0]);
      ClockOfRun(Step(l, ops[0]), ops[1..]);
      AheadTwice(l.fn, FrameCount(ops[1..]));
    }
  }

  lemma AheadTwice(fn: nat, n: nat)
    ensures FrameNumber(NextFn(fn), n) == FrameNumber(fn, 1 + n)
  {
    Divided(fn + 1 + n, 2715648, (NextFn(fn) + n) % 2715648, (fn + 1) / 2715648 + (NextFn(fn) + n) / 2715648);
  }

  /** The frame number n frames after fn. */
  function FrameNumber(fn: int, n: nat): (r: nat)
    ensures r < 2715648
  {
    (fn + n) % 2715648
  }

  /** The frame number that frame 0 would have, for a run begun at l0. */
  function Origin(l0: Ledger): int { l0.fn - l0.now }

  function FrameCount(ops: seq<Op>): nat
  {
    if ops == [] then 0 else (if ops[0].Frame? then 1 else 0) + FrameCount(ops[1..])
  }

  lemma StepClock(l: Ledger, op: Op)
    requires Sound(l) && (op.Frame? ==> PriorityOrder(op.order, Due(l.pending, l.now)))
    ensures var r := Step(l, op);
            r.now == (if op.Frame? then l.now + 1 else l.now) && r.fn == if op.Frame? then NextFn(l.fn) else l.fn
  {
    match op
    case Outside(a) => PerformFollows(l, a);
    case Frame(mf, order, oracle) =>
      SameLength(order, Due(l.pending, l.now));
      EffectIsTame(oracle);
      ExecuteFits(l, order, EffectOf(oracle), oracle);
      MframeFollows(Execute(l, order, EffectOf(oracle), oracle), mf);
  }

  // ----- what a booking survives -----

  ghost predicate NoReset(oracle: Oracle) { forall i: nat, x: Item :: i < PER_FRAME ==> Reset !in oracle(i, x).actions }

  ghost predicate NoRefusal(oracle: Oracle) { forall i: nat, x: Item :: i < PER_FRAME ==> oracle(i, x).rc >= 0 }

  /**
   An operation in frame now that cannot cost booking b: resets matter before its frame only, since
   they spare the current bucket, and a refusal in its own frame only.
   */
  ghost predicate Spares(op: Op, now: nat, b: Booking)
  {
    match op
    case Outside(a) => a.Reset? ==> b.due <= now
    case Frame(_, _, oracle) => (b.due > now ==> NoReset(oracle)) && (b.due == now ==> NoRefusal(oracle))
  }

  ghost predicate Spared(ops: seq<Op>, now: nat, b: Booking)
  {
    ops == [] || (Spares(ops[0], now, b) && Spared(ops[1..], if ops[0].Frame? then now + 1 else now, b))
  }

  lemma ResetSpares(l: Ledger, b: Booking)
    requires Fits(l) && !l.done
    ensures ResetLater(l).dropped[b] == l.dropped[b] + if b.due == l.now then 0 else multiset(l.pending)[b]
  {
    OthersCount(l.pending, l.now, b);
  }

  lemma NotPending(l: Ledger, b: Booking)
    requires Fits(l) && b.due < First(l)
    ensures multiset(l.pending)[b] == 0
  {
    assert b in multiset(l.pending) ==> b in l.pending;
  }

  lemma PerformSpares(l: Ledger, a: Action, b: Booking)
    requires Fits(l) && !l.done && (a.Reset? ==> b.due <= l.now)
    ensures Perform(l, a).dropped[b] == l.dropped[b]
  {
    PerformFollows(l, a);
    if a.Reset? {
      ResetSpares(l, b);
      if b.due < l.now { NotPending(l, b); }
    }
  }

  lemma {:induction false} PerformAllSpares(l: Ledger, actions: seq<Action>, b: Booking)
    requires Fits(l) && !l.done && (Reset in actions ==> b.due <= l.now)
    ensures PerformAll(l, actions).dropped[b] == l.dropped[b]
    decreases |actions|
  {
    if actions != [] {
      PerformSpares(l, actions[0], b);
      PerformFollows(l, actions[0]);
      PerformAllSpares(Perform(l, actions[0]), actions[1..], b);
    }
  }

  /** What the i-th callback of the running frame leaves alone. */
  ghost predicate EffectSpares(effect: Effect, oracle: Oracle, b: Booking)
  {
    forall l: Ledger, i: nat, x: Item {:trigger effect(l, i, x)} ::
      Fits(l) && !l.done && (Reset in oracle(i, x).actions ==> b.due <= l.now) ==> effect(l, i, x).dropped[b] == l.dropped[b]
  }

  lemma EffectOfSpares(oracle: Oracle, b: Booking)
    ensures EffectSpares(EffectOf(oracle), oracle, b)
  {
    forall l: Ledger, i: nat, x: Item | Fits(l) && !l.done && (Reset in oracle(i, x).actions ==> b.due <= l.now)
      ensures EffectOf(oracle)(l, i, x).dropped[b] == l.dropped[b]
    {
      PerformAllSpares(l, oracle(i, x).actions, b);
    }
  }

  ghost predicate SparedSoFar(r: (Ledger, seq<Item>, nat), dropped: nat, oracle: Oracle, b: Booking)
  {
    r.0.dropped[b] == dropped && (NoRefusal(oracle) ==> r.2 == |r.1|)
  }

  lemma SparedStep(l: Ledger, queue: seq<Item>, i: nat, effect: Effect, oracle: Oracle, b: Booking, n: nat)
    requires QueueOf(queue, l) && i <= |queue| && Tame(effect, oracle) && l.dropped[b] == n
    ensures i == |queue| ==> SparedSoFar(RunFrom(l, queue, i, effect, oracle), n, oracle, b)
    ensures i < |queue| ==>
              var l1 := effect(l, i, queue[i]);
              && QueueOf(Joined(queue, l1), l1) && |queue| <= PER_FRAME && i < |Joined(queue, l1)| && l1.now == l.now
              && (oracle(i, queue[i]).rc < 0 && l1.dropped[b] == n ==> SparedSoFar(RunFrom(l, queue, i, effect, oracle), n, oracle, b))
              && (oracle(i, queue[i]).rc >= 0 && SparedSoFar(RunFrom(l1, Joined(queue, l1), i + 1, effect, oracle), n, oracle, b) ==>
                    SparedSoFar(RunFrom(l, queue, i, effect, oracle), n, oracle, b))
  {
    if i < |queue| { JoinedIsQueue(effect(l, i, queue[i]), l, queue); }
  }

  lemma {:induction false} RunFromSpares(l: Ledger, queue: seq<Item>, i: nat, effect: Effect, oracle: Oracle, b: Booking)
    requires QueueOf(queue, l) && i <= |queue| && Tame(effect, oracle) && EffectSpares(effect, oracle, b)
    requires b.due > l.now ==> NoReset(oracle)
    ensures SparedSoFar(RunFrom(l, queue, i, effect, oracle), l.dropped[b], oracle, b)
    decreases PER_FRAME - i
  {
    hide RunFrom, Due, Joined, Tame;
    SparedStep(l, queue, i, effect, oracle, b, l.dropped[b]);
    if i < |queue| {
      var l1 := effect(l, i, queue[i]);
      assert l1.dropped[b] == l.dropped[b];
      if oracle(i, queue[i]).rc >= 0 { RunFromSpares(l1, Joined(queue, l1), i + 1, effect, oracle, b); }
    }
  }

  lemma ExecuteSpares(l: Ledger, order: seq<Item>, effect: Effect, oracle: Oracle, b: Booking)
    requires QueueOf(order, l) && Tame(effect, oracle) && EffectSpares(effect, oracle, b)
    requires (b.due > l.now ==> NoReset(oracle)) && (b.due == l.now ==> NoRefusal(oracle))
    ensures Execute(l, order, effect, oracle).dropped[b] == l.dropped[b]
  {
    RunFromSpares(l, order, 0, effect, oracle, b);
    var (l', queue, n) := RunFrom(l, order, 0, effect, oracle);
    StampCount(l.now, queue[n..], b);
  }

  lemma StepSpares(l: Ledger, op: Op, b: Booking)
    requires Sound(l) && (op.Frame? ==> PriorityOrder(op.order, Due(l.pending, l.now))) && Spares(op, l.now, b)
    ensures Step(l, op).dropped[b] == l.dropped[b]
  {
    match op
    case Outside(a) => PerformSpares(l, a, b);
    case Frame(mf, order, oracle) =>
      SameLength(order, Due(l.pending, l.now));
      EffectIsTame(oracle);
      EffectOfSpares(oracle, b);
      ExecuteSpares(l, order, EffectOf(oracle), oracle, b);
      ExecuteFits(l, order, EffectOf(oracle), oracle);
      MframeFollows(Execute(l, order, EffectOf(oracle), oracle), mf);
  }

  lemma {:induction false} RunSpares(l: Ledger, ops: seq<Op>, b: Booking)
    requires Sound(l) && Legal(l, ops) && Spared(ops, l.now, b)
    ensures RunOps(l, ops).dropped[b] == l.dropped[b]
    decreases |ops|
  {
    if ops != [] {
      StepSpares(l, ops[0], b);
      StepIsSound(l, ops[0]);
      StepClock(l, ops[0]);
      RunSpares(Step(l, ops[0]), ops[1..], b);
    }
  }

  /**
   Exactly once, booking by booking: from any reachable point on, if no reset comes before the
   frame of b and no callback of that frame refuses, every copy of b that was pending or is accepted
   runs in that frame, and only there.
   */
  lemma SparedBookingsRun(l: Ledger, ops: seq<Op>, b: Booking)
    requires Sound(l) && Legal(l, ops) && Spared(ops, l.now, b) && b.due < RunOps(l, ops).now
    ensures var r := RunOps(l, ops);
            multiset(r.ran)[b] + l.accepted[b] == multiset(l.ran)[b] + multiset(l.pending)[b] + r.accepted[b]
  {
    RunIsSound(l, ops);
    RunSpares(l, ops, b);
    NotPending(RunOps(l, ops), b);
  }

  /**
   Conservation over every run: each accepted booking has run in its own frame, or was dropped, or
   is still to come within 25 frames; and a booking of a past frame ran exactly as often as it was
   accepted, if no reset came before its frame and no callback of that frame refused.
   */
  lemma EveryBookingRunsOnce(fn: nat, ops: seq<Op>)
    requires Sound(Initial(fn)) && Legal(Initial(fn), ops)
    ensures var l := RunOps(Initial(fn), ops);
            && l.accepted == multiset(l.ran) + l.dropped + multiset(l.pending)
            && (forall b :: b in l.pending ==> l.now <= b.due < l.now + FRAMES)
            && (forall b :: b in l.ran ==> b.due < l.now)
            && (forall b: Booking :: b.due < l.now && Spared(ops, 0, b) ==> multiset(l.ran)[b] == l.accepted[b])
  {
    RunIsSound(Initial(fn), ops);
    forall b: Booking | b.due < RunOps(Initial(fn), ops).now && Spared(ops, 0, b)
      ensures multiset(RunOps(Initial(fn), ops).ran)[b] == RunOps(Initial(fn), ops).accepted[b]
    {
      SparedBookingsRun(Initial(fn), ops, b);
    }
  }

  // ----- who asks for an item -----

  predicate Mentions(entries: seq<Entry>, p3: int, x: Item)
  {
    entries != [] && ((entries[0].Run? && entries[0].item.(p3 := p3) == x) || Mentions(entries[1..], p3, x))
  }

  predicate AsksFor(a: Action, x: Item)
  {
    match a
    case Schedule(_, item) => item == x
    case ScheduleSet(_, entries, p3) => Mentions(entries, p3, x)
    case Reset => false
  }

  predicate NoneAsks(actions: seq<Action>, x: Item) { forall i :: 0 <= i < |actions| ==> !AsksFor(actions[i], x) }

  lemma {:induction false} SetLeaves(l: Ledger, off: Offset, entries: seq<Entry>, p3: int, frames: nat, b: Booking)
    requires !Mentions(entries, p3, b.item)
    ensures BookSet(l, off, entries, p3, frames).0.accepted[b] == l.accepted[b]
    decreases |entries|
  {
    if entries != [] {
      match entries[0]
      case EndFrame => SetLeaves(l, (off + 1) % 256, entries[1..], p3, frames + 1, b);
      case Run(item) =>
        var (l', rc) := Book(l, off, item.(p3 := p3));
        if rc >= 0 { SetLeaves(l', off, entries[1..], p3, frames, b); }
    }
  }

  lemma {:induction false} ActionsLeave(l: Ledger, actions: seq<Action>, b: Booking)
    requires NoneAsks(actions, b.item)
    ensures PerformAll(l, actions).accepted[b] == l.accepted[b]
    decreases |actions|
  {
    if actions != [] {
      assert !AsksFor(actions[0], b.item);
      if actions[0].ScheduleSet? { SetLeaves(l, actions[0].off, actions[0].entries, actions[0].p3, 0, b); }
      ActionsLeave(Perform(l, actions[0]), actions[1..], b);
    }
  }

  ghost predicate NoCallbackAsks(oracle: Oracle, x: Item) { forall i: nat, y: Item :: i < PER_FRAME ==> NoneAsks(oracle(i, y).actions, x) }

  lemma EffectOfLeaves(oracle: Oracle, b: Booking)
    requires NoCallbackAsks(oracle, b.item)
    ensures EffectKeeps(EffectOf(oracle), Accepted(b))
  {
    forall l: Ledger, i: nat, x: Item | i < PER_FRAME ensures EffectOf(oracle)(l, i, x).accepted[b] == l.accepted[b] {
      ActionsLeave(l, oracle(i, x).actions, b);
    }
  }

  /** Whatever the first callbacks of a frame leave alone, the whole frame's callbacks leave alone. */
  ghost predicate EffectKeeps<P(!new)>(effect: Effect, view: Ledger -> P)
  {
    forall l: Ledger, i: nat, x: Item {:trigger effect(l, i, x)} :: i < PER_FRAME ==> view(effect(l, i, x)) == view(l)
  }

  ghost predicate Views<P>(r: (Ledger, seq<Item>, nat), view: Ledger -> P, p: P) { view(r.0) == p }

  lemma ViewStep<P>(l: Ledger, queue: seq<Item>, i: nat, effect: Effect, oracle: Oracle, view: Ledger -> P, p: P)
    requires QueueOf(queue, l) && i <= |queue| && Tame(effect, oracle)
    ensures i == |queue| && view(l) == p ==> Views(RunFrom(l, queue, i, effect, oracle), view, p)
    ensures i < |queue| && oracle(i, queue[i]).rc < 0 && view(effect(l, i, queue[i])) == p ==> Views(RunFrom(l, queue, i, effect, oracle), view, p)
    ensures i < |queue| ==>
              var l1 := effect(l, i, queue[i]);
              && QueueOf(Joined(queue, l1), l1) && |queue| <= PER_FRAME && i < |Joined(queue, l1)|
              && (oracle(i, queue[i]).rc >= 0 && Views(RunFrom(l1, Joined(queue, l1), i + 1, effect, oracle), view, p) ==>
                    Views(RunFrom(l, queue, i, effect, oracle), view, p))
  {
    if i < |queue| { JoinedIsQueue(effect(l, i, queue[i]), l, queue); }
  }

  lemma {:induction false} RunFromKeeps<P(!new)>(l: Ledger, queue: seq<Item>, i: nat, effect: Effect, oracle: Oracle,
                                                 view: Ledger -> P)
    requires QueueOf(queue, l) && i <= |queue| && Tame(effect, oracle) && EffectKeeps(effect, view)
    ensures Views(RunFrom(l, queue, i, effect, oracle), view, view(l))
    decreases PER_FRAME - i
  {
    hide RunFrom, Due, QueueOf, Joined, Tame;
    ViewStep(l, queue, i, effect, oracle, view, view(l));
    if i < |queue| {
      var l1 := effect(l, i, queue[i]);
      assert view(l1) == view(l);
      if oracle(i, queue[i]).rc >= 0 { RunFromKeeps(l1, Joined(queue, l1), i + 1, effect, oracle, view); }
    }
  }

  function Accepted(b: Booking): Ledger -> nat { (l: Ledger) => l.accepted[b] }

  // ----- what a set asks for, relative to the offset it is booked at -----

  datatype Wish = Wish(off: Offset, item: Item)

  function Wishes(entries: seq<Entry>, off: Offset, p3: int): seq<Wish>
    decreases |entries|
  {
    if entries == [] then []
    else match entries[0]
      case EndFrame => Wishes(entries[1..], (off + 1) % 256, p3)
      case Run(item) => [Wish(off, item.(p3 := p3))] + Wishes(entries[1..], off, p3)
  }

  lemma {:induction false} AskedAreWishes(l: Ledger, off: Offset, entries: seq<Entry>, p3: int, k: nat)
    ensures |Asked(l, off, entries, p3)| == |Wishes(entries, off, p3)|
    ensures k < |Wishes(entries, off, p3)| ==>
              Asked(l, off, entries, p3)[k] == Booking(DueFrame(l, Wishes(entries, off, p3)[k].off), Wishes(entries, off, p3)[k].item)
    decreases |entries|
  {
    if entries != [] {
      match entries[0]
      case EndFrame => AskedAreWishes(l, (off + 1) % 256, entries[1..], p3, k);
      case Run(_) => AskedAreWishes(l, off, entries[1..], p3, if k > 0 then k - 1 else 0);
    }
  }

  /** The j-th item a set asks for occurs in it only there. */
  predicate OnceAt(ws: seq<Wish>, j: nat, x: Item)
  {
    j < |ws| && ws[j].item == x && forall k :: 0 <= k < |ws| && k != j ==> ws[k].item != x
  }

  lemma {:induction false} CountOnce(bs: seq<Booking>, j: nat, b: Booking)
    requires forall k :: 0 <= k < |bs| && k != j ==> bs[k] != b
    ensures multiset(bs)[b] == if j < |bs| && bs[j] == b then 1 else 0
  {
    if bs != [] {
      var n := |bs| - 1;
      CountOnce(bs[..n], j, b);
      assert bs == bs[..n] + [bs[n]];
    }
  }

  /** A set booked in l accepts its j-th item, once and in the frame it names, iff it is taken that far. */
  lemma SetAccepts(l: Ledger, off: Offset, entries: seq<Entry>, p3: int, j: nat, b: Booking)
    requires OnceAt(Wishes(entries, off, p3), j, b.item)
    ensures BookSet(l, off, entries, p3).0.accepted[b] ==
            l.accepted[b] + if Taken(l, off, entries, p3) > j && b.due == DueFrame(l, Wishes(entries, off, p3)[j].off) then 1 else 0
  {
    SetBooksAPrefix(l, off, entries, p3, 0);
    var asked, n := Asked(l, off, entries, p3), Taken(l, off, entries, p3);
    forall k | 0 <= k < |asked| ensures k != j ==> asked[k] != b { AskedAreWishes(l, off, entries, p3, k); }
    AskedAreWishes(l, off, entries, p3, j);
    CountOnce(asked[..n], j, b);
  }

  // ----- room -----

  /** Every frame has room for all that bs asks of it. */
  ghost predicate RoomFor(l: Ledger, bs: seq<Booking>) { forall t: nat :: |Due(l.pending, t)| + |Due(bs, t)| <= PER_FRAME }

  lemma {:induction false} DueConcat(a: seq<Booking>, b: seq<Booking>, t: nat)
    ensures Due(a + b, t) == Due(a, t) + Due(b, t)
  {
    if b == [] {
      assert a + b == a;
    } else {
      var n := |b| - 1;
      assert a + b == (a + b[..n]) + [b[n]] && b == b[..n] + [b[n]];
      DueConcat(a, b[..n], t);
      DueAppend(a + b[..n], b[n], t);
      DueAppend(b[..n], b[n], t);
    }
  }

  lemma OverfullFrame(pending: seq<Booking>, asked: seq<Booking>, n: nat)
    requires n < |asked| && |Due(pending + asked[..n], asked[n].due)| >= PER_FRAME
    ensures |Due(pending, asked[n].due)| + |Due(asked, asked[n].due)| > PER_FRAME
  {
    var t, tail := asked[n].due, asked[n + 1..];
    DueConcat(pending, asked[..n], t);
    DueAppend(asked[..n], asked[n], t);
    DueConcat(asked[..n] + [asked[n]], tail, t);
    assert asked == asked[..n] + [asked[n]] + tail;
  }

  /** A set is taken in full exactly when every frame has room for all it asks of it. */
  lemma TakenInFull(l: Ledger, off: Offset, entries: seq<Entry>, p3: int)
    requires Fits(l)
    ensures Taken(l, off, entries, p3) == |Asked(l, off, entries, p3)| <==> RoomFor(l, Asked(l, off, entries, p3))
  {
    var asked, n := Asked(l, off, entries, p3), Taken(l, off, entries, p3);
    var pending := BookSet(l, off, entries, p3).0.pending;
    assert n <= |asked| && pending == l.pending + asked[..n] && (n < |asked| ==> |Due(pending, asked[n].due)| >= PER_FRAME) by {
      SetBooksAPrefix(l, off, entries, p3, 0);
    }
    if n == |asked| {
      assert forall t: nat :: |Due(pending, t)| <= PER_FRAME by { BookSetFollows(l, off, entries, p3, 0); }
      assert asked[..n] == asked;
      forall t: nat ensures |Due(l.pending, t)| + |Due(asked, t)| <= PER_FRAME {
        DueConcat(l.pending, asked, t);
      }
    } else {
      OverfullFrame(l.pending, asked, n);
    }
  }

  // ----- one frame -----

  /** Item x is the j-th of multiframe entry i, and nothing else ever asks for it. */
  ghost predicate Owns(op: Op, i: nat, e: MframeItem, j: nat, x: Item)
  {
    && OnceAt(Wishes(e.entries, 1, e.p3), j, x)
    && match op
       case Outside(a) => !AsksFor(a, x)
       case Frame(mf, _, oracle) =>
         && NoCallbackAsks(oracle, x)
         && (i < |mf| ==> mf[i] == e)
         && forall k :: 0 <= k < |mf| && k != i ==> !Mentions(mf[k].entries, mf[k].p3, x)
  }

  /** mframe_schedule takes the triggered set of entry i at least up to its j-th item. */
  predicate TakesItem(l: Ledger, mf: seq<MframeItem>, i: nat, j: nat)
  {
    i < |mf| && Triggered(l.fn, mf[i]) && Taken(MframeSchedule(l, mf[..i]), 1, mf[i].entries, mf[i].p3) > j
  }

  lemma {:induction false} MframeLeaves(l: Ledger, mf: seq<MframeItem>, b: Booking)
    requires Fits(l) && forall k :: 0 <= k < |mf| ==> !Mentions(mf[k].entries, mf[k].p3, b.item)
    ensures MframeSchedule(l, mf).accepted[b] == l.accepted[b]
    decreases |mf|
  {
    if mf != [] {
      BookSetFollows(l, 1, mf[0].entries, mf[0].p3, 0);
      SetLeaves(l, 1, mf[0].entries, mf[0].p3, 0, b);
      MframeLeaves(if Triggered(l.fn, mf[0]) then BookSet(l, 1, mf[0].entries, mf[0].p3).0 else l, mf[1..], b);
    }
  }

  lemma {:induction false} MframeAccepts(l: Ledger, mf: seq<MframeItem>, i: nat, j: nat, b: Booking)
    requires Fits(l) && l.done && i < |mf|
    requires OnceAt(Wishes(mf[i].entries, 1, mf[i].p3), j, b.item)
    requires forall k :: 0 <= k < |mf| && k != i ==> !Mentions(mf[k].entries, mf[k].p3, b.item)
    ensures var w := Wishes(mf[i].entries, 1, mf[i].p3)[j];
            MframeSchedule(l, mf).accepted[b] ==
            l.accepted[b] + if TakesItem(l, mf, i, j) && b.due == DueFrame(l, w.off) then 1 else 0
    decreases i
  {
    var l' := if Triggered(l.fn, mf[0]) then BookSet(l, 1, mf[0].entries, mf[0].p3).0 else l;
    BookSetFollows(l, 1, mf[0].entries, mf[0].p3, 0);
    if i == 0 {
      SetAccepts(l, 1, mf[0].entries, mf[0].p3, j, b);
      MframeLeaves(l', mf[1..], b);
      assert mf[..0] == [];
    } else {
      SetLeaves(l, 1, mf[0].entries, mf[0].p3, 0, b);
      MframeAccepts(l', mf[1..], i - 1, j, b);
      assert mf[..i][1..] == mf[1..][..i - 1];
    }
  }

  /** The ledger of a frame when its bucket has been run. */
  ghost function Executed(l: Ledger, op: Op): Ledger
    requires Sound(l) && op.Frame? && PriorityOrder(op.order, Due(l.pending, l.now))
  {
    SameLength(op.order, Due(l.pending, l.now));
    EffectIsTame(op.oracle);
    Execute(l, op.order, EffectOf(op.oracle), op.oracle)
  }

  lemma ExecutedFits(l: Ledger, op: Op)
    requires Sound(l) && op.Frame? && PriorityOrder(op.order, Due(l.pending, l.now))
    ensures var r := Executed(l, op);
            Fits(r) && Balanced(r) && r.done && r.now == l.now && r.fn == l.fn && Step(l, op) == Advance(MframeSchedule(r, op.mf))
  {
    SameLength(op.order, Due(l.pending, l.now));
    EffectIsTame(op.oracle);
    ExecuteFits(l, op.order, EffectOf(op.oracle), op.oracle);
    ExecuteKeepsTheBooks(l, op.order, EffectOf(op.oracle), op.oracle);
  }

  lemma ExecutedLeaves(l: Ledger, op: Op, b: Booking)
    requires Sound(l) && op.Frame? && PriorityOrder(op.order, Due(l.pending, l.now)) && NoCallbackAsks(op.oracle, b.item)
    ensures Executed(l, op).accepted[b] == l.accepted[b]
  {
    SameLength(op.order, Due(l.pending, l.now));
    EffectIsTame(op.oracle);
    EffectOfLeaves(op.oracle, b);
    RunFromKeeps(l, op.order, 0, EffectOf(op.oracle), op.oracle, Accepted(b));
  }

  /** How many frames after its trigger a wish is due. */
  function Lead(w: Wish): (n: nat)
    ensures 1 <= n <= 25
  {
    if w.off % 25 == 0 then 25 else w.off % 25
  }

  /** What one operation books of an item that only entry i asks for. */
  lemma StepAccepts(l: Ledger, op: Op, i: nat, e: MframeItem, j: nat, b: Booking)
    requires Sound(l) && (op.Frame? ==> PriorityOrder(op.order, Due(l.pending, l.now))) && Owns(op, i, e, j, b.item)
    ensures var w := Wishes(e.entries, 1, e.p3)[j];
            Step(l, op).accepted[b] ==
            l.accepted[b] + if op.Frame? && TakesItem(Executed(l, op), op.mf, i, j) && b.due == l.now + Lead(w) then 1 else 0
  {
    match op
    case Outside(a) => ActionsLeave(l, [a], b); assert [a][1..] == [];
    case Frame(mf, order, oracle) =>
      ExecutedFits(l, op);
      ExecutedLeaves(l, op, b);
      if i < |mf| {
        MframeAccepts(Executed(l, op), mf, i, j, b);
      } else {
        MframeLeaves(Executed(l, op), mf, b);
      }
  }

  // ----- whole runs -----

  ghost predicate AllOwn(ops: seq<Op>, i: nat, e: MframeItem, j: nat, x: Item)
  {
    OnceAt(Wishes(e.entries, 1, e.p3), j, x) && forall k :: 0 <= k < |ops| ==> Owns(ops[k], i, e, j, x)
  }

  lemma OwnWish(ops: seq<Op>, i: nat, e: MframeItem, j: nat, x: Item)
    requires AllOwn(ops, i, e, j, x)
    ensures j < |Wishes(e.entries, 1, e.p3)|
  {
  }

  lemma OwnParts(ops: seq<Op>, i: nat, e: MframeItem, j: nat, x: Item, k: nat)
    requires AllOwn(ops, i, e, j, x) && k < |ops|
    ensures AllOwn(ops[..k], i, e, j, x) && Owns(ops[k], i, e, j, x) && AllOwn(ops[k + 1..], i, e, j, x)
  {
    hide Owns;
  }

  /** Frames that are not Lead frames before b book nothing of it. */
  lemma {:induction false} RunLeaves(l: Ledger, ops: seq<Op>, i: nat, e: MframeItem, j: nat, b: Booking)
    requires Sound(l) && Legal(l, ops) && AllOwn(ops, i, e, j, b.item)
    requires var lead := Lead(Wishes(e.entries, 1, e.p3)[j]);
             b.due < l.now + lead || b.due >= l.now + FrameCount(ops) + lead
    ensures RunOps(l, ops).accepted[b] == l.accepted[b]
    decreases |ops|
  {
    if ops != [] {
      StepIsSound(l, ops[0]);
      StepClock(l, ops[0]);
      StepAccepts(l, ops[0], i, e, j, b);
      RunLeaves(Step(l, ops[0]), ops[1..], i, e, j, b);
    }
  }

  /** Which operation of a run is its frame c. */
  function FrameIndex(ops: seq<Op>, c: nat): nat
  {
    if ops == [] || (ops[0].Frame? && c == 0) then 0
    else 1 + FrameIndex(ops[1..], if ops[0].Frame? then c - 1 else c)
  }

  lemma {:induction false} FrameAt(ops: seq<Op>, c: nat)
    requires c < FrameCount(ops)
    ensures var k := FrameIndex(ops, c);
            k < |ops| && ops[k].Frame? && FrameCount(ops[..k]) == c && FrameCount(ops[k + 1..]) == FrameCount(ops) - c - 1
  {
    var k := FrameIndex(ops, c);
    if ops[0].Frame? && c == 0 {
      assert ops[..0] == [];
    } else {
      FrameAt(ops[1..], if ops[0].Frame? then c - 1 else c);
      assert ops[..k][1..] == ops[1..][..k - 1] && ops[k + 1..] == ops[1..][k - 1 + 1..];
    }
  }

  /** A run up to frame operation k, that frame, and the rest. */
  ghost predicate PassesThrough(l0: Ledger, ops: seq<Op>, k: nat, l: Ledger)
  {
    && k < |ops| && ops[k].Frame?
    && Sound(l0) && Legal(l0, ops[..k]) && l == RunOps(l0, ops[..k]) && Sound(l)
    && PriorityOrder(ops[k].order, Due(l.pending, l.now))
    && Sound(Step(l, ops[k])) && Legal(Step(l, ops[k]), ops[k + 1..])
  }

  /** Every frame a run has completed is one of its frame operations. */
  lemma FrameOfRun(l0: Ledger, ops: seq<Op>, c: nat) returns (l: Ledger)
    requires l0.fn < 2715648 && Sound(l0) && Legal(l0, ops) && l0.now <= c < RunOps(l0, ops).now
    ensures var k := FrameIndex(ops, c - l0.now);
            && PassesThrough(l0, ops, k, l) && l.now == c && l.fn == FrameNumber(Origin(l0), c)
            && RunOps(l0, ops) == RunOps(Step(l, ops[k]), ops[k + 1..])
            && FrameCount(ops[..k]) == c - l0.now && FrameCount(ops[k + 1..]) == RunOps(l0, ops).now - c - 1
  {
    hide RunOps, Legal, Step, FrameIndex, FrameCount, Due;
    ClockOfRun(l0, ops);
    FrameAt(ops, c - l0.now);
    var k := FrameIndex(ops, c - l0.now);
    RunSplit(l0, ops, k);
    l := RunOps(l0, ops[..k]);
    ClockOfRun(l0, ops[..k]);
    var rest := ops[k..];
    assert rest[0] == ops[k] && rest[1..] == ops[k + 1..];
    RunUncons(l, rest);
  }

  /**
   The j-th item of a multiframe set over a whole run, from any sound ledger: of a booking of it that
   is not past yet, one more is accepted if its set was triggered, and taken that far, in the frame
   Lead frames before; and none otherwise.
   */
  lemma AcceptedWhenTriggered(l0: Ledger, ops: seq<Op>, i: nat, e: MframeItem, j: nat, b: Booking) returns (l: Ledger)
    requires l0.fn < 2715648 && Sound(l0) && Legal(l0, ops) && AllOwn(ops, i, e, j, b.item)
    ensures var lead, r := Lead(Wishes(e.entries, 1, e.p3)[j]), RunOps(l0, ops);
            if l0.now + lead <= b.due < r.now + lead then
              var k := FrameIndex(ops, b.due - lead - l0.now);
              && PassesThrough(l0, ops, k, l) && l.now + lead == b.due && l.fn == FrameNumber(Origin(l0), l.now)
              && RunOps(l0, ops) == RunOps(Step(l, ops[k]), ops[k + 1..])
              && l.accepted[b] == l0.accepted[b]
              && r.accepted[b] == Step(l, ops[k]).accepted[b]
              && r.accepted[b] == l0.accepted[b] + if TakesItem(Executed(l, ops[k]), ops[k].mf, i, j) then 1 else 0
            else r.accepted[b] == l0.accepted[b]
  {
    hide RunOps, Legal, Step, FrameIndex, FrameCount, Spared, Wishes, Lead, MframeSchedule, Due, TakesItem,
         Executed, AllOwn, Owns;
    OwnWish(ops, i, e, j, b.item);
    var lead := Lead(Wishes(e.entries, 1, e.p3)[j]);
    ClockOfRun(l0, ops);
    if l0.now + lead <= b.due < RunOps(l0, ops).now + lead {
      var k := FrameIndex(ops, b.due - lead - l0.now);
      l := FrameOfRun(l0, ops, b.due - lead);
      OwnParts(ops, i, e, j, b.item, k);
      RunLeaves(l0, ops[..k], i, e, j, b);
      StepAccepts(l, ops[k], i, e, j, b);
      StepClock(l, ops[k]);
      RunLeaves(Step(l, ops[k]), ops[k + 1..], i, e, j, b);
    } else {
      RunLeaves(l0, ops, i, e, j, b);
      l := l0;
    }
  }

  lemma ExecutedDrops(l: Ledger, op: Op, b: Booking)
    requires Sound(l) && op.Frame? && PriorityOrder(op.order, Due(l.pending, l.now))
    ensures Executed(l, op).dropped[b] >= l.dropped[b]
  {
    SameLength(op.order, Due(l.pending, l.now));
    EffectIsTame(op.oracle);
    RunFromRunsWell(l, op.order, 0, EffectOf(op.oracle), op.oracle);
  }

  lemma StepDrops(l: Ledger, op: Op, b: Booking)
    requires Sound(l) && (op.Frame? ==> PriorityOrder(op.order, Due(l.pending, l.now)))
    ensures Step(l, op).dropped[b] >= l.dropped[b]
  {
    match op
    case Outside(a) => PerformFollows(l, a);
    case Frame(mf, order, oracle) =>
      ExecutedFits(l, op);
      ExecutedDrops(l, op, b);
      MframeFollows(Executed(l, op), mf);
  }

  /** What is dropped stays dropped. */
  lemma {:induction false} RunDrops(l: Ledger, ops: seq<Op>, b: Booking)
    requires Sound(l) && Legal(l, ops)
    ensures RunOps(l, ops).dropped[b] >= l.dropped[b]
    decreases |ops|
  {
    hide Step, Due;
    if ops == [] {
      RunNothing(l);
    } else {
      RunUncons(l, ops);
      StepDrops(l, ops[0], b);
      RunDrops(Step(l, ops[0]), ops[1..], b);
    }
  }

  lemma RunNothing(l: Ledger)
    requires Fits(l) && !l.done
    ensures Legal(l, []) && RunOps(l, []) == l
  {
  }

  /** What a frame accepts for later it does not drop. */
  lemma FreshBookingsAreKept(l: Ledger, op: Op, b: Booking)
    requires Sound(l) && op.Frame? && PriorityOrder(op.order, Due(l.pending, l.now)) && NoCallbackAsks(op.oracle, b.item)
    requires l.accepted[b] == l.dropped[b]
    ensures Step(l, op).dropped[b] == l.dropped[b]
  {
    ExecutedFits(l, op);
    ExecutedLeaves(l, op, b);
    ExecutedDrops(l, op, b);
    MframeFollows(Executed(l, op), op.mf);
  }

  /** A booking of no past frame that is not pending was dropped as often as it was accepted. */
  lemma NotYetRun(l: Ledger, b: Booking)
    requires Sound(l) && l.now <= b.due
    ensures multiset(l.ran)[b] == 0 && l.accepted[b] == l.dropped[b] + multiset(l.pending)[b]
  {
    assert b in multiset(l.ran) ==> b in l.ran;
  }

  /**
   Exactly when triggered: over a run from any sound ledger, the j-th item of a set, where it was not
   pending, runs in frame t once if the set was triggered and taken that far Lead frames before t,
   and not at all otherwise, as long as no reset came in between and no callback of frame t refused.
   */
  lemma RunsWhenTriggered(l0: Ledger, ops: seq<Op>, i: nat, e: MframeItem, j: nat, b: Booking) returns (l: Ledger)
    requires l0.fn < 2715648 && Sound(l0) && Legal(l0, ops) && AllOwn(ops, i, e, j, b.item)
    requires b !in l0.pending && l0.now <= b.due < RunOps(l0, ops).now
    ensures var lead, ran := Lead(Wishes(e.entries, 1, e.p3)[j]), multiset(RunOps(l0, ops).ran)[b];
            if b.due < l0.now + lead then ran == 0
            else
              var k := FrameIndex(ops, b.due - lead - l0.now);
              && PassesThrough(l0, ops, k, l) && l.now + lead == b.due && l.fn == FrameNumber(Origin(l0), l.now)
              && var takes := TakesItem(Executed(l, ops[k]), ops[k].mf, i, j);
                 (!takes ==> ran == 0)
                 && (takes && Spared(ops[k + 1..], l.now + 1, b) ==> ran == 1)
  {
    hide RunOps, Legal, Step, FrameIndex, FrameCount, Spared, Wishes, Lead, MframeSchedule, Due, TakesItem, Executed, AllOwn;
    OwnWish(ops, i, e, j, b.item);
    l := AcceptedWhenTriggered(l0, ops, i, e, j, b);
    var lead := Lead(Wishes(e.entries, 1, e.p3)[j]);
    NotYetRun(l0, b);
    assert b in multiset(l0.pending) ==> b in l0.pending;
    RunBalances(l0, ops, b);
    if b.due >= l0.now + lead {
      var k := FrameIndex(ops, b.due - lead - l0.now);
      if TakesItem(Executed(l, ops[k]), ops[k].mf, i, j) && Spared(ops[k + 1..], l.now + 1, b) {
        OwnParts(ops, i, e, j, b.item, k);
        RunDrops(l0, ops[..k], b);
        NotYetRun(l, b);
        FreshBookingsAreKept(l, ops[k], b);
        StepClock(l, ops[k]);
        var l' := Step(l, ops[k]);
        NotYetRun(l', b);
        SparedBookingsRun(l', ops[k + 1..], b);
      }
    }
  }

  lemma RunBalances(l: Ledger, ops: seq<Op>, b: Booking)
    requires Sound(l) && Legal(l, ops)
    ensures multiset(RunOps(l, ops).ran)[b] + l.dropped[b] <= RunOps(l, ops).accepted[b]
  {
    RunIsSound(l, ops);
    RunDrops(l, ops, b);
  }

  // ----- multiframe timing -----

  lemma TriggerIsCongruence(fn: nat, e: MframeItem)
    requires fn < 2715648 && HYPERFRAME % e.modulo == 0
    ensures Triggered(fn, e) <==> FrameNumber(fn, 2) % e.modulo == e.frameNr % e.modulo
  {
    MframeTiming(e.modulo);
    AheadTwice(fn, 1);
    assert SecondNext(fn) == FrameNumber(NextFn(fn), 1);
  }

  lemma NumbersAdd(fn: int, m: nat, n: nat)
    ensures FrameNumber(FrameNumber(fn, m), n) == FrameNumber(fn, m + n)
  {
    Divided(fn + m + n, 2715648, FrameNumber(FrameNumber(fn, m), n), (fn + m) / 2715648 + (FrameNumber(fn, m) + n) / 2715648);
  }

  /** Of a set that starts with an item, the first command is taken iff its frame is not full. */
  lemma FirstCommandNeedsRoom(l: Ledger, entries: seq<Entry>, p3: int)
    requires l.done && entries != [] && entries[0].Run?
    ensures Taken(l, 1, entries, p3) > 0 <==> |Due(l.pending, l.now + 1)| < PER_FRAME
  {
  }

  lemma FirstWish(entries: seq<Entry>, p3: int)
    requires entries != [] && entries[0].Run?
    ensures Wishes(entries, 1, p3) != [] && Wishes(entries, 1, p3)[0] == Wish(1, entries[0].item.(p3 := p3))
  {
  }

  /** mframe_schedule books the set of entry i into a frame that is not full yet. */
  ghost predicate HasRoom(l: Ledger, op: Op, i: nat)
    requires Sound(l) && op.Frame? && PriorityOrder(op.order, Due(l.pending, l.now))
  {
    i < |op.mf| && |Due(MframeSchedule(Executed(l, op), op.mf[..i]).pending, l.now + 1)| < PER_FRAME
  }

  /**
   The first command of a set whose period divides the hyperframe runs in frame t exactly when the
   number its l1_sync computes for the next frame is congruent to the set's, and the bucket had room
   one frame before; once, unless a reset or a refusal came in between. In the very first frame of a
   run no set can have been booked.
   */
  lemma FirstCommandTiming(l0: Ledger, ops: seq<Op>, i: nat, e: MframeItem, t: nat) returns (l: Ledger)
    requires l0.fn < 2715648 && Sound(l0) && Legal(l0, ops) && l0.now <= t < RunOps(l0, ops).now
    requires HYPERFRAME % e.modulo == 0 && e.entries != [] && e.entries[0].Run?
    requires AllOwn(ops, i, e, 0, e.entries[0].item.(p3 := e.p3))
    requires Booking(t, e.entries[0].item.(p3 := e.p3)) !in l0.pending
    ensures var b := Booking(t, e.entries[0].item.(p3 := e.p3));
            var ran := multiset(RunOps(l0, ops).ran)[b];
            if t == l0.now then ran == 0
            else
              var k := FrameIndex(ops, t - 1 - l0.now);
              && PassesThrough(l0, ops, k, l) && l.now + 1 == t
              && var runs := FrameNumber(Origin(l0), t + 1) % e.modulo == e.frameNr % e.modulo && HasRoom(l, ops[k], i);
                 (!runs ==> ran == 0) && (runs && Spared(ops[k + 1..], t, b) ==> ran == 1)
  {
    hide RunOps, Legal, Step, FrameIndex, FrameCount, Spared, Wishes, Taken, MframeSchedule, Mentions, Due;
    var b := Booking(t, e.entries[0].item.(p3 := e.p3));
    FirstWish(e.entries, e.p3);
    l := RunsWhenTriggered(l0, ops, i, e, 0, b);
    if t > l0.now {
      var k := FrameIndex(ops, t - 1 - l0.now);
      assert Owns(ops[k], i, e, 0, b.item);
      FirstCommandIsTaken(l, ops[k], i, e);
      TriggerIsCongruence(l.fn, e);
      NumbersAdd(Origin(l0), l.now, 2);
    }
  }

  lemma FirstCommandIsTaken(l: Ledger, op: Op, i: nat, e: MframeItem)
    requires Sound(l) && op.Frame? && PriorityOrder(op.order, Due(l.pending, l.now))
    requires e.entries != [] && e.entries[0].Run? && (i < |op.mf| ==> op.mf[i] == e)
    ensures TakesItem(Executed(l, op), op.mf, i, 0) <==> Triggered(l.fn, e) && HasRoom(l, op, i)
  {
    hide MframeSchedule, Triggered, Taken, Executed;
    ExecutedFits(l, op);
    if i < |op.mf| {
      var x := Executed(l, op);
      MframeFollows(x, op.mf[..i]);
      FirstCommandNeedsRoom(MframeSchedule(x, op.mf[..i]), e.entries, e.p3);
    }
  }

  // ----- the normal-burst set -----

  const NB_CMD: int := 1
  const NB_RESP: int := 2
  const DT_FLAGS: int := 3

  /** SCHED_ITEM_DT(nb_cmd, 0, 0, b) and SCHED_ITEM(nb_resp, -4, 0, b). */
  function NbCmd(b: nat, p3: int): Item { Item(NB_CMD, 0, b, p3, 0, DT_FLAGS) }

  function NbResp(b: nat, p3: int): Item { Item(NB_RESP, 0, b, p3, -4, 0) }

  /** nb_sched_set, frame by frame. */
  function NbFrames(p3: int): seq<seq<Item>>
  {
    [[NbCmd(0, p3)], [NbCmd(1, p3)], [NbResp(0, p3), NbCmd(2, p3)], [NbResp(1, p3), NbCmd(3, p3)], [NbResp(2, p3)], [NbResp(3, p3)]]
  }

  function WishList(off: Offset, items: seq<Item>): seq<Wish> { seq(|items|, k requires 0 <= k < |items| => Wish(off, items[k])) }

  lemma {:induction false} WishesOfFrame(items: seq<Item>, rest: seq<Entry>, off: Offset, p3: int)
    requires forall k :: 0 <= k < |items| ==> items[k].p3 == p3
    ensures Wishes(FrameOf(items) + rest, off, p3) == WishList(off, items) + Wishes(rest, (off + 1) % 256, p3)
  {
    var entries := FrameOf(items) + rest;
    if items == [] {
      assert entries[1..] == rest;
    } else {
      assert entries[1..] == FrameOf(items[1..]) + rest;
      WishesOfFrame(items[1..], rest, off, p3);
    }
  }

  /** Where the commands and the responses stand among the eight items of the set. */
  function CmdAt(b: nat): nat { if b < 2 then b else 2 * b - 1 }

  function RespAt(b: nat): nat { if b < 3 then 2 * b + 2 else 7 }

  lemma WishesOfFirst(fs: seq<seq<Item>>, off: Offset, p3: int)
    requires fs != [] && forall k :: 0 <= k < |fs[0]| ==> fs[0][k].p3 == p3
    ensures Wishes(Frames(fs), off, p3) == WishList(off, fs[0]) + Wishes(Frames(fs[1..]), (off + 1) % 256, p3)
  {
    WishesOfFrame(fs[0], Frames(fs[1..]), off, p3);
  }

  lemma NbWishes(p3: int)
    ensures Wishes(Frames(NbFrames(p3)), 1, p3) ==
            [Wish(1, NbCmd(0, p3)), Wish(2, NbCmd(1, p3)), Wish(3, NbResp(0, p3)), Wish(3, NbCmd(2, p3)),
             Wish(4, NbResp(1, p3)), Wish(4, NbCmd(3, p3)), Wish(5, NbResp(2, p3)), Wish(6, NbResp(3, p3))]
  {
    var fs := NbFrames(p3);
    assert Wishes(Frames([]), 7, p3) == [];
    hide Wishes, Frames;
    assert fs[1..][1..] == fs[2..] && fs[2..][1..] == fs[3..] && fs[3..][1..] == fs[4..] && fs[4..][1..] == fs[5..] && fs[5..][1..] == [];
    WishesOfFirst(fs, 1, p3);
    WishesOfFirst(fs[1..], 2, p3);
    WishesOfFirst(fs[2..], 3, p3);
    WishesOfFirst(fs[3..], 4, p3);
    WishesOfFirst(fs[4..], 5, p3);
    WishesOfFirst(fs[5..], 6, p3);
  }

  /** The eight items of the set are asked for by entry i only. */
  ghost predicate NbOwned(ops: seq<Op>, i: nat, e: MframeItem)
  {
    && e.entries == Frames(NbFrames(e.p3))
    && forall b: nat :: b < 4 ==> AllOwn(ops, i, e, CmdAt(b), NbCmd(b, e.p3)) && AllOwn(ops, i, e, RespAt(b), NbResp(b, e.p3))
  }

  lemma NbLeads(e: MframeItem, b: nat)
    requires b < 4 && e.entries == Frames(NbFrames(e.p3))
    ensures var ws := Wishes(e.entries, 1, e.p3);
            && |ws| == 8 && Lead(ws[CmdAt(b)]) == b + 1 && Lead(ws[RespAt(b)]) == b + 3
            && ws[CmdAt(b)].item == NbCmd(b, e.p3) && ws[RespAt(b)].item == NbResp(b, e.p3)
  {
    NbWishes(e.p3);
  }

  // ----- the bench frame -----

  /** TDMA_IFLG_DSP among the flags of the items closes the scenario of a frame. */
  predicate Announces(items: seq<Item>) { exists k :: 0 <= k < |items| && items[k].flags / 2 % 2 == 1 }

  /**
   banc_trame: the frame interrupt of frame t makes the DSP read the page that the l1_sync of the
   frame before announced; then the ARM runs, and then the burst of frame t falls in the window that
   page opened. Given are the items run; the result is those whose commands are on the page.
   */
  function Page(ran: seq<Booking>, t: nat): seq<Item>
  {
    if t == 0 || !Announces(Due(ran, t - 1)) then [] else Due(ran, t - 1)
  }

  lemma OnThePage(ran: seq<Booking>, t: nat, x: Item)
    requires t > 0 && x.flags / 2 % 2 == 1
    ensures x in Page(ran, t) <==> multiset(ran)[Booking(t - 1, x)] > 0
  {
    hide Due;
    var due := Due(ran, t - 1);
    DueCount(ran, Booking(t - 1, x));
    assert x in due <==> multiset(due)[x] > 0;
  }

  /** fn0 of nb_resp: the frame the tester takes burst 0 to have come in, 32-bit unsigned. */
  function TesterFn0(current: nat): nat { (current + 0x1_0000_0000 - 5) % 0x1_0000_0000 }

  /** None of the items of a set is booked. */
  ghost predicate Absent(l: Ledger, e: MframeItem)
  {
    forall b, j :: b in l.pending && 0 <= j < |Wishes(e.entries, 1, e.p3)| ==> b.item != Wishes(e.entries, 1, e.p3)[j].item
  }

  lemma NbAbsent(l: Ledger, e: MframeItem, b: nat, t: nat)
    requires Absent(l, e) && e.entries == Frames(NbFrames(e.p3)) && b < 4
    ensures Booking(t, NbCmd(b, e.p3)) !in l.pending && Booking(t, NbResp(b, e.p3)) !in l.pending
  {
    NbWishes(e.p3);
    var ws := Wishes(e.entries, 1, e.p3);
    assert ws[CmdAt(b)].item == NbCmd(b, e.p3) && ws[RespAt(b)].item == NbResp(b, e.p3);
  }

  /** The trigger behind a frame in which the DSP reads command 0. */
  lemma NbTrigger(l0: Ledger, ops: seq<Op>, i: nat, e: MframeItem, f: nat) returns (l: Ledger)
    requires l0.fn < 2715648 && Sound(l0) && Legal(l0, ops) && NbOwned(ops, i, e) && Absent(l0, e)
    requires f > l0.now && NbCmd(0, e.p3) in Page(RunOps(l0, ops).ran, f)
    ensures f >= l0.now + 2
    ensures var k := FrameIndex(ops, f - 2 - l0.now);
            && PassesThrough(l0, ops, k, l) && l.now + 2 == f && l.fn == FrameNumber(Origin(l0), l.now)
            && TakesItem(Executed(l, ops[k]), ops[k].mf, i, CmdAt(0))
  {
    hide RunOps, Legal, Step, FrameIndex, FrameCount, Spared, Wishes, Taken, MframeSchedule, Mentions, Due;
    var r, b := RunOps(l0, ops), Booking(f - 1, NbCmd(0, e.p3));
    OnThePage(r.ran, f, NbCmd(0, e.p3));
    NbLeads(e, 0);
    NbAbsent(l0, e, 0, f - 1);
    RunIsSound(l0, ops);
    assert b in multiset(r.ran) && b in r.ran;
    assert AllOwn(ops, i, e, CmdAt(0), NbCmd(0, e.p3));
    l := RunsWhenTriggered(l0, ops, i, e, CmdAt(0), b);
  }

  lemma NbCongruence(fn: int, l: Ledger, op: Op, i: nat, e: MframeItem)
    requires Sound(l) && op.Frame? && PriorityOrder(op.order, Due(l.pending, l.now)) && l.fn == FrameNumber(fn, l.now)
    requires Owns(op, i, e, CmdAt(0), NbCmd(0, e.p3)) && TakesItem(Executed(l, op), op.mf, i, CmdAt(0)) && HYPERFRAME % e.modulo == 0
    ensures FrameNumber(fn, l.now + 2) % e.modulo == e.frameNr % e.modulo
  {
    ExecutedFits(l, op);
    TriggerIsCongruence(l.fn, e);
    NumbersAdd(fn, l.now, 2);
  }

  /** One item of the set behind a given trigger. */
  lemma OnePassage(l0: Ledger, ops: seq<Op>, k: nat, l: Ledger, l': Ledger)
    requires PassesThrough(l0, ops, k, l) && PassesThrough(l0, ops, k, l')
    ensures l == l'
  {
  }

  lemma NbItemRuns(l0: Ledger, ops: seq<Op>, i: nat, e: MframeItem, j: nat, b: Booking, l: Ledger)
    requires l0.fn < 2715648 && Sound(l0) && Legal(l0, ops) && AllOwn(ops, i, e, j, b.item) && b !in l0.pending
    requires l0.now <= l.now && b.due == l.now + Lead(Wishes(e.entries, 1, e.p3)[j]) < RunOps(l0, ops).now
    requires var k := FrameIndex(ops, l.now - l0.now);
             PassesThrough(l0, ops, k, l) && TakesItem(Executed(l, ops[k]), ops[k].mf, i, j) && Spared(ops[k + 1..], l.now + 1, b)
    ensures multiset(RunOps(l0, ops).ran)[b] == 1
  {
    hide RunOps, Legal, Step, FrameIndex, FrameCount, Spared, Wishes, Taken, MframeSchedule, Mentions, Due,
         TakesItem, Executed, Owns, PassesThrough, Lead;
    var l' := RunsWhenTriggered(l0, ops, i, e, j, b);
    OnePassage(l0, ops, FrameIndex(ops, l.now - l0.now), l, l');
  }

  /**
   Whenever the DSP reads command 0 of the normal-burst set for the burst of frame f, the set was
   triggered in frame f - 2, so that f is congruent to its frame number. If the set was taken in
   full, command b is read for the burst of frame f + b and response b runs in frame f + 1 + b, as
   long as no reset came in between and no callback of those frames refused. The run may start on any
   sound ledger where no item of the set is booked.
   */
  lemma NbTiming(l0: Ledger, ops: seq<Op>, i: nat, e: MframeItem, f: nat, b: nat) returns (l: Ledger)
    requires l0.fn < 2715648 && Sound(l0) && Legal(l0, ops) && NbOwned(ops, i, e) && Absent(l0, e)
    requires f > l0.now && NbCmd(0, e.p3) in Page(RunOps(l0, ops).ran, f)
    requires b < 4 && f + 1 + b < RunOps(l0, ops).now
    ensures f >= l0.now + 2
    ensures var k, ran := FrameIndex(ops, f - 2 - l0.now), RunOps(l0, ops).ran;
            var cmd, resp := Booking(f - 1 + b, NbCmd(b, e.p3)), Booking(f + 1 + b, NbResp(b, e.p3));
            && PassesThrough(l0, ops, k, l) && l.now + 2 == f
            && (HYPERFRAME % e.modulo == 0 ==> FrameNumber(Origin(l0), f) % e.modulo == e.frameNr % e.modulo)
            && (TakesItem(Executed(l, ops[k]), ops[k].mf, i, CmdAt(b)) && Spared(ops[k + 1..], f - 1, cmd) ==>
                  multiset(ran)[cmd] == 1 && NbCmd(b, e.p3) in Page(ran, f + b))
            && (TakesItem(Executed(l, ops[k]), ops[k].mf, i, RespAt(b)) && Spared(ops[k + 1..], f - 1, resp) ==>
                  multiset(ran)[resp] == 1)
  {
    hide RunOps, Legal, Step, FrameIndex, FrameCount, Spared, Wishes, Taken, MframeSchedule, Mentions, Due,
         TakesItem, Page, FrameNumber, Executed, Owns, Absent;
    l := NbTrigger(l0, ops, i, e, f);
    var k, ran := FrameIndex(ops, f - 2 - l0.now), RunOps(l0, ops).ran;
    var cmd, resp := Booking(f - 1 + b, NbCmd(b, e.p3)), Booking(f + 1 + b, NbResp(b, e.p3));
    NbLeads(e, b);
    assert AllOwn(ops, i, e, CmdAt(b), NbCmd(b, e.p3)) && AllOwn(ops, i, e, RespAt(b), NbResp(b, e.p3));
    assert AllOwn(ops, i, e, CmdAt(0), NbCmd(0, e.p3)) && Owns(ops[k], i, e, CmdAt(0), NbCmd(0, e.p3));
    NbAbsent(l0, e, b, cmd.due);
    NbAbsent(l0, e, b, resp.due);
    if HYPERFRAME % e.modulo == 0 {
      NbCongruence(Origin(l0), l, ops[k], i, e);
    }
    if TakesItem(Executed(l, ops[k]), ops[k].mf, i, CmdAt(b)) && Spared(ops[k + 1..], f - 1, cmd) {
      NbItemRuns(l0, ops, i, e, CmdAt(b), cmd, l);
      OnThePage(ran, f + b, NbCmd(b, e.p3));
    }
    if TakesItem(Executed(l, ops[k]), ops[k].mf, i, RespAt(b)) && Spared(ops[k + 1..], f - 1, resp) {
      NbItemRuns(l0, ops, i, e, RespAt(b), resp, l);
    }
  }

  /** A set taken in full is taken up to each of its eight items. */
  lemma NbTakenInFull(l: Ledger, mf: seq<MframeItem>, i: nat, b: nat)
    requires l.done && Fits(l) && b < 4 && i < |mf| && mf[i].entries == Frames(NbFrames(mf[i].p3)) && Triggered(l.fn, mf[i])
    requires var m := MframeSchedule(l, mf[..i]); RoomFor(m, Asked(m, 1, mf[i].entries, mf[i].p3))
    ensures TakesItem(l, mf, i, CmdAt(b)) && TakesItem(l, mf, i, RespAt(b))
  {
    var m := MframeSchedule(l, mf[..i]);
    MframeFollows(l, mf[..i]);
    TakenInFull(m, 1, mf[i].entries, mf[i].p3);
    NbLeads(mf[i], b);
    AskedAreWishes(m, 1, mf[i].entries, mf[i].p3, 0);
  }

  /**
   The tester subtracts 5 in the frame that runs response 3, four frames after burst 0: it never
   names the frame of burst 0, but the one before, or none at all in the first frames of a hyperframe.
   */
  lemma TesterNamesTheFrameBefore(fn: nat, f: nat)
    requires f > 0
    ensures var current := FrameNumber(fn, f + 4);
            && TesterFn0(current) != FrameNumber(fn, f)
            && (TesterFn0(current) == FrameNumber(fn, f - 1) <==> current >= 5)
  {
    hide FrameNumber, TesterFn0;
    NumbersAdd(fn, f - 1, 1);
    NumbersAdd(fn, f - 1, 5);
    FourFramesOn(FrameNumber(fn, f - 1));
  }

  lemma FourFramesOn(a: nat)
    requires a < 2715648
    ensures var current := FrameNumber(a, 5);
            TesterFn0(current) != FrameNumber(a, 1) && (TesterFn0(current) == a <==> current >= 5)
  {
    var current := FrameNumber(a, 5);
    assert current == if a < 2715643 then a + 5 else a - 2715643;
    assert TesterFn0(current) == if current >= 5 then current - 5 else current + 0xffff_fffb;
  }

  /** nb_lecture: frames with the normal-burst set as the only entry; its callbacks schedule nothing and return 0. */
  ghost predicate Reading(ops: seq<Op>, e: MframeItem)
  {
    forall k :: 0 <= k < |ops| ==> ops[k].Frame? && ops[k].mf == [e] && Passive(ops[k].oracle)
  }

  ghost predicate Passive(oracle: Oracle) { forall i: nat, x: Item :: i < PER_FRAME ==> oracle(i, x) == Outcome([], 0) }

  lemma {:induction false} ReadingSpares(ops: seq<Op>, e: MframeItem, now: nat, b: Booking)
    requires Reading(ops, e)
    ensures Spared(ops, now, b)
    decreases |ops|
  {
    if ops != [] {
      assert ops[0].Frame? && Passive(ops[0].oracle);
      ReadingSpares(ops[1..], e, now + 1, b);
    }
  }

  /** In such a run the items of the set belong to it alone, and nothing can cost a booking. */
  lemma ReadingOwnsTheSet(ops: seq<Op>, e: MframeItem)
    requires Reading(ops, e) && e.entries == Frames(NbFrames(e.p3))
    ensures NbOwned(ops, 0, e)
  {
    NbWishes(e.p3);
    forall b: nat | b < 4
      ensures AllOwn(ops, 0, e, CmdAt(b), NbCmd(b, e.p3)) && AllOwn(ops, 0, e, RespAt(b), NbResp(b, e.p3))
    {
    }
  }

  function Pending(): Ledger -> seq<Booking> { (l: Ledger) => l.pending }

  lemma PassiveIsIdle(oracle: Oracle)
    requires Passive(oracle)
    ensures EffectKeeps(EffectOf(oracle), Pending())
  {
    forall l: Ledger, i: nat, x: Item | i < PER_FRAME ensures EffectOf(oracle)(l, i, x).pending == l.pending {
      assert oracle(i, x).actions == [];
    }
  }

  lemma PassiveFrame(l: Ledger, op: Op)
    requires Sound(l) && op.Frame? && PriorityOrder(op.order, Due(l.pending, l.now)) && Passive(op.oracle)
    ensures Executed(l, op).pending == Others(l.pending, l.now)
  {
    SameLength(op.order, Due(l.pending, l.now));
    EffectIsTame(op.oracle);
    PassiveIsIdle(op.oracle);
    RunFromKeeps(l, op.order, 0, EffectOf(op.oracle), op.oracle, Pending());
  }

  /** Frame c of a run that started at frame number fn triggers the entry. */
  predicate TriggersIn(fn: int, c: nat, e: MframeItem) { Triggered(FrameNumber(fn, c), e) }

  /** Triggers are a whole number of periods apart. */
  lemma TriggersAreSpaced(fn: int, c: nat, d: nat, e: MframeItem)
    requires HYPERFRAME % e.modulo == 0 && c < d && TriggersIn(fn, c, e) && TriggersIn(fn, d, e)
    ensures d - c >= e.modulo
  {
    hide Triggered, FrameNumber;
    TriggerResidue(fn, c, e);
    TriggerResidue(fn, d, e);
    Spaced(fn + c + 2, fn + d + 2, e.modulo);
  }

  lemma TriggerResidue(fn: int, c: nat, e: MframeItem)
    requires HYPERFRAME % e.modulo == 0 && TriggersIn(fn, c, e)
    ensures (fn + c + 2) % e.modulo == e.frameNr % e.modulo
  {
    TriggerIsCongruence(FrameNumber(fn, c), e);
    NumbersAdd(fn, c, 2);
    SameResidue(fn + c + 2, e.modulo);
  }

  lemma Spaced(x: int, y: int, m: nat)
    requires m > 0 && x < y && x % m == y % m
    ensures y - x >= m
  {
    var q := y / m - x / m;
    assert y - x == m * q;
    assert q <= 0 ==> m * q <= 0;
    assert q >= 1 ==> m * q >= m;
  }

  lemma SameResidue(x: int, m: nat)
    requires m > 0 && HYPERFRAME % m == 0
    ensures x % 2715648 % m == x % m
  {
    var r, q := x % 2715648, x / 2715648;
    assert HYPERFRAME == m * (HYPERFRAME / m);
    assert x == r % m + m * (r / m + (HYPERFRAME / m) * q) by {
      assert 2715648 * q == m * ((HYPERFRAME / m) * q);
    }
    Divided(x, m, r % m, r / m + (HYPERFRAME / m) * q);
  }

  /** Frame t is within the reach of a trigger of the run so far, at most six frames on. */
  ghost predicate Reached(fn: int, from: nat, now: nat, e: MframeItem, t: nat)
  {
    exists c: nat :: from <= c < now && TriggersIn(fn, c, e) && t <= c + 6
  }

  /** Frames to come that no trigger of the run reaches hold no more than they did at its start. */
  ghost predicate Recent(l: Ledger, l0: Ledger, e: MframeItem)
  {
    forall t: nat :: l.now <= t && !Reached(Origin(l0), l0.now, l.now, e, t) ==> |Due(l.pending, t)| <= |Due(l0.pending, t)|
  }

  /** No frame holds more than six bookings: room for the two a set of normal bursts asks of a frame. */
  ghost predicate LeavesRoom(l: Ledger) { forall t: nat :: |Due(l.pending, t)| <= PER_FRAME - 2 }

  /** At a trigger the earlier sets are over. */
  lemma TriggerFindsRoom(l: Ledger, l0: Ledger, e: MframeItem, t: nat)
    requires Recent(l, l0, e) && LeavesRoom(l0) && TriggersIn(Origin(l0), l.now, e) && HYPERFRAME % e.modulo == 0 && e.modulo >= 7
    requires l.now < t
    ensures |Due(l.pending, t)| <= PER_FRAME - 2
  {
    if Reached(Origin(l0), l0.now, l.now, e, t) {
      var c: nat :| l0.now <= c < l.now && TriggersIn(Origin(l0), c, e) && t <= c + 6;
      TriggersAreSpaced(Origin(l0), c, l.now, e);
    }
  }

  lemma OneEntry(l: Ledger, e: MframeItem)
    ensures MframeSchedule(l, [e]) == if Triggered(l.fn, e) then BookSet(l, 1, e.entries, e.p3).0 else l
  {
    assert [e][1..] == [];
  }

  /** The set is taken in full whenever it is triggered. */
  lemma ReadingTakesAll(l: Ledger, op: Op, l0: Ledger, e: MframeItem, b: nat)
    requires Sound(l) && op.Frame? && PriorityOrder(op.order, Due(l.pending, l.now)) && Reading([op], e)
    requires e.entries == Frames(NbFrames(e.p3)) && HYPERFRAME % e.modulo == 0 && e.modulo >= 7 && b < 4
    requires l.fn == FrameNumber(Origin(l0), l.now) && Recent(l, l0, e) && LeavesRoom(l0) && Triggered(l.fn, e)
    ensures TakesItem(Executed(l, op), op.mf, 0, CmdAt(b)) && TakesItem(Executed(l, op), op.mf, 0, RespAt(b))
  {
    hide Asked, Frames, Recent, LeavesRoom, Triggered, FrameNumber;
    assert [op][0] == op;
    ExecutedFits(l, op);
    PassiveFrame(l, op);
    var x := Executed(l, op);
    assert op.mf[..0] == [];
    assert TriggersIn(Origin(l0), l.now, e);
    forall t: nat ensures |Due(x.pending, t)| + |Due(Asked(x, 1, e.entries, e.p3), t)| <= PER_FRAME {
      DueOthers(l.pending, l.now, t);
      if t > l.now {
        TriggerFindsRoom(l, l0, e, t);
      } else if t < l.now {
        NothingDue(l, t);
      }
      NbAsksTwo(x, e, t);
    }
    NbTakenInFull(x, op.mf, 0, b);
  }

  lemma NothingDue(l: Ledger, t: nat)
    requires Fits(l) && t < First(l)
    ensures Due(l.pending, t) == []
  {
    if Due(l.pending, t) != [] { DueHas(l.pending, t, Due(l.pending, t)[0]); }
  }

  lemma {:induction false} DueHas(bs: seq<Booking>, t: nat, x: Item)
    requires x in Due(bs, t)
    ensures Booking(t, x) in bs
  {
    if bs[|bs| - 1] != Booking(t, x) { DueHas(bs[..|bs| - 1], t, x); }
  }

  /** Bookings of a frame that stand side by side. */
  lemma {:induction false} DueWithin(bs: seq<Booking>, t: nat, lo: nat, hi: nat)
    requires lo <= hi && forall k :: 0 <= k < |bs| && bs[k].due == t ==> lo <= k < hi
    ensures |Due(bs, t)| <= hi - lo
  {
    if bs != [] {
      var n := |bs| - 1;
      DueWithin(bs[..n], t, lo, if bs[n].due == t then n else hi);
    }
  }

  /** The set asks at most two items of a frame, and none after the sixth. */
  lemma NbAsksTwo(x: Ledger, e: MframeItem, t: nat)
    requires x.done && e.entries == Frames(NbFrames(e.p3))
    ensures |Due(Asked(x, 1, e.entries, e.p3), t)| <= if t <= x.now + 6 then 2 else 0
  {
    hide Asked, Wishes, Frames, Due;
    var asked, lo := Asked(x, 1, e.entries, e.p3), if t < x.now + 3 then 0 else if t == x.now + 3 then 2 else if t == x.now + 4 then 4 else 6;
    NbWishes(e.p3);
    AskedAreWishes(x, 1, e.entries, e.p3, 0);
    forall k | 0 <= k < |asked| && asked[k].due == t ensures lo <= k < (if t <= x.now + 6 then lo + 2 else lo) {
      AskedAreWishes(x, 1, e.entries, e.p3, k);
    }
    DueWithin(asked, t, lo, if t <= x.now + 6 then lo + 2 else lo);
  }

  lemma DueOfPart(bs: seq<Booking>, n: nat, t: nat)
    requires n <= |bs| && Due(bs, t) == []
    ensures Due(bs[..n], t) == []
  {
    assert bs == bs[..n] + bs[n..];
    DueConcat(bs[..n], bs[n..], t);
  }

  /** What a frame of such a run books for frames its own trigger does not reach: nothing. */
  lemma DueAfter(l: Ledger, op: Op, e: MframeItem, t: nat)
    requires Sound(l) && op.Frame? && PriorityOrder(op.order, Due(l.pending, l.now)) && op.mf == [e] && Passive(op.oracle)
    requires e.entries == Frames(NbFrames(e.p3)) && l.now < t && (Triggered(l.fn, e) ==> l.now + 6 < t)
    ensures Due(Step(l, op).pending, t) == Due(l.pending, t)
  {
    hide Asked, Taken, Due, MframeSchedule, BookSet, Frames, Triggered;
    ExecutedFits(l, op);
    PassiveFrame(l, op);
    DueOthers(l.pending, l.now, t);
    var x := Executed(l, op);
    OneEntry(x, e);
    if Triggered(l.fn, e) {
      SetBooksAPrefix(x, 1, e.entries, e.p3, 0);
      NbAsksTwo(x, e, t);
      DueOfPart(Asked(x, 1, e.entries, e.p3), Taken(x, 1, e.entries, e.p3), t);
      DueConcat(x.pending, Asked(x, 1, e.entries, e.p3)[..Taken(x, 1, e.entries, e.p3)], t);
    }
  }

  lemma ReachedMore(fn: int, from: nat, now: nat, e: MframeItem, t: nat)
    requires from <= now
    ensures Reached(fn, from, now + 1, e, t) <==> Reached(fn, from, now, e, t) || (TriggersIn(fn, now, e) && t <= now + 6)
  {
    hide TriggersIn;
    if Reached(fn, from, now, e, t) {
      var c: nat :| from <= c < now && TriggersIn(fn, c, e) && t <= c + 6;
    }
  }

  lemma StepStaysRecent(l: Ledger, op: Op, l0: Ledger, e: MframeItem)
    requires Sound(l) && op.Frame? && PriorityOrder(op.order, Due(l.pending, l.now)) && op.mf == [e] && Passive(op.oracle)
    requires e.entries == Frames(NbFrames(e.p3)) && l0.now <= l.now && l.fn == FrameNumber(Origin(l0), l.now) && Recent(l, l0, e)
    ensures Recent(Step(l, op), l0, e)
  {
    hide Asked, Due, Frames, MframeSchedule, Triggered, FrameNumber;
    var fn := Origin(l0);
    StepClock(l, op);
    forall t: nat | l.now + 1 <= t && !Reached(fn, l0.now, l.now + 1, e, t)
      ensures |Due(Step(l, op).pending, t)| <= |Due(l0.pending, t)|
    {
      ReachedMore(fn, l0.now, l.now, e, t);
      DueAfter(l, op, e, t);
    }
  }

  lemma {:induction false} ReadingStaysRecent(l: Ledger, ops: seq<Op>, l0: Ledger, e: MframeItem)
    requires Sound(l) && Legal(l, ops) && Reading(ops, e)
    requires e.entries == Frames(NbFrames(e.p3)) && l0.now <= l.now && l.fn == FrameNumber(Origin(l0), l.now) && Recent(l, l0, e)
    ensures Recent(RunOps(l, ops), l0, e)
    decreases |ops|
  {
    hide Step, Due, FrameNumber, Frames, RunOps, Legal, Recent;
    if ops == [] {
      RunNothing(l);
    } else {
      RunUncons(l, ops);
      StepClock(l, ops[0]);
      NextNumber(Origin(l0), l.now);
      assert ops[0].mf == [e] && Passive(ops[0].oracle);
      StepStaysRecent(l, ops[0], l0, e);
      ReadingStaysRecent(Step(l, ops[0]), ops[1..], l0, e);
    }
  }

  lemma NextNumber(fn: int, n: nat)
    ensures NextFn(FrameNumber(fn, n)) == FrameNumber(fn, n + 1)
  {
    NumbersAdd(fn, n, 1);
  }

  /**
   Where nb_lecture may start: on any sound ledger that earlier tests left, with none of the set's
   items booked and room for the set.
   */
  ghost predicate Ready(l0: Ledger, ops: seq<Op>, e: MframeItem)
  {
    && l0.fn < 2715648 && Sound(l0) && Legal(l0, ops) && Reading(ops, e)
    && Absent(l0, e) && LeavesRoom(l0)
    && e.entries == Frames(NbFrames(e.p3)) && HYPERFRAME % e.modulo == 0 && e.modulo >= 7
  }

  /** At power-up nothing is booked: nb_lecture may start there, too. */
  lemma PowerUpIsReady(fn: nat, ops: seq<Op>, e: MframeItem)
    requires fn < 2715648 && Fits(Initial(fn)) && Legal(Initial(fn), ops) && Reading(ops, e)
    requires e.entries == Frames(NbFrames(e.p3)) && HYPERFRAME % e.modulo == 0 && e.modulo >= 7
    ensures Ready(Initial(fn), ops, e) && Origin(Initial(fn)) == fn
  {
    hide Wishes, Frames, Legal;
  }

  /** The whole of nb_lecture, up to a frame and through it. */
  lemma ReadingAt(l0: Ledger, ops: seq<Op>, e: MframeItem, c: nat, b: nat) returns (l: Ledger)
    requires Ready(l0, ops, e) && l0.now <= c < RunOps(l0, ops).now && b < 4
    ensures var k := FrameIndex(ops, c - l0.now);
            && PassesThrough(l0, ops, k, l) && l.now == c && l.fn == FrameNumber(Origin(l0), c)
            && (Triggered(l.fn, e) ==>
                  TakesItem(Executed(l, ops[k]), ops[k].mf, 0, CmdAt(b)) && TakesItem(Executed(l, ops[k]), ops[k].mf, 0, RespAt(b)))
  {
    hide RunOps, Legal, Step, FrameIndex, FrameCount, Wishes, Taken, MframeSchedule, Frames, Triggered;
    l := FrameOfRun(l0, ops, c);
    var k := FrameIndex(ops, c - l0.now);
    assert Reading(ops[..k], e) && FrameNumber(Origin(l0), l0.now) == l0.fn && Recent(l0, l0, e);
    ReadingStaysRecent(l0, ops[..k], l0, e);
    if Triggered(l.fn, e) {
      assert Reading([ops[k]], e);
      ReadingTakesAll(l, ops[k], l0, e, b);
    }
  }

  /**
   nb_lecture, for every period of at least 7 that divides the hyperframe: from its third frame on, the
   DSP reads command 0 for exactly the bursts whose frame number is congruent to the set's; and behind
   each of them it reads command b for the burst of frame f + b, and response b runs in frame
   f + 1 + b, once.
   */
  lemma ReadingTiming(l0: Ledger, ops: seq<Op>, e: MframeItem, f: nat, b: nat)
    requires Ready(l0, ops, e) && b < 4 && l0.now + 2 <= f && f + 1 + b < RunOps(l0, ops).now
    ensures var ran := RunOps(l0, ops).ran;
            && (NbCmd(0, e.p3) in Page(ran, f) <==> FrameNumber(Origin(l0), f) % e.modulo == e.frameNr % e.modulo)
            && (NbCmd(0, e.p3) in Page(ran, f) ==>
                  NbCmd(b, e.p3) in Page(ran, f + b) && multiset(ran)[Booking(f + 1 + b, NbResp(b, e.p3))] == 1)
  {
    hide RunOps, Legal, Step, FrameIndex, FrameCount, Wishes, Taken, MframeSchedule, Mentions, Due, Spared, Page, FrameNumber;
    if NbCmd(0, e.p3) in Page(RunOps(l0, ops).ran, f) { ReadingFollows(l0, ops, e, f, b); }
    if FrameNumber(Origin(l0), f) % e.modulo == e.frameNr % e.modulo { ReadingReadsTheBurst(l0, ops, e, f); }
  }

  lemma ReadingFollows(l0: Ledger, ops: seq<Op>, e: MframeItem, f: nat, b: nat)
    requires Ready(l0, ops, e) && b < 4 && l0.now + 2 <= f && f + 1 + b < RunOps(l0, ops).now
    requires NbCmd(0, e.p3) in Page(RunOps(l0, ops).ran, f)
    ensures var ran := RunOps(l0, ops).ran;
            && FrameNumber(Origin(l0), f) % e.modulo == e.frameNr % e.modulo
            && NbCmd(b, e.p3) in Page(ran, f + b) && multiset(ran)[Booking(f + 1 + b, NbResp(b, e.p3))] == 1
  {
    hide RunOps, Legal, Step, FrameIndex, FrameCount, Wishes, Taken, MframeSchedule, Mentions, Due, Spared,
         Page, FrameNumber, Executed, Absent, LeavesRoom;
    var k := FrameIndex(ops, f - 2 - l0.now);
    ReadingOwnsTheSet(ops, e);
    var l := NbTiming(l0, ops, 0, e, f, b);
    var l' := ReadingAt(l0, ops, e, f - 2, b);
    OnePassage(l0, ops, k, l, l');
    ReadingRest(ops, e, k, f - 1, Booking(f - 1 + b, NbCmd(b, e.p3)));
    ReadingRest(ops, e, k, f - 1, Booking(f + 1 + b, NbResp(b, e.p3)));
    var l1 := NbTrigger(l0, ops, 0, e, f);
    ExecutedFits(l1, ops[k]);
    assert ops[k].mf[0] == e && Triggered(l1.fn, e);
  }

  lemma ReadingRest(ops: seq<Op>, e: MframeItem, k: nat, now: nat, b: Booking)
    requires Reading(ops, e) && k < |ops|
    ensures Spared(ops[k + 1..], now, b)
  {
    ReadingSpares(ops[k + 1..], e, now, b);
  }

  lemma ReadingReadsTheBurst(l0: Ledger, ops: seq<Op>, e: MframeItem, f: nat)
    requires Ready(l0, ops, e)
    requires l0.now + 2 <= f < RunOps(l0, ops).now && FrameNumber(Origin(l0), f) % e.modulo == e.frameNr % e.modulo
    ensures NbCmd(0, e.p3) in Page(RunOps(l0, ops).ran, f)
  {
    hide RunOps, Legal, Step, FrameIndex, FrameCount, Wishes, MframeSchedule, Due, Spared, Absent,
         LeavesRoom, TakesItem, Executed, Lead, FrameNumber, Triggered;
    var k, b := FrameIndex(ops, f - 2 - l0.now), Booking(f - 1, NbCmd(0, e.p3));
    var l := ReadingAt(l0, ops, e, f - 2, 0);
    TriggerIsCongruence(l.fn, e);
    NumbersAdd(Origin(l0), f - 2, 2);
    ReadingOwnsTheSet(ops, e);
    assert AllOwn(ops, 0, e, CmdAt(0), NbCmd(0, e.p3));
    NbLeads(e, 0);
    NbAbsent(l0, e, 0, f - 1);
    ReadingRest(ops, e, k, f - 1, b);
    NbItemRuns(l0, ops, 0, e, CmdAt(0), b, l);
    OnThePage(RunOps(l0, ops).ran, f, NbCmd(0, e.p3));
  }
}

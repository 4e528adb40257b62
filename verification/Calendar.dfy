/**
 The TDMA calendar: what the bucket array of the scheduler stands for. Bookings are kept in one
 flat list, in the order they were accepted, each with the frame it is due in; a ledger also
 remembers everything ever accepted, run and dropped.
 */
module Calendar {
  import opened Division

  const FRAMES: nat := 25
  const PER_FRAME: nat := 8
  const HYPERFRAME: nat := 2715648

  type Offset = x: nat | x < 256

  datatype Item = Item(cb: int, p1: int, p2: int, p3: int, prio: int, flags: int)

  /** A schedule set, up to its end marker. */
  datatype Entry = Run(item: Item) | EndFrame

  type Modulo = x: nat | 1 <= x witness 1

  datatype MframeItem = MframeItem(entries: seq<Entry>, modulo: Modulo, frameNr: nat, p3: int)

  datatype Action =
    | Schedule(off: Offset, item: Item)
    | ScheduleSet(off: Offset, entries: seq<Entry>, p3: int)
    | Reset

  /** What one callback does to the scheduler before it returns, and its return value. */
  datatype Outcome = Outcome(actions: seq<Action>, rc: int)

  datatype Booking = Booking(due: nat, item: Item)

  datatype Ledger = Ledger(
    now: nat,                       // l1_sync calls completed so far
    done: bool,                     // in l1_sync, after the bucket of frame now was run
    fn: nat,                        // frame number of the coming l1_sync
    pending: seq<Booking>,
    accepted: multiset<Booking>,
    ran: seq<Booking>,              // due: the frame it ran in
    dropped: multiset<Booking>)

  // ----- the flat list -----

  /** Items due in frame t, in booking order. */
  function Due(p: seq<Booking>, t: nat): seq<Item>
  {
    if p == [] then []
    else Due(p[..|p| - 1], t) + (if p[|p| - 1].due == t then [p[|p| - 1].item] else [])
  }

  function Others(p: seq<Booking>, t: nat): seq<Booking>
  {
    if p == [] then []
    else Others(p[..|p| - 1], t) + (if p[|p| - 1].due == t then [] else [p[|p| - 1]])
  }

  function Stamp(t: nat, items: seq<Item>): seq<Booking> { seq(|items|, i requires 0 <= i < |items| => Booking(t, items[i])) }

  lemma DueAppend(p: seq<Booking>, b: Booking, t: nat)
    ensures Due(p + [b], t) == Due(p, t) + if b.due == t then [b.item] else []
  {
    assert (p + [b])[..|p|] == p;
  }

  lemma {:induction false} DueOthers(p: seq<Booking>, t: nat, s: nat)
    ensures Due(Others(p, t), s) == if s == t then [] else Due(p, s)
  {
    if p != [] {
      var rest, b := p[..|p| - 1], p[|p| - 1];
      DueOthers(rest, t, s);
      DueAppend(Others(rest, t), b, s);
      assert Others(p, t) == if b.due == t then Others(rest, t) else Others(rest, t) + [b];
    }
  }

  lemma {:induction false} DueStamp(t: nat, items: seq<Item>, s: nat)
    ensures Due(Stamp(t, items), s) == if s == t then items else []
  {
    if items != [] {
      var rest := items[..|items| - 1];
      DueStamp(t, rest, s);
      assert Stamp(t, items) == Stamp(t, rest) + [Booking(t, items[|items| - 1])];
      DueAppend(Stamp(t, rest), Booking(t, items[|items| - 1]), s);
    }
  }

  lemma StampConcat(t: nat, a: seq<Item>, b: seq<Item>)
    ensures Stamp(t, a + b) == Stamp(t, a) + Stamp(t, b)
  {
  }

  lemma {:induction false} OthersAreOthers(p: seq<Booking>, t: nat)
    ensures forall b :: b in Others(p, t) ==> b in p && b.due != t
  {
    if p != [] {
      OthersAreOthers(p[..|p| - 1], t);
    }
  }

  lemma {:induction false} StampCount(t: nat, items: seq<Item>, b: Booking)
    ensures multiset(Stamp(t, items))[b] == if b.due == t then multiset(items)[b.item] else 0
  {
    if items != [] {
      var rest, x := items[..|items| - 1], items[|items| - 1];
      StampCount(t, rest, b);
      assert items == rest + [x];
      assert Stamp(t, items) == Stamp(t, rest) + [Booking(t, x)];
    }
  }

  lemma {:induction false} OthersCount(p: seq<Booking>, t: nat, b: Booking)
    ensures multiset(Others(p, t))[b] == if b.due == t then 0 else multiset(p)[b]
  {
    if p != [] {
      var rest := p[..|p| - 1];
      OthersCount(rest, t, b);
      assert p == rest + [p[|p| - 1]];
    }
  }

  lemma {:induction false} DueCount(p: seq<Booking>, b: Booking)
    ensures multiset(Due(p, b.due))[b.item] == multiset(p)[b]
  {
    if p != [] {
      var rest := p[..|p| - 1];
      DueCount(rest, b);
      assert p == rest + [p[|p| - 1]];
    }
  }

  /** Taking one frame out of the list splits its bookings in two. */
  lemma SplitByFrame(p: seq<Booking>, t: nat)
    ensures multiset(p) == multiset(Stamp(t, Due(p, t))) + multiset(Others(p, t))
  {
    forall b: Booking
      ensures multiset(p)[b] == multiset(Stamp(t, Due(p, t)))[b] + multiset(Others(p, t))[b]
    {
      OthersCount(p, t, b);
      DueCount(p, b);
      StampCount(t, Due(p, t), b);
    }
  }

  lemma StampPermutation(t: nat, a: seq<Item>, b: seq<Item>)
    requires multiset(a) == multiset(b)
    ensures multiset(Stamp(t, a)) == multiset(Stamp(t, b))
  {
    forall x: Booking ensures multiset(Stamp(t, a))[x] == multiset(Stamp(t, b))[x] {
      StampCount(t, a, x);
      StampCount(t, b, x);
    }
  }

  // ----- operations on the ledger -----

  /** The next frame that will be run. */
  function First(l: Ledger): nat { if l.done then l.now + 1 else l.now }

  /** The frame in which the bucket at an offset comes up: offsets count modulo 25. */
  function DueFrame(l: Ledger, off: nat): nat { if l.done && off % 25 == 0 then l.now + FRAMES else l.now + off % 25 }

  ghost predicate Fits(l: Ledger)
  {
    && (forall b :: b in l.pending ==> First(l) <= b.due < First(l) + FRAMES)
    && (forall t: nat :: |Due(l.pending, t)| <= PER_FRAME)
  }

  /** tdma_schedule. */
  function Book(l: Ledger, off: Offset, item: Item): (Ledger, int)
  {
    var b := Booking(DueFrame(l, off), item);
    if |Due(l.pending, b.due)| >= PER_FRAME then (l, -1)
    else (l.(pending := l.pending + [b], accepted := l.accepted + multiset{b}), 0)
  }

  /** tdma_schedule_set: frame by frame until the end of the set or the first full bucket. */
  function BookSet(l: Ledger, off: Offset, entries: seq<Entry>, p3: int, frames: nat := 0): (Ledger, int)
    decreases |entries|
  {
    if entries == [] then (l, frames)
    else match entries[0]
      case EndFrame => BookSet(l, (off + 1) % 256, entries[1..], p3, frames + 1)
      case Run(item) =>
        var (l', rc) := Book(l, off, item.(p3 := p3));
        if rc < 0 then (l', -1) else BookSet(l', off, entries[1..], p3, frames)
  }

  /** tdma_sched_reset keeps the current bucket and nothing else. */
  function ResetLater(l: Ledger): Ledger
  {
    var t := DueFrame(l, 0);
    l.(pending := Stamp(t, Due(l.pending, t)), dropped := l.dropped + multiset(Others(l.pending, t)))
  }

  function Perform(l: Ledger, a: Action): Ledger
  {
    match a
    case Schedule(off, item) => Book(l, off, item).0
    case ScheduleSet(off, entries, p3) => BookSet(l, off, entries, p3).0
    case Reset => ResetLater(l)
  }

  function PerformAll(l: Ledger, actions: seq<Action>): Ledger
    decreases |actions|
  {
    if actions == [] then l else PerformAll(Perform(l, actions[0]), actions[1..])
  }

  ghost predicate Balanced(l: Ledger) { l.accepted == multiset(l.ran) + l.dropped + multiset(l.pending) }

  /** l2 follows l within one frame: the running bucket only grew, nothing ran, no booking got lost. */
  ghost predicate Follows(l2: Ledger, l: Ledger)
  {
    && l2.now == l.now && l2.fn == l.fn && l2.done == l.done && l2.ran == l.ran && Fits(l2)
    && Due(l.pending, DueFrame(l, 0)) <= Due(l2.pending, DueFrame(l, 0))
    && (Balanced(l) ==> Balanced(l2))
    && l.dropped <= l2.dropped
  }

  lemma FollowsIsTransitive(l3: Ledger, l2: Ledger, l: Ledger)
    requires Follows(l3, l2) && Follows(l2, l)
    ensures Follows(l3, l)
  {
  }

  lemma FollowsItself(l: Ledger)
    requires Fits(l)
    ensures Follows(l, l)
  {
  }

  lemma BookFollows(l: Ledger, off: Offset, item: Item)
    requires Fits(l)
    ensures var r := Book(l, off, item).0; Follows(r, l) && r.dropped == l.dropped
  {
    var b := Booking(DueFrame(l, off), item);
    var r := Book(l, off, item).0;
    forall t: nat ensures |Due(r.pending, t)| <= PER_FRAME && Due(l.pending, t) <= Due(r.pending, t) {
      DueAppend(l.pending, b, t);
    }
  }

  lemma {:induction false} BookSetFollows(l: Ledger, off: Offset, entries: seq<Entry>, p3: int, frames: nat)
    requires Fits(l)
    ensures var r := BookSet(l, off, entries, p3, frames).0; Follows(r, l) && r.dropped == l.dropped
    decreases |entries|
  {
    FollowsItself(l);
    hide Book, Due, Balanced;
    if entries != [] {
      match entries[0]
      case EndFrame => BookSetFollows(l, (off + 1) % 256, entries[1..], p3, frames + 1);
      case Run(item) =>
        BookFollows(l, off, item.(p3 := p3));
        var (l', rc) := Book(l, off, item.(p3 := p3));
        if rc >= 0 {
          BookSetFollows(l', off, entries[1..], p3, frames);
          FollowsIsTransitive(BookSet(l', off, entries[1..], p3, frames).0, l', l);
        }
    }
  }

  lemma ResetFollows(l: Ledger)
    requires Fits(l)
    ensures Follows(ResetLater(l), l)
  {
    var r, c := ResetLater(l), DueFrame(l, 0);
    forall t: nat ensures |Due(r.pending, t)| <= PER_FRAME && (t == c ==> Due(r.pending, t) == Due(l.pending, t)) {
      DueStamp(c, Due(l.pending, c), t);
    }
    SplitByFrame(l.pending, c);
    OthersAreOthers(l.pending, c);
  }

  lemma PerformFollows(l: Ledger, a: Action)
    requires Fits(l)
    ensures Follows(Perform(l, a), l)
    ensures !a.Reset? ==> Perform(l, a).dropped == l.dropped
  {
    match a
    case Schedule(off, item) => BookFollows(l, off, item);
    case ScheduleSet(off, entries, p3) => BookSetFollows(l, off, entries, p3, 0);
    case Reset => ResetFollows(l);
  }

  lemma {:induction false} PerformAllFollows(l: Ledger, actions: seq<Action>)
    requires Fits(l)
    ensures Follows(PerformAll(l, actions), l)
    ensures Reset !in actions ==> PerformAll(l, actions).dropped == l.dropped
    decreases |actions|
  {
    if actions != [] {
      var l' := Perform(l, actions[0]);
      PerformFollows(l, actions[0]);
      PerformAllFollows(l', actions[1..]);
      FollowsIsTransitive(PerformAll(l', actions[1..]), l', l);
    }
  }

  // ----- one frame -----

  predicate Sorted(items: seq<Item>) { forall i, j :: 0 <= i < j < |items| ==> items[i].prio <= items[j].prio }

  ghost predicate PriorityOrder(order: seq<Item>, items: seq<Item>) { multiset(order) == multiset(items) && Sorted(order) }

  /** The queue holds the items of the current bucket, in some order. */
  ghost predicate QueueOf(queue: seq<Item>, l: Ledger)
  {
    !l.done && Fits(l) && multiset(queue) == multiset(Due(l.pending, l.now)) && |queue| == |Due(l.pending, l.now)|
  }

  /** A callback that neither resets the scheduler nor returns a refusal. */
  predicate Calm(o: Outcome) { Reset !in o.actions && o.rc >= 0 }

  /** What the callback of an item does when the i-th of the frame is run. */
  type Oracle = (nat, Item) -> Outcome

  type Effect = (Ledger, nat, Item) -> Ledger

  /** What the i-th callback does to the ledger. */
  function EffectOf(oracle: Oracle): Effect { (l: Ledger, i: nat, x: Item) => PerformAll(l, oracle(i, x).actions) }

  ghost predicate Tame(effect: Effect, oracle: Oracle)
  {
    forall l: Ledger, i: nat, x: Item {:trigger effect(l, i, x)} :: Fits(l) ==>
      Follows(effect(l, i, x), l) && (Calm(oracle(i, x)) ==> effect(l, i, x).dropped == l.dropped)
  }

  lemma EffectIsTame(oracle: Oracle)
    ensures Tame(EffectOf(oracle), oracle)
  {
    forall l: Ledger, i: nat, x: Item | Fits(l)
      ensures Follows(EffectOf(oracle)(l, i, x), l)
      ensures Calm(oracle(i, x)) ==> EffectOf(oracle)(l, i, x).dropped == l.dropped
    {
      PerformAllFollows(l, oracle(i, x).actions);
    }
  }

  /** The items a callback added to the current bucket join the queue. */
  function Joined(queue: seq<Item>, l': Ledger): seq<Item>
  {
    var due := Due(l'.pending, l'.now);
    if |due| >= |queue| then queue + due[|queue|..] else queue
  }

  lemma JoinedIsQueue(l': Ledger, l: Ledger, queue: seq<Item>)
    requires QueueOf(queue, l) && Follows(l', l)
    ensures QueueOf(Joined(queue, l'), l') && queue <= Joined(queue, l')
    ensures Joined(queue, l') == queue + Due(l'.pending, l.now)[|queue|..]
  {
    var d, d' := Due(l.pending, l.now), Due(l'.pending, l.now);
    assert d' == d + d'[|queue|..];
    assert multiset(d') == multiset(d) + multiset(d'[|queue|..]);
  }

  /**
   The callbacks of the current bucket, from the i-th of the queue on; a negative return stops.
   Returns the ledger, the queue and how many of the queue ran.
   */
  ghost function RunFrom(l: Ledger, queue: seq<Item>, i: nat, effect: Effect, oracle: Oracle)
    : (r: (Ledger, seq<Item>, nat))
    requires QueueOf(queue, l) && i <= |queue| && Tame(effect, oracle)
    ensures i <= r.2 <= |r.1|
    decreases PER_FRAME - i
  {
    if i == |queue| then (l, queue, i)
    else
      var l' := effect(l, i, queue[i]);
      JoinedIsQueue(l', l, queue);
      if oracle(i, queue[i]).rc < 0 then (l', Joined(queue, l'), i + 1)
      else RunFrom(l', Joined(queue, l'), i + 1, effect, oracle)
  }

  lemma RunFromStep(l: Ledger, queue: seq<Item>, i: nat, effect: Effect, oracle: Oracle)
    requires QueueOf(queue, l) && i < |queue| && Tame(effect, oracle)
    ensures var l' := effect(l, i, queue[i]);
            && QueueOf(Joined(queue, l'), l')
            && RunFrom(l, queue, i, effect, oracle) ==
               if oracle(i, queue[i]).rc < 0 then (l', Joined(queue, l'), i + 1)
               else RunFrom(l', Joined(queue, l'), i + 1, effect, oracle)
  {
    JoinedIsQueue(effect(l, i, queue[i]), l, queue);
  }

  ghost predicate Quiet(oracle: Oracle) { forall i: nat, x: Item :: Calm(oracle(i, x)) }

  /** What holds when the callbacks have run: the queue is the bucket, and calm callbacks drop nothing. */
  ghost predicate RanWell(r: (Ledger, seq<Item>, nat), l: Ledger, queue: seq<Item>, oracle: Oracle)
  {
    && QueueOf(r.1, r.0) && Follows(r.0, l) && queue <= r.1 && r.2 <= |r.1|
    && (Quiet(oracle) ==> r.0.dropped == l.dropped && r.2 == |r.1|)
  }

  lemma RanWellAfter(r: (Ledger, seq<Item>, nat), l1: Ledger, queue1: seq<Item>, l: Ledger, queue: seq<Item>, oracle: Oracle)
    requires RanWell(r, l1, queue1, oracle) && Follows(l1, l) && queue <= queue1
    requires Quiet(oracle) ==> l1.dropped == l.dropped
    ensures RanWell(r, l, queue, oracle)
  {
    FollowsIsTransitive(r.0, l1, l);
  }

  lemma RunsWellStep(l: Ledger, queue: seq<Item>, i: nat, effect: Effect, oracle: Oracle)
    requires QueueOf(queue, l) && i <= |queue| && Tame(effect, oracle)
    ensures i == |queue| ==> RanWell(RunFrom(l, queue, i, effect, oracle), l, queue, oracle)
    ensures i < |queue| ==>
              var l1 := effect(l, i, queue[i]);
              && QueueOf(Joined(queue, l1), l1) && |queue| <= PER_FRAME && i < |Joined(queue, l1)|
              && (oracle(i, queue[i]).rc < 0 ==> RanWell(RunFrom(l, queue, i, effect, oracle), l, queue, oracle))
              && (oracle(i, queue[i]).rc >= 0 && RanWell(RunFrom(l1, Joined(queue, l1), i + 1, effect, oracle), l1, Joined(queue, l1), oracle) ==>
                    RanWell(RunFrom(l, queue, i, effect, oracle), l, queue, oracle))
  {
    if i < |queue| {
      var l1 := effect(l, i, queue[i]);
      JoinedIsQueue(l1, l, queue);
      RunFromStep(l, queue, i, effect, oracle);
      assert Quiet(oracle) ==> Calm(oracle(i, queue[i]));
      hide RunFrom, Joined, QueueOf;
      if oracle(i, queue[i]).rc >= 0 && RanWell(RunFrom(l1, Joined(queue, l1), i + 1, effect, oracle), l1, Joined(queue, l1), oracle) {
        RanWellAfter(RunFrom(l1, Joined(queue, l1), i + 1, effect, oracle), l1, Joined(queue, l1), l, queue, oracle);
      }
    }
  }

  lemma {:induction false} RunFromRunsWell(l: Ledger, queue: seq<Item>, i: nat, effect: Effect, oracle: Oracle)
    requires QueueOf(queue, l) && i <= |queue| && Tame(effect, oracle)
    ensures RanWell(RunFrom(l, queue, i, effect, oracle), l, queue, oracle)
    decreases PER_FRAME - i
  {
    hide RunFrom, RanWell, Joined, Tame, Due;
    RunsWellStep(l, queue, i, effect, oracle);
    if i < |queue| && oracle(i, queue[i]).rc >= 0 {
      var l1 := effect(l, i, queue[i]);
      RunFromRunsWell(l1, Joined(queue, l1), i + 1, effect, oracle);
    }
  }

  /** Of the queue, the first n ran: none but the last of them refused, and it did unless they are all. */
  ghost predicate UpToRefusal(r: (Ledger, seq<Item>, nat), i: nat, oracle: Oracle)
  {
    && r.2 <= |r.1|
    && (forall k :: i <= k < r.2 - 1 ==> oracle(k, r.1[k]).rc >= 0)
    && (i < r.2 < |r.1| ==> oracle(r.2 - 1, r.1[r.2 - 1]).rc < 0)
    && (r.2 == i ==> i == |r.1|)
  }

  lemma {:induction false} RunFromStopsAtRefusal(l: Ledger, queue: seq<Item>, i: nat, effect: Effect, oracle: Oracle)
    requires QueueOf(queue, l) && i <= |queue| && Tame(effect, oracle)
    ensures UpToRefusal(RunFrom(l, queue, i, effect, oracle), i, oracle)
    ensures queue <= RunFrom(l, queue, i, effect, oracle).1
    decreases PER_FRAME - i
  {
    hide Due, Tame, RunFrom, UpToRefusal, Joined;
    StopsOrGoesOn(l, queue, i, effect, oracle);
    if i < |queue| && oracle(i, queue[i]).rc >= 0 {
      var l1 := effect(l, i, queue[i]);
      RunFromStopsAtRefusal(l1, Joined(queue, l1), i + 1, effect, oracle);
    }
  }

  lemma StopsOrGoesOn(l: Ledger, queue: seq<Item>, i: nat, effect: Effect, oracle: Oracle)
    requires QueueOf(queue, l) && i <= |queue| && Tame(effect, oracle)
    ensures i == |queue| || oracle(i, queue[i]).rc < 0 ==>
              UpToRefusal(RunFrom(l, queue, i, effect, oracle), i, oracle) && queue <= RunFrom(l, queue, i, effect, oracle).1
    ensures i < |queue| && oracle(i, queue[i]).rc >= 0 ==>
              var l1 := effect(l, i, queue[i]);
              && QueueOf(Joined(queue, l1), l1) && |queue| <= PER_FRAME && i < |Joined(queue, l1)|
              && var r := RunFrom(l1, Joined(queue, l1), i + 1, effect, oracle);
                 (UpToRefusal(r, i + 1, oracle) && Joined(queue, l1) <= r.1 ==>
                    UpToRefusal(RunFrom(l, queue, i, effect, oracle), i, oracle) && queue <= RunFrom(l, queue, i, effect, oracle).1)
  {
    if i < |queue| {
      JoinedIsQueue(effect(l, i, queue[i]), l, queue);
      RunFromStep(l, queue, i, effect, oracle);
    }
  }

  /** tdma_sched_execute: the bucket is run in the given order, then emptied. */
  ghost function Execute(l: Ledger, order: seq<Item>, effect: Effect, oracle: Oracle): Ledger
    requires QueueOf(order, l) && Tame(effect, oracle)
  {
    RunFromRunsWell(l, order, 0, effect, oracle);
    var (l', queue, n) := RunFrom(l, order, 0, effect, oracle);
    l'.(done := true,
        pending := Others(l'.pending, l.now),
        ran := l.ran + Stamp(l.now, queue[..n]),
        dropped := l'.dropped + multiset(Stamp(l.now, queue[n..])))
  }

  lemma ExecuteFits(l: Ledger, order: seq<Item>, effect: Effect, oracle: Oracle)
    requires QueueOf(order, l) && Tame(effect, oracle)
    ensures var r := Execute(l, order, effect, oracle);
            && Fits(r) && r.now == l.now && r.fn == l.fn && r.done && (Quiet(oracle) ==> r.dropped == l.dropped)
            && l.ran <= r.ran && (forall b :: b in r.ran[|l.ran|..] ==> b.due == l.now)
  {
    RunFromRunsWell(l, order, 0, effect, oracle);
    var (l', queue, n) := RunFrom(l, order, 0, effect, oracle);
    forall t: nat ensures |Due(Others(l'.pending, l.now), t)| <= PER_FRAME { DueOthers(l'.pending, l.now, t); }
    OthersAreOthers(l'.pending, l.now);
    if Quiet(oracle) { assert Stamp(l.now, queue[n..]) == []; }
  }

  lemma SplitByQueue(p: seq<Booking>, t: nat, queue: seq<Item>, n: nat)
    requires multiset(queue) == multiset(Due(p, t)) && n <= |queue|
    ensures multiset(p) == multiset(Stamp(t, queue[..n])) + multiset(Stamp(t, queue[n..])) + multiset(Others(p, t))
  {
    assert queue == queue[..n] + queue[n..];
    StampConcat(t, queue[..n], queue[n..]);
    StampPermutation(t, queue, Due(p, t));
    SplitByFrame(p, t);
  }

  /** Emptying the bucket moves its bookings, run or dropped, without losing one. */
  lemma ExecuteKeepsTheBooks(l: Ledger, order: seq<Item>, effect: Effect, oracle: Oracle)
    requires QueueOf(order, l) && Tame(effect, oracle)
    ensures Balanced(l) ==> Balanced(Execute(l, order, effect, oracle))
  {
    RunFromRunsWell(l, order, 0, effect, oracle);
    var (l', queue, n) := RunFrom(l, order, 0, effect, oracle);
    var ran, left := Stamp(l.now, queue[..n]), Stamp(l.now, queue[n..]);
    SplitByQueue(l'.pending, l.now, queue, n);
    assert multiset(l.ran + ran) == multiset(l.ran) + multiset(ran);
    if Balanced(l) {
      Rebalance(l'.accepted, multiset(l.ran), l'.dropped, multiset(l'.pending),
                multiset(ran), multiset(left), multiset(Others(l'.pending, l.now)));
    }
  }

  lemma Rebalance<T>(accepted: multiset<T>, ran: multiset<T>, dropped: multiset<T>, pending: multiset<T>,
                     now: multiset<T>, left: multiset<T>, later: multiset<T>)
    requires accepted == ran + dropped + pending && pending == now + left + later
    ensures accepted == (ran + now) + (dropped + left) + later
  {
  }

  predicate Triggered(fn: nat, e: MframeItem) { (fn + 2) % e.modulo == e.frameNr % e.modulo }

  /** mframe_schedule: each triggered set is booked one frame ahead. */
  function MframeSchedule(l: Ledger, mf: seq<MframeItem>): Ledger
    decreases |mf|
  {
    if mf == [] then l
    else MframeSchedule(if Triggered(l.fn, mf[0]) then BookSet(l, 1, mf[0].entries, mf[0].p3).0 else l, mf[1..])
  }

  lemma {:induction false} MframeFollows(l: Ledger, mf: seq<MframeItem>)
    requires Fits(l)
    ensures Follows(MframeSchedule(l, mf), l) && MframeSchedule(l, mf).dropped == l.dropped
    decreases |mf|
  {
    if mf != [] {
      var l' := if Triggered(l.fn, mf[0]) then BookSet(l, 1, mf[0].entries, mf[0].p3).0 else l;
      BookSetFollows(l, 1, mf[0].entries, mf[0].p3, 0);
      MframeFollows(l', mf[1..]);
    }
  }

  /** banc_fn2temps of the next frame: the frame counter wraps at the hyperframe. */
  function NextFn(fn: nat): nat { (fn + 1) % 2715648 }

  function Advance(l: Ledger): Ledger { l.(now := l.now + 1, done := false, fn := NextFn(l.fn)) }

  /** l1_sync, as far as the scheduler goes. */
  ghost function L1Sync(l: Ledger, mf: seq<MframeItem>, order: seq<Item>, effect: Effect, oracle: Oracle): Ledger
    requires QueueOf(order, l) && Tame(effect, oracle)
  {
    Advance(MframeSchedule(Execute(l, order, effect, oracle), mf))
  }

  // ----- whole runs -----

  datatype Op =
    | Outside(a: Action)
    | Frame(mf: seq<MframeItem>, order: seq<Item>, oracle: Oracle)

  /** Runs: operations between frames, and frames that run their bucket in priority order. */
  ghost predicate Legal(l: Ledger, ops: seq<Op>)
    requires Fits(l) && !l.done
    decreases |ops|
  {
    ops != [] ==>
      && (ops[0].Frame? ==> PriorityOrder(ops[0].order, Due(l.pending, l.now)))
      && (StepKeepsTheBooks(l, ops[0]); Legal(Step(l, ops[0]), ops[1..]))
  }

  lemma SameLength(a: seq<Item>, b: seq<Item>)
    requires multiset(a) == multiset(b)
    ensures |a| == |b|
  {
    assert |multiset(a)| == |a| && |multiset(b)| == |b|;
  }

  ghost function Step(l: Ledger, op: Op): Ledger
    requires Fits(l) && !l.done
    requires op.Frame? ==> PriorityOrder(op.order, Due(l.pending, l.now))
  {
    match op
    case Outside(a) => Perform(l, a)
    case Frame(mf, order, oracle) =>
      SameLength(order, Due(l.pending, l.now));
      EffectIsTame(oracle);
      L1Sync(l, mf, order, EffectOf(oracle), oracle)
  }

  ghost predicate QuietOp(op: Op)
  {
    match op
    case Outside(a) => !a.Reset?
    case Frame(_, _, oracle) => Quiet(oracle)
  }

  lemma StepKeepsTheBooks(l: Ledger, op: Op)
    requires Fits(l) && !l.done
    requires op.Frame? ==> PriorityOrder(op.order, Due(l.pending, l.now))
    ensures var r := Step(l, op);
            && Fits(r) && !r.done
            && (Balanced(l) ==> Balanced(r))
            && (QuietOp(op) ==> r.dropped == l.dropped)
            && l.ran <= r.ran && (forall b :: b in r.ran[|l.ran|..] ==> b.due == l.now < r.now)
            && l.now <= r.now <= l.now + 1
  {
    match op
    case Outside(a) => PerformFollows(l, a);
    case Frame(mf, order, oracle) =>
      SameLength(order, Due(l.pending, l.now));
      EffectIsTame(oracle);
      ExecuteFits(l, order, EffectOf(oracle), oracle);
      ExecuteKeepsTheBooks(l, order, EffectOf(oracle), oracle);
      MframeFollows(Execute(l, order, EffectOf(oracle), oracle), mf);
  }

  ghost function RunOps(l: Ledger, ops: seq<Op>): Ledger
    requires Fits(l) && !l.done && Legal(l, ops)
    decreases |ops|
  {
    if ops == [] then l else (StepKeepsTheBooks(l, ops[0]); RunOps(Step(l, ops[0]), ops[1..]))
  }

  lemma {:induction false} RunAppend(l: Ledger, ops: seq<Op>, op: Op)
    requires Fits(l) && !l.done && Legal(l, ops) && Fits(RunOps(l, ops)) && !RunOps(l, ops).done
    requires op.Frame? ==> PriorityOrder(op.order, Due(RunOps(l, ops).pending, RunOps(l, ops).now))
    ensures Legal(l, ops + [op]) && RunOps(l, ops + [op]) == Step(RunOps(l, ops), op)
    decreases |ops|
  {
    var all := ops + [op];
    if ops == [] {
      StepKeepsTheBooks(l, op);
      assert all[1..] == [];
    } else {
      StepKeepsTheBooks(l, ops[0]);
      RunAppend(Step(l, ops[0]), ops[1..], op);
      assert all[1..] == ops[1..] + [op];
    }
  }

  function Initial(fn: nat): Ledger { Ledger(0, false, fn, [], multiset{}, [], multiset{}) }

  ghost predicate Sound(l: Ledger)
  {
    && Fits(l) && !l.done && Balanced(l)
    && (forall b :: b in l.ran ==> b.due < l.now)
  }

  lemma {:induction false} RunIsSound(l: Ledger, ops: seq<Op>)
    requires Sound(l) && Legal(l, ops)
    ensures Sound(RunOps(l, ops))
    ensures (forall op :: op in ops ==> QuietOp(op)) ==> RunOps(l, ops).dropped == l.dropped
    decreases |ops|
  {
    if ops != [] {
      StepKeepsTheBooks(l, ops[0]);
      var r := Step(l, ops[0]);
      assert r.ran == l.ran + r.ran[|l.ran|..];
      RunIsSound(r, ops[1..]);
    }
  }

  /** Of one frame, the items booked before it run first, by priority; later ones run in order. */
  lemma FrameRunsByPriority(l: Ledger, order: seq<Item>, effect: Effect, oracle: Oracle)
    requires QueueOf(order, l) && Sorted(order) && Tame(effect, oracle)
    ensures var (l', queue, n) := RunFrom(l, order, 0, effect, oracle);
            && n <= |queue|
            && Execute(l, order, effect, oracle).ran == l.ran + Stamp(l.now, queue[..n])
            && Sorted(queue[..if n < |order| then n else |order|])
            && (Quiet(oracle) ==> n == |queue|)
            && UpToRefusal((l', queue, n), 0, oracle)
  {
    hide RunFrom, UpToRefusal, QueueOf, Tame, Sorted;
    RunFromRunsWell(l, order, 0, effect, oracle);
    RunFromStopsAtRefusal(l, order, 0, effect, oracle);
    var (l', queue, n) := RunFrom(l, order, 0, effect, oracle);
    SortedStart(order, queue, if n < |order| then n else |order|);
  }

  lemma SortedStart(order: seq<Item>, queue: seq<Item>, n: nat)
    requires Sorted(order) && order <= queue && n <= |order|
    ensures Sorted(queue[..n])
  {
    assert queue[..n] == order[..n];
  }

  // ----- schedule sets -----

  /** The bookings a whole set asks for: each item in the frame of its end-of-frame count. */
  function Asked(l: Ledger, off: Offset, entries: seq<Entry>, p3: int): seq<Booking>
    decreases |entries|
  {
    if entries == [] then []
    else match entries[0]
      case EndFrame => Asked(l, (off + 1) % 256, entries[1..], p3)
      case Run(item) => [Booking(DueFrame(l, off), item.(p3 := p3))] + Asked(l, off, entries[1..], p3)
  }

  function EndFrames(entries: seq<Entry>): nat
  {
    if entries == [] then 0 else EndFrames(entries[1..]) + if entries[0] == EndFrame then 1 else 0
  }

  /** l' is l with the bookings bs accepted on top. */
  ghost predicate Booked(l': Ledger, l: Ledger, bs: seq<Booking>)
  {
    l' == l.(pending := l.pending + bs, accepted := l.accepted + multiset(bs))
  }

  lemma BookedCons(l2: Ledger, l1: Ledger, l: Ledger, b: Booking, bs: seq<Booking>)
    requires Booked(l1, l, [b]) && Booked(l2, l1, bs)
    ensures Booked(l2, l, [b] + bs)
  {
    assert l.pending + [b] + bs == l.pending + ([b] + bs);
    assert multiset([b] + bs) == multiset([b]) + multiset(bs);
  }

  /** How many items of a set are accepted. */
  function Taken(l: Ledger, off: Offset, entries: seq<Entry>, p3: int): nat
    decreases |entries|
  {
    if entries == [] then 0
    else match entries[0]
      case EndFrame => Taken(l, (off + 1) % 256, entries[1..], p3)
      case Run(item) =>
        var (l', rc) := Book(l, off, item.(p3 := p3));
        if rc < 0 then 0 else 1 + Taken(l', off, entries[1..], p3)
  }

  /** l' is l with the first n of the bookings asked for, all of them or up to a full frame. */
  ghost predicate PrefixBooked(l': Ledger, l: Ledger, asked: seq<Booking>, n: nat)
  {
    && n <= |asked| && Booked(l', l, asked[..n])
    && (n < |asked| ==> |Due(l'.pending, asked[n].due)| >= PER_FRAME)
  }

  lemma PrefixCons(l2: Ledger, l1: Ledger, l: Ledger, b: Booking, tail: seq<Booking>, n: nat)
    requires Booked(l1, l, [b]) && PrefixBooked(l2, l1, tail, n)
    ensures PrefixBooked(l2, l, [b] + tail, n + 1)
  {
    assert ([b] + tail)[..n + 1] == [b] + tail[..n];
    BookedCons(l2, l1, l, b, tail[..n]);
  }

  /**
   tdma_schedule_set books exactly a prefix of what the set asks for, in order: all of it, with
   the number of frames returned, or up to the first item whose bucket is full, with -1.
   */
  lemma {:induction false} SetBooksAPrefix(l: Ledger, off: Offset, entries: seq<Entry>, p3: int, frames: nat)
    ensures var (l', rc) := BookSet(l, off, entries, p3, frames);
            var asked, n := Asked(l, off, entries, p3), Taken(l, off, entries, p3);
            && PrefixBooked(l', l, asked, n)
            && rc == if n == |asked| then frames + EndFrames(entries) else -1
    decreases |entries|
  {
    if entries == [] {
      assert l.pending + [] == l.pending;
    } else {
      match entries[0]
      case EndFrame => SetBooksAPrefix(l, (off + 1) % 256, entries[1..], p3, frames + 1);
      case Run(item) =>
        var (l', rc) := Book(l, off, item.(p3 := p3));
        if rc < 0 {
          assert l.pending + Asked(l, off, entries, p3)[..0] == l.pending;
        } else {
          SetBooksAPrefix(l', off, entries[1..], p3, frames);
          AskedDependsOnClock(l', l, off, entries[1..], p3);
          PrefixCons(BookSet(l', off, entries[1..], p3, frames).0, l', l, Booking(DueFrame(l, off), item.(p3 := p3)),
                     Asked(l, off, entries[1..], p3), Taken(l', off, entries[1..], p3));
        }
    }
  }

  lemma {:induction false} AskedDependsOnClock(l2: Ledger, l: Ledger, off: Offset, entries: seq<Entry>, p3: int)
    requires l2.now == l.now && l2.done == l.done
    ensures Asked(l2, off, entries, p3) == Asked(l, off, entries, p3)
    decreases |entries|
  {
    if entries != [] {
      match entries[0]
      case EndFrame => AskedDependsOnClock(l2, l, (off + 1) % 256, entries[1..], p3);
      case Run(_) => AskedDependsOnClock(l2, l, off, entries[1..], p3);
    }
  }

  /** An offset below 25 names the frame that many frames ahead, and no larger offset does. */
  lemma OffsetsBelow25(l: Ledger, off: Offset)
    requires !l.done
    ensures DueFrame(l, off) == l.now + off <==> off < FRAMES
  {
  }

  // ----- multiframe timing -----

  /** The number banc_suivant holds in the l1_sync after the one of frame fn. */
  function SecondNext(fn: nat): nat { NextFn(NextFn(fn)) }

  /**
   An entry triggered in frame fn runs its first command in the next l1_sync, whose own next
   frame number is SecondNext(fn). Over the whole frame counter, wrap included, entries of one
   period trigger exactly before the numbers congruent to theirs if and only if the period
   divides the hyperframe.
   */
  lemma MframeTiming(m: Modulo)
    ensures (forall fn: nat, e: MframeItem :: fn < HYPERFRAME && e.modulo == m ==>
              (Triggered(fn, e) <==> SecondNext(fn) % m == e.frameNr % m))
            <==> HYPERFRAME % m == 0
  {
    if HYPERFRAME % m == 0 {
      forall fn: nat | fn < HYPERFRAME ensures (fn + 2) % m == SecondNext(fn) % m {
        if fn + 2 >= HYPERFRAME {
          var x := fn + 2 - HYPERFRAME;
          Divided(fn + 2, m, x % m, x / m + HYPERFRAME / m);
        }
      }
    } else {
      var fn := HYPERFRAME - 2;
      var e := MframeItem([], m, 0, 0);
      assert SecondNext(fn) % m == e.frameNr % m && !Triggered(fn, e);
    }
  }

  /** One frame of a set: its items, then the end-of-frame mark. */
  function FrameOf(items: seq<Item>): seq<Entry>
  {
    if items == [] then [EndFrame] else [Run(items[0])] + FrameOf(items[1..])
  }

  function WithP3(items: seq<Item>, p3: int): seq<Item>
  {
    seq(|items|, i requires 0 <= i < |items| => items[i].(p3 := p3))
  }

  lemma {:induction false} AskedFrame(l: Ledger, off: Offset, items: seq<Item>, rest: seq<Entry>, p3: int)
    ensures Asked(l, off, FrameOf(items) + rest, p3) ==
            Stamp(DueFrame(l, off), WithP3(items, p3)) + Asked(l, (off + 1) % 256, rest, p3)
    decreases |items|
  {
    var entries := FrameOf(items) + rest;
    if items == [] {
      assert entries[1..] == rest;
    } else {
      assert entries[1..] == FrameOf(items[1..]) + rest;
      AskedFrame(l, off, items[1..], rest, p3);
    }
  }

  /** The bookings of a set given frame by frame. */
  function Frames(fs: seq<seq<Item>>): seq<Entry>
  {
    if fs == [] then [] else FrameOf(fs[0]) + Frames(fs[1..])
  }

  function StampFrames(t: nat, fs: seq<seq<Item>>, p3: int): seq<Booking>
    decreases |fs|
  {
    if fs == [] then [] else Stamp(t, WithP3(fs[0], p3)) + StampFrames(t + 1, fs[1..], p3)
  }

  lemma NearOffset(l: Ledger, off: Offset)
    requires off < FRAMES && (l.done ==> off > 0)
    ensures DueFrame(l, off) == l.now + off
  {
  }

  lemma AskedNothing(l: Ledger, off: Offset, p3: int)
    ensures Asked(l, off, [], p3) == []
  {
  }

  /** A set that stays within the ring of buckets is booked frame after frame, in its own order. */
  lemma {:induction false} SetIsBookedInSequence(l: Ledger, off: Offset, fs: seq<seq<Item>>, p3: int)
    requires off + |fs| <= FRAMES && (l.done ==> off > 0)
    ensures Asked(l, off, Frames(fs), p3) == StampFrames(l.now + off, fs, p3)
    decreases |fs|
  {
    hide Asked, FrameOf, DueFrame, Stamp, WithP3;
    if fs == [] {
      AskedNothing(l, off, p3);
    } else {
      AskedFrame(l, off, fs[0], Frames(fs[1..]), p3);
      assert DueFrame(l, off) == l.now + off && (off + 1) % 256 == off + 1 by { NearOffset(l, off); }
      if |fs| > 1 {
        SetIsBookedInSequence(l, off + 1, fs[1..], p3);
      } else {
        assert fs[1..] == [];
        AskedNothing(l, off + 1, p3);
      }
    }
  }
}

/**
 The TDMA and multiframe scheduler: a ring of 25 buckets of at most 8 items, advanced once per
 l1_sync. Every method is proved against the calendar, with the ring as its representation.
 Callbacks are given by what they do to the scheduler and what they return.
 */
module TdmaScheduler {
  import opened Calendar
  import opened Division

  lemma RingPosition(now: nat, off: nat)
    ensures (now % 25 + off) % 25 == (now + off % 25) % 25 == (now + off) % 25
  {
    var s := now % 25 + off;
    Divided(now + off, 25, s % 25, now / 25 + s / 25);
    var u := now + off % 25;
    Divided(now + off, 25, u % 25, off / 25 + u / 25);
  }

  /** Within any 25 consecutive frames, no two share a bucket. */
  lemma RingIsInjective(s: nat, t: nat)
    requires s % 25 == t % 25 && s < t + FRAMES && t < s + FRAMES
    ensures s == t
  {
    assert s == 25 * (s / 25) + s % 25 && t == 25 * (t / 25) + t % 25;
  }

  /** The frame, among 25 from a first one on, that bucket k stands for. */
  function Slot(first: nat, k: nat): nat { first + (k - first) % 25 }

  lemma SlotIsBucket(l: Ledger, k: nat)
    requires k < FRAMES
    ensures First(l) <= Slot(First(l), k) < First(l) + FRAMES && Slot(First(l), k) % 25 == k
  {
    var d := k - First(l);
    Divided(Slot(First(l), k), 25, k, -(d / 25));
  }

  lemma SlotIsUnique(l: Ledger, t: nat)
    requires First(l) <= t < First(l) + FRAMES
    ensures Slot(First(l), t % 25) == t
  {
    SlotIsBucket(l, t % 25);
    RingIsInjective(t, Slot(First(l), t % 25));
  }

  /** What the buckets hold when the ledger is l. */
  function Ring(l: Ledger): (r: seq<seq<Item>>)
    ensures |r| == FRAMES
  {
    seq(FRAMES, k requires 0 <= k < FRAMES => Due(l.pending, Slot(First(l), k)))
  }

  /** The bucket at an offset is the one of the frame that offset stands for. */
  lemma BucketOfOffset(l: Ledger, cur: nat, off: nat)
    requires cur == l.now % 25
    ensures Slot(First(l), (cur + off) % 25) == DueFrame(l, off)
  {
    RingPosition(l.now, off);
    RingPosition(l.now, FRAMES);
    SlotIsUnique(l, DueFrame(l, off));
    assert DueFrame(l, off) % 25 == (cur + off) % 25;
  }

  /** Booking appends to the bucket at the offset, unless that bucket is full. */
  lemma RingAfterBooking(l: Ledger, cur: nat, off: Offset, item: Item)
    requires cur == l.now % 25
    ensures var nr := (cur + off) % 25;
            var (l', rc) := Book(l, off, item);
            if |Ring(l)[nr]| >= PER_FRAME then l' == l && rc == -1
            else Ring(l') == Ring(l)[nr := Ring(l)[nr] + [item]] && rc == 0
  {
    var b := Booking(DueFrame(l, off), item);
    var l' := Book(l, off, item).0;
    var nr := (cur + off) % 25;
    BucketOfOffset(l, cur, off);
    if |Ring(l)[nr]| < PER_FRAME {
      forall k: nat | k < FRAMES
        ensures Ring(l')[k] == Ring(l)[nr := Ring(l)[nr] + [item]][k]
      {
        DueAppend(l.pending, b, Slot(First(l), k));
        SlotIsBucket(l, k);
        SlotIsBucket(l, nr);
      }
    }
  }

  lemma BookedInRing(l: Ledger, cur: nat, off: Offset, item: Item)
    requires Fits(l) && cur == l.now % 25
    ensures var nr, r := (cur + off) % 25, Book(l, off, item);
            if |Ring(l)[nr]| >= PER_FRAME then r == (l, -1)
            else
              && Ring(r.0) == Ring(l)[nr := Ring(l)[nr] + [item]] && r.1 == 0
              && Fits(r.0) && r.0.now == l.now && r.0.fn == l.fn
  {
    RingAfterBooking(l, cur, off, item);
    BookFollows(l, off, item);
  }

  lemma CurrentBucket(l: Ledger, cur: nat)
    requires cur == l.now % 25
    ensures Slot(First(l), cur) == DueFrame(l, 0)
  {
    BucketOfOffset(l, cur, 0);
    assert (cur + 0) % 25 == cur;
  }

  lemma SlotsDiffer(l: Ledger, cur: nat, k: nat)
    requires cur == l.now % 25 && k < FRAMES
    ensures Slot(First(l), k) == DueFrame(l, 0) <==> k == cur
  {
    CurrentBucket(l, cur);
    SlotIsBucket(l, k);
  }

  lemma SlotAfterReset(l: Ledger, cur: nat, k: nat)
    requires cur == l.now % 25 && k < FRAMES
    ensures Due(ResetLater(l).pending, Slot(First(l), k)) == if k == cur then Due(l.pending, Slot(First(l), k)) else []
  {
    var c := DueFrame(l, 0);
    SlotsDiffer(l, cur, k);
    DueStamp(c, Due(l.pending, c), Slot(First(l), k));
  }

  /** A reset empties every bucket but the current one. */
  lemma RingAfterReset(l: Ledger, cur: nat)
    requires cur == l.now % 25
    ensures Ring(ResetLater(l)) == seq(FRAMES, k requires 0 <= k < FRAMES => if k == cur then Ring(l)[k] else [])
  {
    assert First(ResetLater(l)) == First(l);
    forall k: nat | k < FRAMES ensures Ring(ResetLater(l))[k] == if k == cur then Ring(l)[k] else [] {
      SlotAfterReset(l, cur, k);
    }
  }

  function Swap<T>(s: seq<T>, i: nat, j: nat): (r: seq<T>)
    requires i < |s| && j < |s|
    ensures |r| == |s|
  {
    s[i := s[j]][j := s[i]]
  }

  lemma SwapKeepsElements<T>(s: seq<T>, i: nat, j: nat)
    requires i < |s| && j < |s|
    ensures multiset(Swap(s, i, j)) == multiset(s)
  {
  }

  /** The table of positions names the picked items in place, and leaves the unused positions alone. */
  ghost predicate IsTable(order: seq<nat>, picked: seq<Item>, items: seq<Item>)
  {
    && |order| == PER_FRAME && |picked| == |items| <= PER_FRAME
    && (forall k :: 0 <= k < |items| ==> order[k] < |items| && picked[k] == items[order[k]])
    && (forall k :: |items| <= k < PER_FRAME ==> order[k] == k)
  }

  lemma TableGrows(table: seq<nat>, queue: seq<Item>, items: seq<Item>, more: seq<Item>)
    requires IsTable(table, queue, items) && |items| + |more| <= PER_FRAME
    ensures IsTable(table, queue + more, items + more)
  {
  }

  /** Items that join the queue keep their own position, as the table has it. */
  lemma TableExtends(l': Ledger, l: Ledger, queue: seq<Item>, table: seq<nat>)
    requires QueueOf(queue, l) && Follows(l', l) && IsTable(table, queue, Due(l.pending, l.now))
    ensures QueueOf(Joined(queue, l'), l') && queue <= Joined(queue, l')
    ensures IsTable(table, Joined(queue, l'), Due(l'.pending, l'.now))
  {
    JoinedIsQueue(l', l, queue);
    var d, d' := Due(l.pending, l.now), Due(l'.pending, l.now);
    TableGrows(table, queue, d, d'[|queue|..]);
    assert d' == d + d'[|queue|..];
  }

  /** The first i items are in place: none of them comes after a later one. */
  ghost predicate Settled(p: seq<Item>, i: int) { forall a, b :: 0 <= a < i && a < b < |p| ==> p[a].prio <= p[b].prio }

  /** Item i has the least priority among those from i up to j. */
  ghost predicate LeastUpTo(p: seq<Item>, i: nat, j: int)
    requires i < |p|
  {
    forall b :: i < b < j && b < |p| ==> p[i].prio <= p[b].prio
  }

  lemma SwapStep(order: seq<nat>, picked: seq<Item>, items: seq<Item>, i: nat, j: nat)
    requires IsTable(order, picked, items) && i < j < |items|
    requires Settled(picked, i) && LeastUpTo(picked, i, j) && picked[i].prio > picked[j].prio
    ensures IsTable(Swap(order, i, j), Swap(picked, i, j), items)
    ensures multiset(Swap(picked, i, j)) == multiset(picked)
    ensures Settled(Swap(picked, i, j), i) && LeastUpTo(Swap(picked, i, j), i, j + 1)
  {
    SwapKeepsElements(picked, i, j);
  }

  lemma {:induction false} NothingDue(p: seq<Booking>, t: nat)
    requires forall b :: b in p ==> b.due != t
    ensures Due(p, t) == []
  {
    if p != [] {
      assert p[|p| - 1] in p;
      forall b | b in p[..|p| - 1] ensures b.due != t { assert b in p; }
      NothingDue(p[..|p| - 1], t);
    }
  }

  lemma SlotAfterExecution(l: Ledger, l': Ledger, cur: nat, k: nat)
    requires Fits(l) && !l.done && l'.done && l'.now == l.now && l'.pending == Others(l.pending, l.now)
    requires cur == l.now % 25 && k < FRAMES
    ensures Due(l'.pending, Slot(First(l'), k)) == if k == cur then [] else Due(l.pending, Slot(First(l), k))
  {
    var t := Slot(First(l'), k);
    SlotIsBucket(l', k);
    DueOthers(l.pending, l.now, t);
    if k == cur {
      RingPosition(l.now, FRAMES);
      RingIsInjective(t, l.now + FRAMES);
      NothingDue(l.pending, t);
    } else {
      if t == l.now + FRAMES { RingPosition(l.now, FRAMES); }
      SlotIsUnique(l, t);
    }
  }

  /** Running the current bucket empties it and touches no other. */
  lemma RingAfterExecution(l: Ledger, l': Ledger, cur: nat)
    requires Fits(l) && !l.done && l'.done && l'.now == l.now && l'.pending == Others(l.pending, l.now)
    requires cur == l.now % 25
    ensures Ring(l') == Ring(l)[cur := []]
  {
    forall k: nat | k < FRAMES ensures Ring(l')[k] == Ring(l)[cur := []][k] {
      SlotAfterExecution(l, l', cur, k);
    }
  }

  lemma RingAfterAdvance(l: Ledger)
    requires l.done
    ensures Ring(Advance(l)) == Ring(l)
  {
  }

  method Exchange(order: array<nat>, i: nat, j: nat)
    requires i < j < order.Length
    modifies order
    ensures order[..] == Swap(old(order[..]), i, j)
  {
    order[i], order[j] := order[j], order[i];
  }

  /** The inner loop of the bucket sort: exchanges bring the least remaining item to position i. */
  method Settle(order: array<nat>, items: seq<Item>, i: nat, ghost before: seq<Item>) returns (ghost picked: seq<Item>)
    requires i < |items| && IsTable(order[..], before, items) && Settled(before, i)
    modifies order
    ensures IsTable(order[..], picked, items) && multiset(picked) == multiset(before) && Settled(picked, i + 1)
  {
    picked := before;
    var ii := items[order[i]];
    for j := i + 1 to |items|
      invariant IsTable(order[..], picked, items) && multiset(picked) == multiset(before) && Settled(picked, i)
      invariant ii == picked[i] && LeastUpTo(picked, i, j)
    {
      var jj := items[order[..][j]];
      if ii.prio > jj.prio {
        ii := jj;
        SwapStep(order[..], picked, items, i, j);
        Exchange(order, i, j);
        picked := Swap(picked, i, j);
      }
    }
  }

  /**
   The bucket sort: a table of positions is sorted by exchanges, the items stay in place. The
   table is a permutation, nondecreasing in priority; positions beyond the items keep their own.
   */
  method BucketSort(items: seq<Item>) returns (order: array<nat>, ghost picked: seq<Item>)
    requires |items| <= PER_FRAME
    ensures fresh(order) && IsTable(order[..], picked, items)
    ensures PriorityOrder(picked, items)
  {
    order := new nat[PER_FRAME](k => k);
    picked := items;
    for i := 0 to |items|
      invariant IsTable(order[..], picked, items) && multiset(picked) == multiset(items) && Settled(picked, i)
    {
      picked := Settle(order, items, i, picked);
    }
  }

  method ClearAllBut(bucket: array<seq<Item>>, cur: nat)
    requires bucket.Length == FRAMES
    modifies bucket
    ensures bucket[..] == seq(FRAMES, k requires 0 <= k < FRAMES => if k == cur then old(bucket[..])[k] else [])
  {
    for i := 0 to FRAMES
      invariant forall k :: 0 <= k < FRAMES ==> bucket[k] == if k < i && k != cur then [] else old(bucket[k])
    {
      if i != cur { bucket[i] := []; }
    }
  }

  ghost predicate Asks(l: Ledger, i: nat, x: Item) { true }  // only triggers the next quantifier

  ghost predicate Performs(effect: Effect, oracle: Oracle)
  {
    forall l: Ledger, i: nat, x: Item {:trigger Asks(l, i, x)} :: effect(l, i, x) == PerformAll(l, oracle(i, x).actions)
  }

  /** One frame for each oracle, with the same multiframe entries. */
  ghost predicate Framed(ops: seq<Op>, mf: seq<MframeItem>, oracles: seq<Oracle>)
  {
    |ops| <= |oracles| && forall k :: 0 <= k < |ops| ==> ops[k].Frame? && ops[k].mf == mf && ops[k].oracle == oracles[k]
  }

  lemma OneMoreFrame(ops: seq<Op>, mf: seq<MframeItem>, oracles: seq<Oracle>, order: seq<Item>)
    requires Framed(ops, mf, oracles) && |ops| < |oracles|
    ensures Framed(ops + [Frame(mf, order, oracles[|ops|])], mf, oracles)
  {
  }

  lemma NoFrames(l: Ledger, mf: seq<MframeItem>, oracles: seq<Oracle>)
    requires Fits(l) && !l.done
    ensures Legal(l, []) && RunOps(l, []) == l && Framed([], mf, oracles)
  {
  }

  lemma FrameIsStep(l: Ledger, mf: seq<MframeItem>, order: seq<Item>, oracle: Oracle)
    requires QueueOf(order, l) && Sorted(order) && Tame(EffectOf(oracle), oracle)
    ensures Fits(l) && !l.done && PriorityOrder(order, Due(l.pending, l.now))
    ensures Step(l, Frame(mf, order, oracle)) == Calendar.L1Sync(l, mf, order, EffectOf(oracle), oracle)
  {
  }

  lemma EffectPerforms(oracle: Oracle)
    ensures Performs(EffectOf(oracle), oracle) && Tame(EffectOf(oracle), oracle)
  {
    EffectIsTame(oracle);
  }

  class Scheduler {
    var bucket: array<seq<Item>>
    var cur: nat
    var courant: nat
    var suivant: nat
    var mf: seq<MframeItem>
    ghost var ledger: Ledger

    ghost predicate Valid()
      reads this, bucket
    {
      && bucket.Length == FRAMES && cur == ledger.now % 25
      && Fits(ledger) && ledger.fn < HYPERFRAME
      && bucket[..] == Ring(ledger)
    }

    /** Between two calls of l1_sync. */
    ghost predicate AtRest()
      reads this, bucket
    {
      Valid() && !ledger.done && suivant == ledger.fn
    }

    constructor (fn: nat)
      requires fn < HYPERFRAME
      ensures AtRest() && ledger == Initial(fn) && fresh(bucket)
    {
      bucket := new seq<Item>[FRAMES](_ => []);
      cur := 0;
      courant := fn;
      suivant := fn;
      mf := [];
      ledger := Initial(fn);
    }

    method TdmaSchedule(off: Offset, item: Item) returns (rc: int)
      requires Valid()
      modifies this`ledger, bucket
      ensures Valid()
      ensures (ledger, rc) == Book(old(ledger), off, item)
    {
      var nr := (cur + off) % 25;
      BookedInRing(ledger, cur, off, item);
      hide Book, Ring, Fits;
      assert bucket[nr] == bucket[..][nr];
      if |bucket[nr]| >= PER_FRAME { return -1; }
      Append(nr, item);
      ledger := Book(ledger, off, item).0;
      rc := 0;
    }

    method Append(nr: nat, item: Item)
      requires nr < bucket.Length
      modifies bucket
      ensures bucket[..] == old(bucket[..])[nr := old(bucket[nr]) + [item]]
    {
      bucket[nr] := bucket[nr] + [item];
    }

    method TdmaScheduleSet(off: Offset, entries: seq<Entry>, p3: int) returns (rc: int)
      requires Valid()
      modifies this`ledger, bucket
      ensures Valid()
      ensures (ledger, rc) == BookSet(old(ledger), off, entries, p3)
    {
      var o: Offset := off;
      var j := 0;
      var i := 0;
      while i < |entries|
        invariant 0 <= i <= |entries| && j >= 0 && Valid()
        invariant BookSet(ledger, o, entries[i..], p3, j) == BookSet(old(ledger), off, entries, p3)
      {
        match entries[i] {
          case EndFrame =>
            o := (o + 1) % 256;
            j := j + 1;
          case Run(item) =>
            var full := TdmaSchedule(o, item.(p3 := p3));
            if full < 0 { return -1; }
        }
        i := i + 1;
      }
      rc := j;
    }

    method TdmaSchedReset()
      requires Valid()
      modifies this`ledger, bucket
      ensures Valid()
      ensures ledger == ResetLater(old(ledger))
    {
      ClearAllBut(bucket, cur);
      RingAfterReset(ledger, cur);
      ResetFollows(ledger);
      ledger := ResetLater(ledger);
    }

    /** What one callback does, action after action. */
    method Callback(actions: seq<Action>)
      requires Valid()
      modifies this`ledger, bucket
      ensures Valid()
      ensures ledger == PerformAll(old(ledger), actions)
    {
      for i := 0 to |actions|
        invariant Valid()
        invariant PerformAll(ledger, actions[i..]) == PerformAll(old(ledger), actions)
      {
        assert actions[i..][1..] == actions[i + 1..];
        match actions[i]
        case Schedule(off, item) => var _ := TdmaSchedule(off, item);
        case ScheduleSet(off, entries, p3) => var _ := TdmaScheduleSet(off, entries, p3);
        case Reset => TdmaSchedReset();
      }
    }

    /** One callback of the current bucket, that of the item the table names; what it adds is found at the end of the table. */
    method RunItem(i: nat, table: array<nat>, oracle: Oracle, ghost effect: Effect, ghost queue: seq<Item>) returns (rc: int)
      requires Running(queue, table[..]) && i < |queue| && Performs(effect, oracle) && Tame(effect, oracle)
      modifies this`ledger, bucket
      ensures Running(Joined(queue, ledger), table[..]) && queue <= Joined(queue, ledger)
      ensures ledger == effect(old(ledger), i, queue[i]) && rc == oracle(i, queue[i]).rc
    {
      var item := bucket[cur][table[i]];
      assert item == queue[i] by { assert table[..][i] == table[i]; }
      var outcome := oracle(i, item);
      assert Asks(ledger, i, item);
      CurrentBucket(ledger, cur);
      assert bucket[cur] == bucket[..][cur] == Due(ledger.pending, ledger.now);
      Callback(outcome.actions);
      TableExtends(ledger, old(ledger), queue, table[..]);
      CurrentBucket(ledger, cur);
      assert bucket[cur] == bucket[..][cur] == Due(ledger.pending, ledger.now);
      rc := outcome.rc;
    }

    /** The items of the current bucket, in priority order, while callbacks may add to it. */
    method RunItems(table: array<nat>, oracle: Oracle, ghost effect: Effect, ghost order: seq<Item>)
      requires Valid() && QueueOf(order, ledger) && Performs(effect, oracle) && Tame(effect, oracle)
      requires IsTable(table[..], order, bucket[cur])
      modifies this`ledger, bucket
      ensures Valid()
      ensures ledger == RunFrom(old(ledger), order, 0, effect, oracle).0
    {
      ghost var queue, whole := order, RunFrom(ledger, order, 0, effect, oracle);
      var i := 0;
      while i < |bucket[cur]|
        invariant Running(queue, table[..]) && i <= |queue|
        invariant RunFrom(ledger, queue, i, effect, oracle) == whole
        decreases PER_FRAME - i
      {
        assert |queue| == |bucket[cur]|;
        RunFromStep(ledger, queue, i, effect, oracle);
        var rc := RunItem(i, table, oracle, effect, queue);
        queue := Joined(queue, ledger);
        i := i + 1;
        if rc < 0 { return; }
      }
    }

    ghost predicate Running(queue: seq<Item>, table: seq<nat>)
      reads this, bucket
    {
      Valid() && QueueOf(queue, ledger) && IsTable(table, queue, bucket[cur])
    }

    method RunCurrentBucket(oracle: Oracle, ghost effect: Effect) returns (ghost order: seq<Item>)
      requires Valid() && !ledger.done && Performs(effect, oracle) && Tame(effect, oracle)
      modifies this`ledger, bucket
      ensures Valid()
      ensures QueueOf(order, old(ledger)) && Sorted(order)
      ensures ledger == RunFrom(old(ledger), order, 0, effect, oracle).0
    {
      CurrentBucket(ledger, cur);
      assert bucket[cur] == bucket[..][cur] == Due(ledger.pending, ledger.now);
      var table;
      table, order := BucketSort(bucket[cur]);
      SameLength(order, bucket[cur]);
      RunItems(table, oracle, effect, order);
    }

    /** tdma_sched_execute: run the bucket, then empty it. */
    method TdmaSchedExecute(oracle: Oracle, ghost effect: Effect) returns (ghost order: seq<Item>)
      requires Valid() && !ledger.done && Performs(effect, oracle) && Tame(effect, oracle)
      modifies this`ledger, bucket
      ensures Valid() && ledger.done && ledger.now == old(ledger).now && ledger.fn == old(ledger).fn
      ensures QueueOf(order, old(ledger)) && Sorted(order)
      ensures ledger == Execute(old(ledger), order, effect, oracle)
    {
      order := RunCurrentBucket(oracle, effect);
      ghost var l := Execute(old(ledger), order, effect, oracle);
      ExecuteFits(old(ledger), order, effect, oracle);
      RunFromRunsWell(old(ledger), order, 0, effect, oracle);
      RingAfterExecution(ledger, l, cur);
      bucket[cur] := [];
      ledger := l;
    }

    method BancMframeAjouter(e: MframeItem)
      modifies this`mf
      ensures mf == if |old(mf)| < 32 then old(mf) + [e] else old(mf)
    {
      if |mf| < 32 { mf := mf + [e]; }
    }

    method MframeSched()
      requires Valid() && ledger.done && courant == ledger.fn
      modifies this`ledger, bucket
      ensures Valid() && ledger.done && ledger.fn == old(ledger).fn && ledger.now == old(ledger).now
      ensures ledger == MframeSchedule(old(ledger), mf)
    {
      for i := 0 to |mf|
        invariant Valid() && ledger.done && ledger.fn == courant && ledger.now == old(ledger).now
        invariant MframeSchedule(ledger, mf[i..]) == MframeSchedule(old(ledger), mf)
      {
        var trigger := mf[i].frameNr % mf[i].modulo;
        var current := (courant + 2) % mf[i].modulo;
        BookSetFollows(ledger, 1, mf[i].entries, mf[i].p3, 0);
        assert mf[i..][1..] == mf[i + 1..];
        if current == trigger { var _ := TdmaScheduleSet(1, mf[i].entries, mf[i].p3); }
      }
    }

    method TdmaSchedAdvance()
      requires Valid() && ledger.done && suivant == NextFn(ledger.fn)
      modifies this`ledger, this`cur
      ensures AtRest() && ledger == Advance(old(ledger))
    {
      RingPosition(ledger.now, 1);
      RingAfterAdvance(ledger);
      cur := (cur + 1) % 25;
      ledger := Advance(ledger);
    }

    method AdvanceClock()
      requires AtRest()
      modifies this`courant, this`suivant
      ensures Valid() && courant == ledger.fn && suivant == NextFn(ledger.fn)
    {
      courant := suivant;
      suivant := (courant + 1) % 2715648;
    }

    /**
     l1_sync: the clock, the bucket of this frame, the multiframe sets of the next, the ring.
     The effect stands for what the callbacks do to the ledger.
     */
    method L1Sync(oracle: Oracle, ghost effect: Effect) returns (ghost order: seq<Item>)
      requires AtRest() && Performs(effect, oracle) && Tame(effect, oracle)
      modifies this`ledger, this`cur, this`courant, this`suivant, bucket
      ensures AtRest()
      ensures QueueOf(order, old(ledger)) && Sorted(order)
      ensures ledger == Calendar.L1Sync(old(ledger), mf, order, effect, oracle)
    {
      AdvanceClock();
      order := TdmaSchedExecute(oracle, effect);
      MframeSched();
      TdmaSchedAdvance();
    }

    /** banc_courir: one frame per oracle. What happened is a legal run of the calendar. */
    method BancCourir(oracles: seq<Oracle>) returns (ghost ops: seq<Op>)
      requires AtRest()
      modifies this`ledger, this`cur, this`courant, this`suivant, bucket
      ensures AtRest() && |ops| == |oracles|
      ensures Fits(old(ledger)) && !old(ledger).done && Legal(old(ledger), ops)
      ensures ledger == RunOps(old(ledger), ops)
      ensures mf == old(mf) && Framed(ops, mf, oracles)
    {
      hide Ring, Due, Legal, RunOps, Step, QueueOf, PriorityOrder, Tame, Performs, Framed;
      NoFrames(ledger, mf, oracles);
      ops := [];
      for i := 0 to |oracles|
        invariant AtRest() && |ops| == i
        invariant Framed(ops, old(mf), oracles) && mf == old(mf)
        invariant Legal(old(ledger), ops) && ledger == RunOps(old(ledger), ops)
      {
        EffectPerforms(oracles[i]);
        ghost var l := ledger;
        ghost var order := L1Sync(oracles[i], EffectOf(oracles[i]));
        ghost var op := Frame(mf, order, oracles[i]);
        FrameIsStep(l, mf, order, oracles[i]);
        OneMoreFrame(ops, mf, oracles, order);
        RunAppend(old(ledger), ops, op);
        ops := ops + [op];
      }
    }
  }
}

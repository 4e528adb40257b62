/**
 The rings through which bursts, blocks and speech frames leave the process: the writer fills a
 slot, then advances the header, and readers may look at any time. A slot being written is torn.
 */
module PublishedRing {
  import Division

  datatype Slot<T> = Torn | Whole(stamp: nat, load: T)

  /**
   What becomes of the two writes of one publication. A slot written short, or a failure the writer
   does not look at, passes for success: the header advances over a torn slot.
   */
  datatype Outcome = Works | SlotFails(torn: bool) | SlotShort | HeaderFails

  datatype Publication<T> = Publication(load: T, io: Outcome)

  predicate Stored(io: Outcome) { io.Works? || io.HeaderFails? }

  predicate Touches(io: Outcome) { io.SlotFails? ==> io.torn }

  predicate Announces(io: Outcome) { io.Works? || io.SlotShort? }

  function Stamp(n: nat): nat { n % 0x1_0000_0000 }

  /** (w - 1) % slots in 32-bit arithmetic. */
  function SlotOf(w: nat, slots: nat): nat
    requires slots > 0
  {
    ((w + 0xffff_ffff) % 0x1_0000_0000) % slots
  }

  lemma Wraps(q: nat, n: nat, slots: nat)
    requires slots > 0
    ensures (slots * q + n) % slots == n % slots
  {
    Division.Divided(slots * q + n, slots, n % slots, q + n / slots);
  }

  /** The wrap of the counter does not disturb a ring whose size divides 2^32. */
  lemma SlotOfStamp(n: nat, slots: nat, q: nat)
    requires n > 0 && slots * q == 0x1_0000_0000
    ensures SlotOf(Stamp(n), slots) == (n - 1) % slots
  {
    var d := (n - 1) / 0x1_0000_0000;
    var r := (n - 1) % 0x1_0000_0000;
    assert Stamp(n) == (r + 1) % 0x1_0000_0000;
    assert (Stamp(n) + 0xffff_ffff) % 0x1_0000_0000 == r;
    assert n - 1 == slots * (q * d) + r by {
      assert 0x1_0000_0000 * d == slots * (q * d);
    }
    Wraps(q * d, r, slots);
  }

  /** Successive numbers take successive slots across the wrap exactly when the size divides 2^32. */
  lemma WrapIsSeamless(slots: nat)
    requires slots > 0
    ensures SlotOf(1, slots) == (SlotOf(0, slots) + 1) % slots <==> 0x1_0000_0000 % slots == 0
  {
    assert SlotOf(1, slots) == 0 by { assert (1 + 0xffff_ffff) % 0x1_0000_0000 == 0; }
    var r := 0xffff_ffff % slots;
    var q := 0xffff_ffff / slots;
    assert SlotOf(0, slots) == r;
    if r == slots - 1 {
      Division.Divided(0x1_0000_0000, slots, 0, q + 1);
      Division.Divided(r + 1, slots, 0, 1);
    } else {
      Division.Divided(0x1_0000_0000, slots, r + 1, q);
      Division.Divided(r + 1, slots, r + 1, 0);
    }
  }

  lemma FullTurn(slots: nat)
    requires slots > 0
    ensures Place(slots, slots) == 0
  {
    Division.Divided(slots, slots, 0, 1);
  }

  lemma OtherSlot(a: nat, b: nat, slots: nat)
    requires b < a < b + slots
    ensures a % slots != b % slots
  {
    var e := a / slots - b / slots;
    assert a - b == slots * e + (a % slots - b % slots);
    assert e <= 0 ==> slots * e <= 0;
    assert e >= 1 ==> slots * e >= slots;
  }

  /** The slot of number n + 1. */
  function Place(n: nat, slots: nat): (at: nat)
    requires slots > 0
    ensures at < slots
  {
    n % slots
  }

  /** What publication number n leaves in its slot. */
  function Left<T>(p: Publication<T>, n: nat, before: Slot<T>): Slot<T> {
    if Stored(p.io) then Whole(Stamp(n), p.load) else if Touches(p.io) then Torn else before
  }

  /** The slots after a run on a region that held base. */
  function Layout<T>(base: seq<Slot<T>>, log: seq<Publication<T>>): (slots: seq<Slot<T>>)
    requires |base| > 0
    ensures |slots| == |base|
  {
    if log == [] then base
    else
      var before := Layout(base, log[..|log| - 1]);
      var at := Place(|log| - 1, |base|);
      before[at := Left(log[|log| - 1], |log|, before[at])]
  }

  /** The number the header stands for after a run, before it wraps to 32 bits. */
  function Announced<T>(log: seq<Publication<T>>): (n: nat)
    ensures n <= |log|
  {
    if log == [] then 0
    else if Announces(log[|log| - 1].io) then |log|
    else Announced(log[..|log| - 1])
  }

  /**
   The shared region at one instant, with what the writer knows then: numbers taken, slots done and
   the number the header stands for, all three before they wrap to 32 bits.
   */
  datatype Instant<T> = Instant(slots: seq<Slot<T>>, header: nat, taken: nat, done: nat, announced: nat)

  function Rest<T>(base: seq<Slot<T>>, log: seq<Publication<T>>): Instant<T>
    requires |base| > 0
  {
    Instant(Layout(base, log), Stamp(Announced(log)), |log|, |log|, Announced(log))
  }

  /** The slot of the next number is torn while it is being written. */
  function Half<T>(base: seq<Slot<T>>, log: seq<Publication<T>>): Instant<T>
    requires |base| > 0
  {
    Rest(base, log).(slots := Layout(base, log)[Place(|log|, |base|) := Torn], taken := |log| + 1)
  }

  /** The slot of the next number is done, the header not written yet. */
  function Unannounced<T>(base: seq<Slot<T>>, log: seq<Publication<T>>, left: Slot<T>): Instant<T>
    requires |base| > 0
  {
    Rest(base, log).(slots := Layout(base, log)[Place(|log|, |base|) := left], taken := |log| + 1, done := |log| + 1)
  }

  /** What publishing p shows readers. */
  function Writes<T>(base: seq<Slot<T>>, log: seq<Publication<T>>, p: Publication<T>): (seen: seq<Instant<T>>)
    requires |base| > 0
    ensures |seen| > 0
  {
    (if Stored(p.io) then [Half(base, log)] else [])
    + [Unannounced(base, log, Left(p, |log| + 1, Layout(base, log)[Place(|log|, |base|)]))]
    + if Announces(p.io) then [Rest(base, log + [p])] else []
  }

  /** What a reader may see of the shared region, write after write. */
  function Trail<T>(base: seq<Slot<T>>, log: seq<Publication<T>>): (trail: seq<Instant<T>>)
    requires |base| > 0
    ensures |trail| > 0
  {
    if log == [] then [Rest(base, [])]
    else
      Trail(base, log[..|log| - 1]) + Writes(base, log[..|log| - 1], log[|log| - 1])
  }

  class Ring<T> {
    const slots: array<Slot<T>>
    var header: nat
    /** g_ring_w, w_compte, seq. */
    var w: nat

    ghost const times: nat
    /** What the region held at the start. */
    ghost const base: seq<Slot<T>>
    ghost var log: seq<Publication<T>>
    /** The shared region after every single write. */
    ghost var trail: seq<Instant<T>>

    ghost predicate Valid()
      reads this, slots
    {
      && slots.Length * times == 0x1_0000_0000 && |base| == slots.Length > 0
      && slots[..] == Layout(base, log)
      && header == Stamp(Announced(log)) && w == Stamp(|log|)
      && trail == Trail(base, log)
    }

    /** A region whose header was set to zero; the slots hold whatever an earlier run left. */
    constructor (region: array<Slot<T>>, ghost times: nat)
      requires region.Length * times == 0x1_0000_0000
      ensures Valid() && slots == region && base == region[..] && log == [] && header == 0
    {
      slots, header, w := region, 0, 0;
      this.times, base, log := times, region[..], [];
      assert region.Length > 0;
      trail := Trail(region[..], []);
    }

    /** The counter wraps at 32 bits, the slot does not notice. */
    method TakeNumber() returns (at: nat)
      requires slots.Length * times == 0x1_0000_0000 && w == Stamp(|log|)
      modifies this`w
      ensures slots.Length > 0 && w == Stamp(|log| + 1) && at == Place(|log|, slots.Length)
    {
      w := (w + 1) % 0x1_0000_0000;
      assert w == Stamp(|log| + 1);
      SlotOfStamp(|log| + 1, slots.Length, times);
      at := SlotOf(w, slots.Length);
    }

    ghost function Now(taken: nat, done: nat): Instant<T>
      reads this, slots
    {
      Instant(slots[..], header, taken, done, Announced(log))
    }

    /** The slot is written: torn, then whole. */
    method WriteSlot(load: T)
      requires Valid()
      modifies this`w, this`trail, slots
      ensures w == Stamp(|log| + 1)
      ensures slots[..] == old(slots[..])[Place(|log|, slots.Length) := Whole(w, load)]
      ensures trail == old(trail) + [Half(base, log), Unannounced(base, log, Whole(w, load))]
    {
      ghost var n, before := |log|, slots[..];
      var at := TakeNumber();
      assert at == Place(n, slots.Length);
      hide Place, Layout, Trail, Announced, Stamp;
      slots[at] := Torn;
      assert slots[..] == before[at := Torn];
      trail := trail + [Now(n + 1, n)];
      slots[at] := Whole(w, load);
      assert slots[..] == before[at := Whole(w, load)];
      trail := trail + [Now(n + 1, n + 1)];
    }

    /** The number is taken, the slot cannot be written, or only in part. */
    method FailSlot(torn: bool)
      requires Valid()
      modifies this`w, this`trail, slots
      ensures w == Stamp(|log| + 1)
      ensures var at := Place(|log|, slots.Length);
              var left := if torn then Torn else old(slots[at]);
              && slots[..] == old(slots[..])[at := left]
              && trail == old(trail) + [Unannounced(base, log, left)]
    {
      ghost var n, before := |log|, slots[..];
      var at := TakeNumber();
      assert at == Place(n, slots.Length);
      hide Place, Layout, Trail, Announced, Stamp;
      if torn { slots[at] := Torn; }
      assert slots[..] == before[at := if torn then Torn else before[at]];
      trail := trail + [Now(n + 1, n + 1)];
    }

    /** ring_publier and its likes: slot first, header last. */
    method Publier(load: T, io: Outcome) returns (ok: bool)
      requires Valid()
      modifies this, slots
      ensures Valid() && log == old(log) + [Publication(load, io)]
      ensures ok <==> Announces(io)
      ensures var at := Place(|old(log)|, slots.Length);
              slots[..] == old(slots[..])[at := Left(Publication(load, io), |log|, old(slots[at]))]
      ensures header == if ok then w else old(header)
    {
      ghost var p, l0 := Publication(load, io), log;
      Appended(base, l0, p);
      hide Place, Layout, Trail, Announced, Stamp, Half, Unannounced;
      if Stored(io) {
        WriteSlot(load);
      } else {
        FailSlot(io == SlotShort || io.torn);
      }
      assert slots[..] == Layout(base, l0 + [p]);
      hide Left;
      ok := Announces(io);
      log := l0 + [p];
      if ok {
        header := w;
        trail := trail + [Now(|log|, |log|)];
      }
    }
  }

  lemma Appended<T>(base: seq<Slot<T>>, log: seq<Publication<T>>, p: Publication<T>)
    requires |base| > 0
    ensures Layout(base, log + [p]) == Layout(base, log)[Place(|log|, |base|) := Left(p, |log| + 1, Layout(base, log)[Place(|log|, |base|)])]
    ensures Announced(log + [p]) == if Announces(p.io) then |log| + 1 else Announced(log)
    ensures Trail(base, log + [p]) == Trail(base, log) + Writes(base, log, p)
  {
    assert (log + [p])[..|log|] == log;
  }

  lemma LayoutOfNothing<T>(base: seq<Slot<T>>)
    requires |base| > 0
    ensures Layout(base, []) == base
  {
  }

  /** None of the numbers from the one after s up to n wrote to the slot of s. */
  ghost predicate NotTakenBack<T>(log: seq<Publication<T>>, s: nat, n: nat, slots: nat)
    requires 0 < s <= n <= |log| && slots > 0
  {
    forall k :: s <= k < n && Place(k, slots) == Place(s - 1, slots) ==> !Touches(log[k].io)
  }

  predicate Stamped<T>(slot: Slot<T>, s: nat) { slot.Whole? && slot.stamp == Stamp(s) }

  /**
   The slot of a number that was written to carries its stamp exactly when the write was complete
   and no later number wrote there. Then the load is its own.
   */
  lemma {:induction false} SlotHolds<T>(base: seq<Slot<T>>, log: seq<Publication<T>>, s: nat)
    requires |base| > 0 && 0 < s <= |log| < s + 0x1_0000_0000 && Touches(log[s - 1].io)
    ensures var slot := Layout(base, log)[Place(s - 1, |base|)];
            && (Stamped(slot, s) <==> Stored(log[s - 1].io) && NotTakenBack(log, s, |log|, |base|))
            && (Stamped(slot, s) ==> slot.load == log[s - 1].load)
  {
    hide Place;
    var n, before := |log| - 1, log[..|log| - 1];
    if s <= n {
      SlotHolds(base, before, s);
      assert NotTakenBack(log, s, |log|, |base|) <==>
             NotTakenBack(before, s, n, |base|) && (Place(n, |base|) == Place(s - 1, |base|) ==> !Touches(log[n].io));
    }
  }

  /** What the trail says of the run at one instant. */
  ghost predicate At<T>(t: Instant<T>, base: seq<Slot<T>>, log: seq<Publication<T>>)
    requires |base| > 0
  {
    && t.announced <= t.done <= t.taken <= |log| && t.header == Stamp(t.announced)
    && if t.taken == t.done then
         && t.slots == Layout(base, log[..t.done])
         && (t.announced == Announced(log[..t.done]) || (t.done > 0 && t.announced == Announced(log[..t.done - 1])))
       else
         && t.taken == t.done + 1 && Stored(log[t.done].io)
         && t.slots == Layout(base, log[..t.done])[Place(t.done, |base|) := Torn]
         && t.announced == Announced(log[..t.done])
  }

  lemma AtForLonger<T>(t: Instant<T>, base: seq<Slot<T>>, log: seq<Publication<T>>)
    requires |base| > 0 && log != [] && At(t, base, log[..|log| - 1])
    ensures At(t, base, log)
  {
    var before := log[..|log| - 1];
    assert before[..t.done] == log[..t.done];
    if t.done > 0 { assert before[..t.done - 1] == log[..t.done - 1]; }
  }

  lemma WritesAreExplained<T>(base: seq<Slot<T>>, log: seq<Publication<T>>, p: Publication<T>, i: nat)
    requires |base| > 0 && i < |Writes(base, log, p)|
    ensures At(Writes(base, log, p)[i], base, log + [p])
  {
    Appended(base, log, p);
    hide Layout, Place, Stamp, Trail, Announced;
    assert (log + [p])[..|log|] == log && (log + [p])[..|log| + 1] == log + [p];
  }

  lemma {:induction false} TrailIsExplained<T>(base: seq<Slot<T>>, log: seq<Publication<T>>, i: nat)
    requires |base| > 0 && i < |Trail(base, log)|
    ensures At(Trail(base, log)[i], base, log)
  {
    hide Layout, Place, Stamp, Writes, At;
    if log == [] {
      StartIsExplained(base);
      return;
    }
    var n, before := |log| - 1, log[..|log| - 1];
    assert log == before + [log[n]];
    if i < |Trail(base, before)| {
      TrailIsExplained(base, before, i);
      AtForLonger(Trail(base, before)[i], base, log);
    } else {
      WritesAreExplained(base, before, log[n], i - |Trail(base, before)|);
    }
  }

  lemma StartIsExplained<T>(base: seq<Slot<T>>)
    requires |base| > 0
    ensures At(Rest(base, []), base, [])
  {
  }

  lemma {:induction false} TrailGoesForward<T>(base: seq<Slot<T>>, log: seq<Publication<T>>, i: nat, j: nat)
    requires |base| > 0 && i <= j < |Trail(base, log)|
    ensures Trail(base, log)[i].done <= Trail(base, log)[j].done
  {
    hide Layout, Place, Stamp;
    if log == [] { return; }
    var before := log[..|log| - 1];
    if j < |Trail(base, before)| {
      TrailGoesForward(base, before, i, j);
    } else if i < |Trail(base, before)| {
      TrailIsExplained(base, before, i);
    }
  }

  /** What a reader finds in the slot of a number, at any instant after it was done. */
  lemma ReaderFinds<T>(base: seq<Slot<T>>, log: seq<Publication<T>>, j: nat, s: nat)
    requires |base| > 0 && j < |Trail(base, log)|
    requires 0 < s <= Trail(base, log)[j].done && Trail(base, log)[j].taken < s + 0x1_0000_0000
    requires s <= |log| && Touches(log[s - 1].io)
    ensures s <= Trail(base, log)[j].taken <= |log| && |Trail(base, log)[j].slots| == |base|
    ensures var t := Trail(base, log)[j];
            var slot := t.slots[Place(s - 1, |base|)];
            && (Stamped(slot, s) <==> Stored(log[s - 1].io) && NotTakenBack(log, s, t.taken, |base|))
            && (Stamped(slot, s) ==> slot.load == log[s - 1].load)
  {
    TrailIsExplained(base, log, j);
    var t := Trail(base, log)[j];
    var prefix := log[..t.done];
    SlotHolds(base, prefix, s);
    assert NotTakenBack(log, s, t.done, |base|) <==> NotTakenBack(prefix, s, t.done, |base|);
    if t.taken != t.done {
      assert NotTakenBack(log, s, t.taken, |base|) <==>
             NotTakenBack(log, s, t.done, |base|) && Place(t.done, |base|) != Place(s - 1, |base|);
    }
  }

  /** When every later number wrote to its slot, the first to take one back is a whole turn later. */
  lemma TakenBackAfterATurn<T>(log: seq<Publication<T>>, s: nat, n: nat, slots: nat)
    requires 0 < s <= n <= |log| && slots > 0
    requires forall k :: s <= k < n ==> Touches(log[k].io)
    ensures NotTakenBack(log, s, n, slots) <==> n < s + slots
  {
    if n < s + slots {
      forall k | s <= k < n ensures Place(k, slots) != Place(s - 1, slots) {
        OtherSlot(k, s - 1, slots);
      }
    } else {
      Wraps(1, s - 1, slots);
      assert Touches(log[s - 1 + slots].io);
    }
  }

  /**
   At any instant of a run whose slot writes have succeeded since number s was taken, headers or not,
   the slot of s is whole exactly until the number a whole turn later is taken.
   */
  lemma LostAfterATurn<T>(base: seq<Slot<T>>, log: seq<Publication<T>>, j: nat, s: nat)
    requires |base| > 0 && j < |Trail(base, log)|
    requires 0 < s <= Trail(base, log)[j].done && Trail(base, log)[j].taken < s + 0x1_0000_0000
    requires forall k :: s - 1 <= k < |log| && k < Trail(base, log)[j].taken ==> Stored(log[k].io)
    ensures s <= |log| && |Trail(base, log)[j].slots| == |base|
    ensures Trail(base, log)[j].slots[Place(s - 1, |base|)] == Whole(Stamp(s), log[s - 1].load)
            <==> Trail(base, log)[j].taken < s + |base|
  {
    TrailIsExplained(base, log, j);
    ReaderFinds(base, log, j, s);
    TakenBackAfterATurn(log, s, Trail(base, log)[j].taken, |base|);
  }

  /**
   A reader takes the header at one instant of a run and a slot at the same or a later one. It finds
   a number that was written whole, and under its own load, exactly when no later number has written
   to that slot by then.
   */
  lemma ReaderGetsWholeBlocks<T>(base: seq<Slot<T>>, log: seq<Publication<T>>, i: nat, j: nat, s: nat)
    requires |base| > 0 && i <= j < |Trail(base, log)|
    requires 0 < s <= Trail(base, log)[i].announced && Trail(base, log)[j].taken < s + 0x1_0000_0000
    requires s <= |log| ==> Stored(log[s - 1].io)
    ensures var t := Trail(base, log)[j];
            && s <= t.done <= t.taken <= |log| && |t.slots| == |base|
            && (t.slots[Place(s - 1, |base|)] == Whole(Stamp(s), log[s - 1].load) <==> NotTakenBack(log, s, t.taken, |base|))
  {
    TrailIsExplained(base, log, i);
    TrailIsExplained(base, log, j);
    TrailGoesForward(base, log, i, j);
    ReaderFinds(base, log, j, s);
  }

  predicate Faultless<T>(log: seq<Publication<T>>) { forall k :: 0 <= k < |log| ==> log[k].io == Works }

  /** At every instant of a run without failures, the last N-1 numbers up to the header are whole. */
  lemma LastOnesAreWhole<T>(base: seq<Slot<T>>, log: seq<Publication<T>>, i: nat, s: nat)
    requires 0 < |base| <= 0x1_0000_0000 && i < |Trail(base, log)| && Faultless(log)
    requires 0 < s <= Trail(base, log)[i].announced < s + |base| - 1
    ensures var t := Trail(base, log)[i];
            && s <= |log| && |t.slots| == |base| && t.header == Stamp(t.announced)
            && t.slots[Place(s - 1, |base|)] == Whole(Stamp(s), log[s - 1].load)
  {
    TrailIsExplained(base, log, i);
    LostAfterATurn(base, log, i, s);
  }

  /** A publication that works, then n whose header writes fail. */
  function Lagging<T>(first: T, load: T, n: nat): (log: seq<Publication<T>>)
    ensures |log| == n + 1
  {
    if n == 0 then [Publication(first, Works)] else Lagging(first, load, n - 1) + [Publication(load, HeaderFails)]
  }

  lemma {:induction false} HeaderLags<T>(base: seq<Slot<T>>, first: T, load: T, n: nat)
    requires |base| > 0
    ensures Announced(Lagging(first, load, n)) == 1
    ensures Layout(base, Lagging(first, load, n))[Place(n, |base|)] == Whole(Stamp(n + 1), if n == 0 then first else load)
  {
    hide Place, Stamp;
    if n > 0 {
      HeaderLags(base, first, load, n - 1);
      Appended(base, Lagging(first, load, n - 1), Publication(load, HeaderFails));
    } else {
      Appended(base, [], Publication(first, Works));
      assert [] + Lagging(first, load, 0) == Lagging(first, load, 0);
    }
  }

  /** After a turn of failing header writes the header stands for a number whose slot is gone. */
  lemma AnnouncedSlotIsGone<T>(base: seq<Slot<T>>, first: T, load: T)
    requires 0 < |base| < 0xffff_ffff
    ensures Announced(Lagging(first, load, |base|)) == 1
    ensures Layout(base, Lagging(first, load, |base|))[0] == Whole(|base| + 1, load)
  {
    FullTurn(|base|);
    assert Stamp(|base| + 1) == |base| + 1;
    hide Place, Stamp, Layout, Lagging, Announced;
    HeaderLags(base, first, load, |base|);
  }

  /** A slot written short passes for success: the header stands for a torn slot. */
  lemma TornSlotIsAnnounced<T>(base: seq<Slot<T>>, load: T)
    requires |base| > 0
    ensures var log := [Publication(load, SlotShort)];
            Announced(log) == 1 && Layout(base, log)[0] == Torn
  {
  }

  /**
   A slot write that fails outright is passed over by the next header: what an earlier run left there
   under the same number is then taken for the block of this one.
   */
  lemma OldSlotIsAnnounced<T>(base: seq<Slot<T>>, lost: T, load: T)
    requires |base| > 1 && Stamped(base[0], 1)
    ensures var log := [Publication(lost, SlotFails(false)), Publication(load, Works)];
            Announced(log) == 2 && Layout(base, log)[0] == base[0] && Stamped(Layout(base, log)[0], 1)
  {
    assert Place(0, |base|) == 0 && Place(1, |base|) == 1;
    hide Place, Stamp, Layout, Trail;
    var log := [Publication(lost, SlotFails(false)), Publication(load, Works)];
    LayoutOfNothing(base);
    Appended(base, [], log[0]);
    Appended(base, [log[0]], log[1]);
    assert log == [log[0]] + [log[1]] && [] + [log[0]] == [log[0]];
  }
}

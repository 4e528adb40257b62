/**
 The uplink block filter: a block the firmware leaves in the API RAM is published once per
 posting, although it is observed several times (at the GO and at the end of the frame).
 The host does not clear the flag; it belongs to the DSP.
 */
module UplinkFilter {

  const TABLE: nat := 4
  const FR_BYTES: nat := 33

  type Byte = x: int | 0 <= x < 256
  type Word = x: int | 0 <= x < 0x1_0000

  datatype Option<T> = None | Some(value: T)

  /** One look at a buffer: its flag is down, or it holds a block. */
  datatype Observation = Down | Up(block: seq<Byte>)

  datatype Event = Event(off: nat, obs: Observation)

  /** A line of the table vu[]: the buffer, and the block last seen with the flag up. */
  datatype Seen = Seen(off: nat, publie: bool, contenu: seq<Byte>)

  // ----- reading a block -----

  /** Byte i of a block: speech blocks store the high byte of a word first, L2 blocks the low byte. */
  function ByteAt(words: seq<Word>, n: nat, i: nat): Byte
    requires i < n && (n + 1) / 2 <= |words|
  {
    var v := words[i / 2];
    if (n == FR_BYTES) == (i % 2 == 0) then v / 256 else v % 256
  }

  function Unpacked(words: seq<Word>, n: nat): seq<Byte>
    requires (n + 1) / 2 <= |words|
  {
    seq(n, i requires 0 <= i < n => ByteAt(words, n, i))
  }

  method Unpack(words: seq<Word>, n: nat) returns (r: seq<Byte>)
    requires (n + 1) / 2 <= |words|
    ensures r == Unpacked(words, n)
  {
    var out := new Byte[n](_ => 0);
    var i := 0;
    while i < n
      invariant 0 <= i <= n + 1 && i % 2 == 0
      invariant forall k :: 0 <= k < i && k < n ==> out[k] == ByteAt(words, n, k)
    {
      var v := words[i / 2];
      var premier: Byte := if n == FR_BYTES then v / 256 else v % 256;
      var second: Byte := if n == FR_BYTES then v % 256 else v / 256;
      assert (i + 1) / 2 == i / 2;
      out[i] := premier;
      if i + 1 < n { out[i + 1] := second; }
      i := i + 2;
    }
    r := out[..];
  }

  /** dsp_memcpy_to_api: bytes in pairs, the first one high or low; an odd one out in a word of its own. */
  function ToApi(bytes: seq<Byte>, be: bool): (words: seq<Word>)
    ensures |words| == (|bytes| + 1) / 2
  {
    if bytes == [] then []
    else
      var x: int, y: int := bytes[0], if |bytes| == 1 then 0 else bytes[1];
      [if be then 256 * x + y else x + 256 * y] + if |bytes| == 1 then [] else ToApi(bytes[2..], be)
  }

  lemma {:induction false} ToApiAt(bytes: seq<Byte>, be: bool, i: nat)
    requires i < |bytes|
    ensures var w := ToApi(bytes, be)[i / 2];
            bytes[i] == if be == (i % 2 == 0) then w / 256 else w % 256
  {
    if i >= 2 {
      ToApiAt(bytes[2..], be, i - 2);
      assert (i - 2) / 2 == i / 2 - 1 && (i - 2) % 2 == i % 2;
      assert ToApi(bytes, be)[i / 2] == ToApi(bytes[2..], be)[(i - 2) / 2];
      hide ToApi;
    } else {
      assert i / 2 == 0;
    }
  }

  /** Reading a block undoes the firmware's writing of it: speech blocks big-endian, L2 blocks little-endian. */
  lemma UnpackUndoesToApi(bytes: seq<Byte>)
    ensures Unpacked(ToApi(bytes, |bytes| == FR_BYTES), |bytes|) == bytes
  {
    var n := |bytes|;
    forall i | 0 <= i < n ensures ByteAt(ToApi(bytes, n == FR_BYTES), n, i) == bytes[i] {
      ToApiAt(bytes, n == FR_BYTES, i);
    }
  }

  // ----- the filter on values -----

  function Find(vu: seq<Seen>, off: nat): (k: nat)
    ensures k <= |vu|
    ensures k < |vu| ==> vu[k].off == off
    ensures forall j :: 0 <= j < k ==> vu[j].off != off
  {
    if vu == [] || vu[0].off == off then 0 else 1 + Find(vu[1..], off)
  }

  /** The table after one event, and whether the block is published. */
  function Step(vu: seq<Seen>, e: Event): (seq<Seen>, bool)
  {
    var k := Find(vu, e.off);
    var table := if k == |vu| && |vu| < TABLE then vu + [Seen(e.off, false, [])] else vu;
    match e.obs
    case Down => (if k < |table| then table[k := table[k].(publie := false)] else table, false)
    case Up(block) =>
      if k < |table| then
        if table[k].publie && table[k].contenu == block then (table, false)
        else (table[k := Seen(e.off, true, block)], true)
      else (table, true)
  }

  function Table(events: seq<Event>): seq<Seen>
  {
    if events == [] then [] else Step(Table(events[..|events| - 1]), events[|events| - 1]).0
  }

  /** The blocks published from one buffer, in order. */
  function Published(events: seq<Event>, off: nat): seq<seq<Byte>>
  {
    if events == [] then []
    else
      var rest, e := events[..|events| - 1], events[|events| - 1];
      Published(rest, off) +
      if e.off == off && e.obs.Up? && Step(Table(rest), e).1 then [e.obs.block] else []
  }

  /** prendre_ul as the source has it: a table of four lines filled in order of first use. */
  class Filter {
    var vu: array<Seen>
    var nvu: nat

    ghost predicate Valid() reads this { vu.Length == TABLE && nvu <= TABLE }

    ghost function View(): seq<Seen>
      requires Valid()
      reads this, vu
    {
      vu[..nvu]
    }

    constructor ()
      ensures Valid() && View() == [] && fresh(vu)
    {
      vu := new Seen[TABLE](_ => Seen(0, false, []));
      nvu := 0;
    }

    method PrendreUl(off: nat, flag: bool, words: seq<Word>, n: nat) returns (r: Option<seq<Byte>>)
      requires Valid() && (n + 1) / 2 <= |words|
      modifies this`nvu, vu
      ensures Valid()
      ensures var e := Event(off, if flag then Up(Unpacked(words, n)) else Down);
              && View() == Step(old(View()), e).0
              && r == if flag && Step(old(View()), e).1 then Some(Unpacked(words, n)) else None
    {
      var k := 0;
      while k < nvu && vu[k].off != off
        invariant 0 <= k <= nvu && Find(View(), off) == k + Find(View()[k..], off)
      {
        assert View()[k..][1..] == View()[k + 1..];
        k := k + 1;
      }
      if k == nvu && nvu < TABLE {
        vu[nvu] := Seen(off, false, []);
        nvu := nvu + 1;
      }
      if !flag {
        if k < nvu { vu[k] := vu[k].(publie := false); }
        return None;
      }
      var out := Unpack(words, n);
      if k < nvu {
        if vu[k].publie && vu[k].contenu == out { return None; }
        vu[k] := Seen(off, true, out);
      }
      r := Some(out);
    }
  }

  // ----- what is published -----

  /** The observations of one buffer. */
  function Stream(events: seq<Event>, off: nat): seq<Observation>
  {
    if events == [] then []
    else
      Stream(events[..|events| - 1], off) +
      if events[|events| - 1].off == off then [events[|events| - 1].obs] else []
  }

  /** Each block once per run of equal observations; a lowered flag separates runs. */
  function Destuttered(obs: seq<Observation>): seq<seq<Byte>>
  {
    if obs == [] then []
    else
      var last, n := obs[|obs| - 1], |obs| - 1;
      Destuttered(obs[..n]) + if last.Up? && (n == 0 || obs[n - 1] != last) then [last.block] else []
  }

  function Blocks(obs: seq<Observation>): seq<seq<Byte>>
  {
    if obs == [] then []
    else Blocks(obs[..|obs| - 1]) + if obs[|obs| - 1].Up? then [obs[|obs| - 1].block] else []
  }

  predicate Tracked(events: seq<Event>, off: nat) { Find(Table(events), off) < |Table(events)| }

  /** The table line of a buffer says what its latest observation was. */
  ghost predicate Tells(s: Seen, obs: seq<Observation>)
  {
    && obs != []
    && (s.publie <==> obs[|obs| - 1].Up?)
    && (s.publie ==> obs[|obs| - 1] == Up(s.contenu))
  }

  ghost predicate Distinct(vu: seq<Seen>) { forall i, j :: 0 <= i < j < |vu| ==> vu[i].off != vu[j].off }

  ghost predicate TableTells(vu: seq<Seen>, events: seq<Event>)
  {
    && |vu| <= TABLE && Distinct(vu)
    && (forall i :: 0 <= i < |vu| ==> Tells(vu[i], Stream(events, vu[i].off)))
  }

  /** One step keeps the table true, whichever buffer was looked at. */
  lemma StepTells(vu: seq<Seen>, rest: seq<Event>, e: Event)
    requires TableTells(vu, rest)
    ensures TableTells(Step(vu, e).0, rest + [e])
  {
    var events := rest + [e];
    assert events[..|events| - 1] == rest;
    var vu' := Step(vu, e).0;
    forall i | 0 <= i < |vu'| ensures Tells(vu'[i], Stream(events, vu'[i].off)) {
      if vu'[i].off != e.off { assert vu'[i] == vu[i]; }
    }
  }

  lemma {:induction false} TableIsTrue(events: seq<Event>)
    ensures TableTells(Table(events), events)
  {
    if events != [] {
      var rest, e := events[..|events| - 1], events[|events| - 1];
      TableIsTrue(rest);
      StepTells(Table(rest), rest, e);
      assert events == rest + [e];
    }
  }

  lemma {:induction false} FindIs(vu: seq<Seen>, off: nat, k: nat)
    requires k <= |vu| && (k < |vu| ==> vu[k].off == off)
    requires forall j :: 0 <= j < k ==> vu[j].off != off
    ensures Find(vu, off) == k
  {
    if k > 0 { FindIs(vu[1..], off, k - 1); }
  }

  /** A step never moves a line, and adds at most one, for the buffer looked at. */
  lemma StepFinds(vu: seq<Seen>, e: Event, off: nat)
    ensures var vu' := Step(vu, e).0;
            && (Find(vu, off) < |vu| ==> Find(vu', off) == Find(vu, off) < |vu'|)
            && (Find(vu, off) == |vu| ==> (Find(vu', off) < |vu'| <==> off == e.off && |vu| < TABLE))
            && |vu'| == if Find(vu, e.off) == |vu| < TABLE then |vu| + 1 else |vu|
  {
    var vu' := Step(vu, e).0;
    var k := Find(vu, off);
    assert forall j :: 0 <= j < |vu| ==> vu'[j].off == vu[j].off;
    if k < |vu| || (off == e.off && |vu| < TABLE) {
      FindIs(vu', off, k);
    } else {
      FindIs(vu', off, |vu'|);
    }
  }

  /** While the table is not full it has a line for every buffer looked at so far. */
  lemma {:induction false} UntrackedMeansFull(events: seq<Event>, off: nat)
    requires !Tracked(events, off) && |Table(events)| < TABLE
    ensures Stream(events, off) == []
  {
    if events != [] {
      var rest, e := events[..|events| - 1], events[|events| - 1];
      StepFinds(Table(rest), e, off);
      UntrackedMeansFull(rest, off);
    }
  }

  /** What is published from each buffer depends on its own observations and on its having a line. */
  lemma {:induction false} PublishedByTheTable(events: seq<Event>, off: nat)
    ensures Published(events, off) ==
            if Tracked(events, off) then Destuttered(Stream(events, off)) else Blocks(Stream(events, off))
  {
    if events != [] {
      var rest, e := events[..|events| - 1], events[|events| - 1];
      PublishedByTheTable(rest, off);
      StepFinds(Table(rest), e, off);
      TableIsTrue(rest);
      var obs := Stream(rest, off);
      if e.off == off {
        var all := obs + [e.obs];
        assert Stream(events, off) == all && all[..|all| - 1] == obs;
        if !Tracked(rest, off) && |Table(rest)| < TABLE { UntrackedMeansFull(rest, off); }
        StepPublishes(Table(rest), rest, e);
        assert Tracked(events, off) <==> Tracked(rest, off) || |Table(rest)| < TABLE;
        assert |obs| > 0 ==> all[|all| - 2] == obs[|obs| - 1];
      } else {
        assert Stream(events, off) == obs;
      }
    }
  }

  /** Whether a block is published, from the buffer's own observations. */
  lemma StepPublishes(vu: seq<Seen>, rest: seq<Event>, e: Event)
    requires TableTells(vu, rest) && (Find(vu, e.off) == |vu| < TABLE ==> Stream(rest, e.off) == [])
    ensures var obs := Stream(rest, e.off);
            Step(vu, e).1 <==> e.obs.Up? && (Find(vu, e.off) == |vu| || obs == [] || obs[|obs| - 1] != e.obs)
  {
    var k := Find(vu, e.off);
    if k < |vu| { assert Tells(vu[k], Stream(rest, vu[k].off)); }
  }

  // ----- which buffers get a line -----

  /** The buffers looked at. */
  function Offs(events: seq<Event>): set<nat>
  {
    if events == [] then {} else Offs(events[..|events| - 1]) + {events[|events| - 1].off}
  }

  /** The other buffers looked at before the first look at this one. */
  function OthersBefore(events: seq<Event>, off: nat): set<nat>
  {
    if events == [] then {}
    else
      var rest, e := events[..|events| - 1], events[|events| - 1];
      OthersBefore(rest, off) + if Stream(rest, off) == [] && e.off != off then {e.off} else {}
  }

  lemma {:induction false} OthersAreAll(events: seq<Event>, off: nat)
    ensures off in Offs(events) <==> Stream(events, off) != []
    ensures OthersBefore(events, off) <= Offs(events) - {off}
    ensures off !in Offs(events) ==> OthersBefore(events, off) == Offs(events)
  {
    if events != [] { OthersAreAll(events[..|events| - 1], off); }
  }

  /** The table has a line for each of the first four buffers looked at. */
  lemma {:induction false} TableFillsUp(events: seq<Event>)
    ensures |Table(events)| == if |Offs(events)| < TABLE then |Offs(events)| else TABLE
    ensures forall off :: Tracked(events, off) ==> off in Offs(events)
  {
    if events != [] {
      var rest, e := events[..|events| - 1], events[|events| - 1];
      TableFillsUp(rest);
      OthersAreAll(rest, e.off);
      StepFinds(Table(rest), e, e.off);
      if !Tracked(rest, e.off) && |Table(rest)| < TABLE { UntrackedMeansFull(rest, e.off); }
      assert e.off in Offs(rest) ==> Offs(events) == Offs(rest);
      forall off | Tracked(events, off) ensures off in Offs(events) {
        StepFinds(Table(rest), e, off);
      }
    }
  }

  /** A buffer gets a line, for good, when fewer than four others were looked at before it was. */
  lemma {:induction false} FirstFourAreTracked(events: seq<Event>, off: nat)
    ensures Tracked(events, off) <==> Stream(events, off) != [] && |OthersBefore(events, off)| < TABLE
  {
    if events != [] {
      var rest, e := events[..|events| - 1], events[|events| - 1];
      FirstFourAreTracked(rest, off);
      StepFinds(Table(rest), e, off);
      OthersAreAll(rest, off);
      TableFillsUp(rest);
      if !Tracked(rest, off) && |Table(rest)| < TABLE { UntrackedMeansFull(rest, off); }
      assert e.off == off || Stream(rest, off) != [] ==> OthersBefore(events, off) == OthersBefore(rest, off);
    }
  }

  /**
   What is published from each buffer depends on that buffer's own observations alone: its blocks once
   per posting if fewer than four others were looked at before it was, every block seen if not.
   */
  lemma PublishedOncePerPosting(events: seq<Event>, off: nat)
    ensures Published(events, off) ==
            if |OthersBefore(events, off)| < TABLE then Destuttered(Stream(events, off)) else Blocks(Stream(events, off))
  {
    PublishedByTheTable(events, off);
    FirstFourAreTracked(events, off);
  }

  /** With four buffers or fewer, as the three uplink buffers are, each is published once per posting. */
  lemma FourBuffersArePublishedOnce(events: seq<Event>, offs: set<nat>, off: nat)
    requires |offs| <= TABLE && forall i :: 0 <= i < |events| ==> events[i].off in offs
    ensures Published(events, off) == Destuttered(Stream(events, off))
  {
    OffsWithin(events, offs);
    OthersAreAll(events, off);
    PublishedOncePerPosting(events, off);
    if off in offs { Fewer(OthersBefore(events, off), offs - {off}); }
  }

  lemma {:induction false} OffsWithin(events: seq<Event>, offs: set<nat>)
    requires forall i :: 0 <= i < |events| ==> events[i].off in offs
    ensures Offs(events) <= offs
  {
    if events != [] { OffsWithin(events[..|events| - 1], offs); }
  }

  lemma {:induction false} Fewer(a: set<nat>, b: set<nat>)
    requires a <= b
    ensures |a| <= |b|
  {
    if x :| x in a { Fewer(a - {x}, b - {x}); }
  }

  lemma Twice(x: Observation)
    requires x.Up?
    ensures Destuttered([x, x]) == [x.block] && Blocks([x, x]) == [x.block, x.block]
  {
    assert [x, x][..1] == [x] && [x][..0] == [];
    assert Destuttered([x]) == [x.block] == Blocks([x]);
  }

  lemma OneMoreLook(rest: seq<Event>, e: Event)
    ensures Stream(rest + [e], e.off) == Stream(rest, e.off) + [e.obs]
    ensures OthersBefore(rest + [e], e.off) == OthersBefore(rest, e.off)
  {
    assert (rest + [e])[..|rest|] == rest;
  }

  /** A fifth buffer is published at every look: a block posted once and looked at twice goes out twice. */
  lemma FifthBufferIsRepeated(four: seq<Event>, off: nat, block: seq<Byte>)
    requires |four| == 4 && forall i :: 0 <= i < 4 ==> four[i].off != off
    requires forall i, j :: 0 <= i < j < 4 ==> four[i].off != four[j].off
    ensures var events := four + [Event(off, Up(block))] + [Event(off, Up(block))];
            Published(events, off) == [block, block] && Destuttered(Stream(events, off)) == [block]
  {
    hide Published, Stream, OthersBefore, Destuttered, Blocks;
    var e := Event(off, Up(block));
    NotLookedAt(four, off);
    OthersAreAll(four, off);
    DistinctOffs(four);
    OneMoreLook(four, e);
    OneMoreLook(four + [e], e);
    assert [] + [e.obs] + [e.obs] == [e.obs, e.obs];
    Twice(e.obs);
    PublishedOncePerPosting(four + [e] + [e], off);
  }

  lemma {:induction false} NotLookedAt(events: seq<Event>, off: nat)
    requires forall i :: 0 <= i < |events| ==> events[i].off != off
    ensures Stream(events, off) == []
  {
    if events != [] { NotLookedAt(events[..|events| - 1], off); }
  }

  lemma {:induction false} DistinctOffs(events: seq<Event>)
    requires forall i, j :: 0 <= i < j < |events| ==> events[i].off != events[j].off
    ensures |Offs(events)| == |events|
  {
    if events != [] {
      var rest, off := events[..|events| - 1], events[|events| - 1].off;
      DistinctOffs(rest);
      NotLookedAt(rest, off);
      OthersAreAll(rest, off);
    }
  }
}

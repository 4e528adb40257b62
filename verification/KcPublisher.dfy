/**
 The ciphering-key publisher: d_a5mode and a_kc are polled every frame, evaluated every 22 frames
 or at once when the mode changed, and a return to clear waits a grace period because the key may
 come back. File operations may fail.
 */
module KcPublisher {

  const POLL_PERIOD: nat := 22
  const GRACE: nat := 5
  const RECLEN: nat := 32

  type Byte = x: int | 0 <= x < 256
  type Word = x: int | 0 <= x < 0x1_0000

  datatype Option<T> = None | Some(value: T)

  /** The file side of one poll. */
  datatype Io = OpenFails | WriteFails | Works

  /** A record without its sequence number: bytes 4 to 31. */
  datatype Body = Body(algo: Byte, kc: seq<Byte>)

  datatype Poll = Poll(mode: Word, kw: seq<Word>, io: Io)

  datatype Event = Look(p: Poll) | ChannelReleased

  /** What one poll came to. */
  datatype Verdict = Skipped | Matched | Waiting | Published | NotWritten

  // ----- key bytes -----

  function Pair(hi: int, lo: int): (w: Word)
    requires 0 <= hi < 256 && 0 <= lo < 256
    ensures w / 256 == hi && w % 256 == lo
  {
    256 * hi + lo
  }

  /** dsp_load_ciph_param: key bytes 6 and 7 go to a_kc[0], the first two to a_kc[3]. */
  function LoadKc(key: seq<Byte>): (kw: seq<Word>)
    requires |key| == 8
    ensures |kw| == 4
  {
    [Pair(key[6], key[7]), Pair(key[4], key[5]), Pair(key[2], key[3]), Pair(key[0], key[1])]
  }

  /** The words big-endian and in reverse order. */
  function KeyBytes(kw: seq<Word>): (kc: seq<Byte>)
    requires |kw| == 4
    ensures |kc| == 8
  {
    [kw[3] / 256, kw[3] % 256, kw[2] / 256, kw[2] % 256, kw[1] / 256, kw[1] % 256, kw[0] / 256, kw[0] % 256]
  }

  /** The publisher undoes the firmware's layout. */
  lemma KeyBytesInvertLoad(key: seq<Byte>)
    requires |key| == 8
    ensures KeyBytes(LoadKc(key)) == key
  {
  }

  function Zeros(n: nat): seq<Byte> { seq(n, _ => 0) }

  function ModeAlgo(mode: Word): Byte { if 1 <= mode <= 3 then mode else 0 }

  /** A record is ciphered only with a mode 1 to 3 and a key that is not all zero. */
  function BodyOf(p: Poll): Body
    requires |p.kw| == 4
  {
    var kc := KeyBytes(p.kw);
    if ModeAlgo(p.mode) != 0 && kc != Zeros(8) then Body(ModeAlgo(p.mode), kc) else Body(0, Zeros(8))
  }

  /** Sequence number, algorithm, key length, key, end mark, padding. */
  function Encoded(seqNo: nat, b: Body): seq<Byte>
    requires |b.kc| == 8
  {
    [seqNo % 256, seqNo / 256 % 256, seqNo / 0x1_0000 % 256, seqNo / 0x100_0000 % 256]
    + [b.algo, if b.algo != 0 then 8 else 0] + b.kc + [0xFF] + Zeros(17)
  }

  /** Comparing bytes 4 to 31 compares bodies. */
  lemma EncodedComparesBodies(n: nat, m: nat, a: Body, b: Body)
    requires |a.kc| == |b.kc| == 8
    ensures |Encoded(n, a)| == RECLEN && Encoded(n, a)[4] == a.algo
    ensures Encoded(n, a)[4..] == Encoded(m, b)[4..] <==> a == b
  {
    var x, y := Encoded(n, a)[4..], Encoded(m, b)[4..];
    var tail := [0xFF] + Zeros(17);
    assert x == [a.algo, if a.algo != 0 then 8 else 0] + a.kc + tail;
    assert y == [b.algo, if b.algo != 0 then 8 else 0] + b.kc + tail;
    assert x[2..10] == a.kc && y[2..10] == b.kc && x[0] == a.algo && y[0] == b.algo;
  }

  // ----- the record as its reader takes it apart -----

  /** Four bytes read as a 32-bit number, the first lowest. */
  function Little(b: seq<Byte>): nat
    requires |b| == 4
  {
    b[0] as int + 0x100 * (b[1] as int + 0x100 * (b[2] as int + 0x100 * (b[3] as int)))
  }

  /** Number, algorithm, and key of the length given, up to the end mark; the rest is padding. */
  function Decoded(rec: seq<Byte>): Option<(nat, Body)>
    requires |rec| == RECLEN
  {
    var n, algo := Little(rec[..4]), rec[4];
    if rec[14] != 0xFF || rec[5] > 8 then None
    else if algo == 0 then (if rec[5] == 0 then Some((n, Body(0, Zeros(8)))) else None)
    else if rec[5] != 8 then None
    else Some((n, Body(algo, rec[6..14])))
  }

  lemma LittleEndian(n: nat)
    requires n < 0x1_0000_0000
    ensures Little([n % 256, n / 256 % 256, n / 0x1_0000 % 256, n / 0x100_0000 % 256]) == n
  {
    var a, b, c := n / 256, n / 0x1_0000, n / 0x100_0000;
    assert n == n % 256 + 256 * a && a == a % 256 + 256 * b && b == b % 256 + 256 * c && c % 256 == c;
  }

  /** A reader of the 32 bytes gets back what was published: number, algorithm and key. */
  lemma RecordReadsBack(n: nat, b: Body)
    requires n < 0x1_0000_0000 && |b.kc| == 8 && (b.algo == 0 ==> b.kc == Zeros(8))
    ensures |Encoded(n, b)| == RECLEN && Decoded(Encoded(n, b)) == Some((n, b))
    ensures forall k :: 15 <= k < RECLEN ==> Encoded(n, b)[k] == 0
  {
    var head := [n % 256, n / 256 % 256, n / 0x1_0000 % 256, n / 0x100_0000 % 256];
    LittleEndian(n);
    hide Little;
    var rec := Encoded(n, b);
    assert rec[..4] == head && rec[6..14] == b.kc;
  }

  /** And a body evaluated is one that reads back. */
  lemma BodiesReadBack(p: Poll)
    requires |p.kw| == 4
    ensures var b := BodyOf(p);
            && |b.kc| == 8 && (b.algo == 0 ==> b.kc == Zeros(8))
            && b.algo == (if p.mode == 1 || p.mode == 2 || p.mode == 3 then (if KeyBytes(p.kw) == Zeros(8) then 0 else p.mode) else 0)
  {
  }

  // ----- the publisher on values -----

  datatype State = State(
    actif: bool, ouvert: bool, tick: nat, clair: nat, seqNo: nat,
    dernier: Option<Body>, liberer: bool,
    published: seq<(nat, Body)>)           // sequence number and body of every record written

  const INITIAL := State(true, false, 0, 0, 0, None, false, [])

  function Next(seqNo: nat): nat { (seqNo + 1) % 0x1_0000_0000 }

  function Write(s: State, b: Body, io: Io): (State, Verdict)
  {
    if !s.ouvert && io == OpenFails then (s.(actif := false), NotWritten)
    else if io == Works then
      (s.(ouvert := true, seqNo := Next(s.seqNo), dernier := Some(b), published := s.published + [(Next(s.seqNo), b)]), Published)
    else (s.(ouvert := false), NotWritten)
  }

  function Evaluate(s: State, b: Body, io: Io): (State, Verdict)
  {
    if s.dernier == Some(b) then (s.(clair := 0, liberer := false), Matched)
    else if b.algo == 0 && s.dernier.Some? && s.dernier.value.algo != 0 && !s.liberer && s.clair + 1 < GRACE then
      (s.(clair := s.clair + 1), Waiting)
    else Write(s.(clair := 0, liberer := false), b, io)
  }

  function Bascule(s: State, p: Poll): bool
  {
    (s.dernier.Some? && ModeAlgo(p.mode) != s.dernier.value.algo) || s.liberer
  }

  function PollStep(s: State, p: Poll): (State, Verdict)
    requires |p.kw| == 4
  {
    if !s.actif then (s, Skipped)
    else if !Bascule(s, p) && s.tick + 1 < POLL_PERIOD then (s.(tick := s.tick + 1), Skipped)
    else Evaluate(s.(tick := 0), BodyOf(p), p.io)
  }

  lemma KeyIsFilled(r: seq<Byte>, kw: seq<Word>)
    requires |r| == RECLEN && |kw| == 4
    requires forall k :: 0 <= k < 4 ==> r[12 - 2 * k] == kw[k] / 256 && r[13 - 2 * k] == kw[k] % 256
    ensures r[6..14] == KeyBytes(kw)
  {
    assert r[12] == kw[0] / 256 && r[10] == kw[1] / 256 && r[8] == kw[2] / 256 && r[6] == kw[3] / 256;
    assert r[13] == kw[0] % 256 && r[11] == kw[1] % 256 && r[9] == kw[2] % 256 && r[7] == kw[3] % 256;
  }

  lemma RecordOf(p: Poll, kc: seq<Byte>, nul: bool)
    requires |p.kw| == 4 && kc == KeyBytes(p.kw) && (nul <==> kc == Zeros(8))
    ensures var algo: Byte := if 1 <= p.mode <= 3 && !nul then p.mode else 0;
            Zeros(4) + [algo, if algo != 0 then 8 else 0] + (if algo == 0 then Zeros(8) else kc) + [0xFF] + Zeros(17) == Encoded(0, BodyOf(p))
  {
  }

  lemma NoKey(r: seq<Byte>)
    requires |r| == RECLEN
    ensures (forall k :: 6 <= k < 14 ==> r[k] == 0) <==> r[6..14] == Zeros(8)
  {
    if r[6..14] == Zeros(8) {
      forall k | 6 <= k < 14 ensures r[k] == 0 { assert r[k] == r[6..14][k - 6]; }
    }
  }

  // ----- the publisher as the source has it -----

  class Publisher {
    var actif: bool
    var ouvert: bool
    var tick: nat
    var clair: nat
    var seqNo: nat
    var aDernier: bool
    var dernier: seq<Byte>
    var liberer: bool
    ghost var last: Body
    ghost var published: seq<(nat, Body)>

    ghost function View(): State
      reads this
    {
      State(actif, ouvert, tick, clair, seqNo, if aDernier then Some(last) else None, liberer, published)
    }

    ghost predicate Valid()
      reads this
    {
      aDernier ==> |last.kc| == 8 && dernier == Encoded(seqNo, last)
    }

    constructor ()
      ensures Valid() && View() == INITIAL
    {
      actif, ouvert, tick, clair, seqNo, aDernier, dernier, liberer := true, false, 0, 0, 0, false, [], false;
      last, published := Body(0, []), [];
    }

    method CanalLibere()
      requires Valid()
      modifies this`liberer
      ensures Valid() && View() == old(View()).(liberer := true)
    {
      liberer := true;
    }

    /** The record is filled byte by byte: a_kc[0] ends up last, each word high byte first. */
    method BuildBody(p: Poll) returns (rec: seq<Byte>)
      requires |p.kw| == 4
      ensures rec == Encoded(0, BodyOf(p))
    {
      var r := new Byte[RECLEN](_ => 0);
      for i := 0 to 4
        invariant forall k :: 0 <= k < i ==> r[12 - 2 * k] == p.kw[k] / 256 && r[13 - 2 * k] == p.kw[k] % 256
        invariant forall k :: 0 <= k < RECLEN && !(14 - 2 * i <= k < 14) ==> r[k] == 0
      {
        r[12 - 2 * i] := p.kw[i] / 256;
        r[13 - 2 * i] := p.kw[i] % 256;
      }
      var kc := r[6..14];
      KeyIsFilled(r[..], p.kw);
      assert kc == r[..][6..14];
      hide KeyBytes, Encoded, BodyOf;
      var nul := true;
      for i := 6 to 14
        invariant nul <==> forall k :: 6 <= k < i ==> r[k] == 0
      {
        if r[i] != 0 { nul := false; }
      }
      NoKey(r[..]);
      RecordOf(p, kc, nul);
      var algo: Byte := if 1 <= p.mode <= 3 && !nul then p.mode else 0;
      if algo == 0 { kc := Zeros(8); }
      rec := Zeros(4) + [algo, if algo != 0 then 8 else 0] + kc + [0xFF] + Zeros(17);
    }

    /** The end of publier_kc: open the file if need be, then write. */
    method WriteRecord(rec: seq<Byte>, ghost b: Body, io: Io) returns (ghost v: Verdict)
      requires |b.kc| == 8 && rec == Encoded(0, b)
      modifies this`actif, this`ouvert, this`seqNo, this`aDernier, this`dernier, this`last, this`published
      ensures (View(), v) == Write(old(View()), b, io)
      ensures v != Published ==> aDernier == old(aDernier) && last == old(last) && dernier == old(dernier) && seqNo == old(seqNo)
      ensures v == Published ==> Valid()
    {
      v := NotWritten;
      if !ouvert {
        if io == OpenFails {
          actif := false;
          return;
        }
        ouvert := true;
      }
      var avant := seqNo;
      seqNo := (seqNo + 1) % 0x1_0000_0000;
      if io != Works {
        ouvert := false;
        seqNo := avant;
        return;
      }
      dernier := [seqNo % 256, seqNo / 256 % 256, seqNo / 0x1_0000 % 256, seqNo / 0x100_0000 % 256] + rec[4..];
      assert dernier == Encoded(seqNo, b);
      aDernier := true;
      last := b;
      published := published + [(seqNo, b)];
      v := Published;
    }

    /** publier_kc, once per frame. */
    method PublierKc(p: Poll) returns (ghost v: Verdict)
      requires Valid() && |p.kw| == 4
      modifies this
      ensures Valid() && (View(), v) == PollStep(old(View()), p)
    {
      if !actif { return Skipped; }
      var modeAlgo: Byte := if p.mode >= 1 && p.mode <= 3 then p.mode else 0;
      if aDernier { EncodedComparesBodies(seqNo, 0, last, last); }
      var bascule := (aDernier && modeAlgo != dernier[4]) || liberer;
      if !bascule {
        tick := tick + 1;
        if tick < POLL_PERIOD { return Skipped; }
      }
      tick := 0;
      var rec := BuildBody(p);
      v := EvaluateRecord(rec, BodyOf(p), p.io);
    }

    /** The comparison with the last record, and the grace period. */
    method EvaluateRecord(rec: seq<Byte>, ghost b: Body, io: Io) returns (ghost v: Verdict)
      requires Valid() && |b.kc| == 8 && rec == Encoded(0, b)
      modifies this
      ensures Valid() && (View(), v) == Evaluate(old(View()), b, io)
    {
      assert |rec| == RECLEN && rec[4] == b.algo;
      if aDernier { EncodedComparesBodies(seqNo, 0, last, b); }
      hide Encoded;
      if aDernier && dernier[4..] == rec[4..] {
        clair := 0;
        liberer := false;
        return Matched;
      }
      if rec[4] == 0 && aDernier && dernier[4] != 0 && !liberer {
        clair := clair + 1;
        if clair < GRACE { return Waiting; }
      }
      clair := 0;
      liberer := false;
      v := WriteRecord(rec, b, io);
    }
  }

  // ----- whole runs -----

  predicate WellFormed(events: seq<Event>) { forall i :: 0 <= i < |events| && events[i].Look? ==> |events[i].p.kw| == 4 }

  /** The state and the verdicts of all polls, oldest first. */
  function Run(events: seq<Event>): (State, seq<Verdict>)
    requires WellFormed(events)
  {
    if events == [] then (INITIAL, [])
    else
      var (s, vs) := Run(events[..|events| - 1]);
      match events[|events| - 1]
      case ChannelReleased => (s.(liberer := true), vs)
      case Look(p) => var (s', v) := PollStep(s, p); (s', vs + [v])
  }

  /** How many evaluated polls, up to the last one, saw the ciphered channel in clear and waited. */
  function WaitingStreak(vs: seq<Verdict>): nat
  {
    if vs == [] then 0
    else match vs[|vs| - 1]
      case Skipped => WaitingStreak(vs[..|vs| - 1])
      case Waiting => WaitingStreak(vs[..|vs| - 1]) + 1
      case _ => 0
  }

  ghost predicate InOrder(dernier: Option<Body>, seqNo: nat, published: seq<(nat, Body)>)
  {
    && dernier == (if published == [] then None else Some(published[|published| - 1].1))
    && seqNo == |published| % 0x1_0000_0000
    && (forall i :: 0 <= i < |published| ==> published[i].0 == (i + 1) % 0x1_0000_0000 && |published[i].1.kc| == 8)
    && (forall i :: 0 < i < |published| ==> published[i - 1].1 != published[i].1)
  }

  ghost predicate Orderly(s: State, vs: seq<Verdict>)
  {
    s.clair == WaitingStreak(vs) < GRACE && InOrder(s.dernier, s.seqNo, s.published)
  }

  lemma OneMoreRecord(dernier: Option<Body>, seqNo: nat, published: seq<(nat, Body)>, b: Body)
    requires InOrder(dernier, seqNo, published) && dernier != Some(b) && |b.kc| == 8
    ensures InOrder(Some(b), Next(seqNo), published + [(Next(seqNo), b)])
  {
    CountWraps(|published|);
  }

  lemma CountWraps(n: nat)
    ensures Next(n % 0x1_0000_0000) == (n + 1) % 0x1_0000_0000
  {
  }

  lemma PollKeepsOrder(s: State, vs: seq<Verdict>, p: Poll)
    requires Orderly(s, vs) && |p.kw| == 4
    ensures Orderly(PollStep(s, p).0, vs + [PollStep(s, p).1])
  {
    var b := BodyOf(p);
    assert |b.kc| == 8;
    if s.dernier != Some(b) { OneMoreRecord(s.dernier, s.seqNo, s.published, b); }
    hide BodyOf, Bascule, Next, InOrder;
    var v := PollStep(s, p).1;
    assert (vs + [v])[..|vs|] == vs;
  }

  /**
   Over every run, consecutive published records differ in body, their sequence numbers count the
   publications and nothing else, and the last one is what the publisher compares with.
   */
  lemma {:induction false} RunIsOrderly(events: seq<Event>)
    requires WellFormed(events)
    ensures Orderly(Run(events).0, Run(events).1)
  {
    if events != [] {
      var rest := events[..|events| - 1];
      RunIsOrderly(rest);
      if events[|events| - 1].Look? { PollKeepsOrder(Run(rest).0, Run(rest).1, events[|events| - 1].p); }
    }
  }

  /** Whether the last record tried was written; nothing yet counts as not. */
  function LastWritten(vs: seq<Verdict>): bool
  {
    vs != [] && (vs[|vs| - 1].Published? || (!vs[|vs| - 1].NotWritten? && LastWritten(vs[..|vs| - 1])))
  }

  /**
   The file is open exactly when the last record tried was written: after a failure it is opened
   anew. Only an open that fails stops the publisher, and it stops it for good.
   */
  lemma {:induction false} FileIsOpen(events: seq<Event>)
    requires WellFormed(events)
    ensures Run(events).0.ouvert <==> LastWritten(Run(events).1)
    ensures !Run(events).0.actif ==> !Run(events).0.ouvert && Run(events).1 != []
  {
    if events != [] {
      var rest, e := events[..|events| - 1], events[|events| - 1];
      FileIsOpen(rest);
      if e.Look? { PollAndFile(Run(rest).0, Run(rest).1, e.p); }
    }
  }

  lemma PollAndFile(s: State, vs: seq<Verdict>, p: Poll)
    requires |p.kw| == 4 && (s.ouvert <==> LastWritten(vs)) && (!s.actif ==> !s.ouvert)
    ensures var (r, v) := PollStep(s, p);
            && (r.ouvert <==> LastWritten(vs + [v]))
            && (!r.actif <==> !s.actif || (v == NotWritten && !s.ouvert && p.io == OpenFails))
            && (!r.actif ==> !r.ouvert)
            && (v == NotWritten ==> p.io != Works)
  {
    hide BodyOf, Bascule;
    var v := PollStep(s, p).1;
    assert (vs + [v])[..|vs|] == vs;
  }

  predicate Evaluated(s: State, p: Poll) { s.actif && (Bascule(s, p) || s.tick + 1 >= POLL_PERIOD) }

  /**
   The grace period, exactly: an evaluated poll that sees the ciphered channel in clear publishes
   the return to clear if and only if a channel release is pending or the four evaluated polls
   before it all waited; otherwise it waits.
   */
  lemma ReturnToClear(events: seq<Event>, p: Poll)
    requires WellFormed(events) && |p.kw| == 4 && p.io == Works
    requires var s := Run(events).0;
             Evaluated(s, p) && BodyOf(p).algo == 0 && s.dernier.Some? && s.dernier.value.algo != 0
    ensures var (s, vs) := Run(events);
            var (s', v) := PollStep(s, p);
            && (v == Published <==> s.liberer || WaitingStreak(vs) == 4)
            && (v == Waiting <==> !(s.liberer || WaitingStreak(vs) == 4))
            && (v == Published ==> s'.published == s.published + [(Next(s.seqNo), Body(0, Zeros(8)))])
  {
    RunIsOrderly(events);
  }

  /** A change of ciphering mode is not delayed: the first poll that sees another mode publishes its key. */
  lemma CipheringIsPublishedAtOnce(events: seq<Event>, mode: Word, key: seq<Byte>)
    requires WellFormed(events) && |key| == 8 && key != Zeros(8) && 1 <= mode <= 3
    requires Run(events).0.actif && Run(events).0.dernier.Some? && Run(events).0.dernier.value.algo != mode
    ensures var s := Run(events).0;
            var (s', v) := PollStep(s, Poll(mode, LoadKc(key), Works));
            v == Published && s'.published == s.published + [(Next(s.seqNo), Body(mode, key))]
  {
    KeyBytesInvertLoad(key);
  }

  function Looks(p: Poll, n: nat): (es: seq<Event>)
    ensures |es| == n && forall i :: 0 <= i < n ==> es[i] == Look(p)
  {
    if n == 0 then [] else Looks(p, n - 1) + [Look(p)]
  }

  lemma {:induction false} TickStaysBelow(events: seq<Event>)
    requires WellFormed(events)
    ensures Run(events).0.tick < POLL_PERIOD
  {
    if events != [] { TickStaysBelow(events[..|events| - 1]); }
  }

  lemma RunOneMore(events: seq<Event>, p: Poll)
    requires WellFormed(events) && |p.kw| == 4
    ensures WellFormed(events + [Look(p)]) && Run(events + [Look(p)]).0 == PollStep(Run(events).0, p).0
  {
    assert (events + [Look(p)])[..|events|] == events;
  }

  /** Until the period is over, polls under the mode last published only count. */
  lemma {:induction false} PollsOnlyCount(events: seq<Event>, p: Poll, n: nat)
    requires WellFormed(events) && |p.kw| == 4
    requires var s := Run(events).0; s.actif && !Bascule(s, p) && s.tick + n < POLL_PERIOD
    ensures WellFormed(events + Looks(p, n)) && Run(events + Looks(p, n)).0 == Run(events).0.(tick := Run(events).0.tick + n)
  {
    if n == 0 {
      assert events + Looks(p, 0) == events;
    } else {
      PollsOnlyCount(events, p, n - 1);
      RunOneMore(events + Looks(p, n - 1), p);
      assert events + Looks(p, n) == events + Looks(p, n - 1) + [Look(p)];
    }
  }

  /** How many polls a new record waits: one if the mode changed or a release is pending, else the rest of the period. */
  function Wait(s: State, p: Poll): int { if Bascule(s, p) then 1 else POLL_PERIOD - s.tick }

  /**
   A new ciphering record, the first of a run or a new key under an unchanged mode included, is
   published by the poll that ends the period at the latest, the 22nd, and by none before.
   */
  lemma NewKeyWithinAPeriod(events: seq<Event>, p: Poll)
    requires WellFormed(events) && |p.kw| == 4 && p.io == Works
    requires var s := Run(events).0; s.actif && BodyOf(p).algo != 0 && s.dernier != Some(BodyOf(p))
    ensures var s := Run(events).0;
            var n := Wait(s, p);
            && 1 <= n <= 22
            && WellFormed(events + Looks(p, n - 1)) && Run(events + Looks(p, n - 1)).0.published == s.published
            && WellFormed(events + Looks(p, n))
            && Run(events + Looks(p, n)).0.published == s.published + [(Next(s.seqNo), BodyOf(p))]
  {
    hide Run;
    TickStaysBelow(events);
    var n := Wait(Run(events).0, p);
    if Bascule(Run(events).0, p) {
      assert events + Looks(p, 0) == events;
    } else {
      PollsOnlyCount(events, p, n - 1);
    }
    RunOneMore(events + Looks(p, n - 1), p);
    assert events + Looks(p, n) == events + Looks(p, n - 1) + [Look(p)];
    PublishesNow(Run(events + Looks(p, n - 1)).0, p);
  }

  lemma PublishesNow(s: State, p: Poll)
    requires |p.kw| == 4 && p.io == Works && s.actif && BodyOf(p).algo != 0 && s.dernier != Some(BodyOf(p))
    requires Bascule(s, p) || s.tick + 1 >= POLL_PERIOD
    ensures PollStep(s, p).0.published == s.published + [(Next(s.seqNo), BodyOf(p))]
  {
  }

  /** A pending release does not outlive the next evaluated poll, whatever that poll comes to. */
  lemma ReleaseIsConsumed(s: State, p: Poll)
    requires |p.kw| == 4 && s.actif && s.liberer
    ensures !PollStep(s, p).0.liberer && PollStep(s, p).1 !in {Skipped, Waiting}
  {
  }
}

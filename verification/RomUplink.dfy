/**
 The uplink bursts encoded by the DSP: captured one at a time as its burst pointer moves, published
 by blocks of four. A block leaves only if its four bursts were captured in one go.
 */
module RomUplink {

  datatype Option<T> = None | Some(value: T)

  const BITS: nat := 116

  /** Eight words holding a burst, as the DSP leaves them. */
  type Words = w: seq<bv16> | |w| == 8 witness seq(8, _ => 0)

  datatype Burst = Burst(nb: nat, bits: Words, flux: Words, l2: seq<bv8>, fn: nat)

  /** What the pointer did: it left the burst area, or announced a burst. */
  datatype Capture = Elsewhere | At(burst: Burst)

  datatype Block = Block(fn: nat, l2: seq<bv8>, bits: seq<bool>, flux: seq<bool>)

  predicate InArea(p: nat) { 0x4280 <= p < 0x42a0 && (p - 0x4280) % 8 == 0 }

  function BurstNb(p: nat): (b: nat)
    requires InArea(p)
    ensures b < 4
    ensures p == 0x4280 + 8 * ((b + 1) % 4)
  {
    ((p - 0x4280) / 8 + 3) % 4
  }

  // ----- the bits of a burst -----

  /** Bit k of the words, most significant first. */
  predicate WordBit(w: Words, k: nat)
    requires k < 128
  {
    (w[k / 16] >> ((15 - k % 16) as bv4)) & 1 == 1
  }

  /** Where bit i of a framed burst comes from: 57 data bits, the two stealing flags, 57 data bits. */
  function Source(i: nat): nat
    requires i < BITS
  {
    if i < 57 then i else if i < 59 then 126 + (i - 57) else i - 2
  }

  function Framed(w: Words): (s: seq<bool>)
    ensures |s| == BITS
  {
    seq(BITS, i requires 0 <= i < BITS => WordBit(w, Source(i)))
  }

  /** Nothing the DSP wrote is lost or read twice: the 114 data bits and the two flags, once each. */
  lemma EachBitOnce(k: nat)
    requires k < 128
    ensures (exists i: nat :: i < BITS && Source(i) == k) <==> k < 114 || k >= 126
    ensures forall i: nat, j: nat :: i < BITS && j < BITS && Source(i) == Source(j) ==> i == j
  {
    if k < 57 {
      assert Source(k) == k;
    } else if k < 114 {
      assert Source(k + 2) == k;
    } else if k >= 126 {
      assert Source(k - 126 + 57) == k;
    }
  }

  /** The first bits of a string of 16, all but the last m, read as a number, the first highest. */
  function Gathered(s: seq<bool>, m: bv4): bv16
    requires |s| == 16
    decreases 15 - m as int
  {
    var bit: bv16 := if s[15 - m as int] then 1 else 0;
    if m == 15 then bit else (Gathered(s, m + 1) << 1) | bit
  }

  /** The eight words as one string of 128 bits. */
  function AsString(w: Words): (s: seq<bool>)
    ensures |s| == 128
  {
    seq(128, k requires 0 <= k < 128 => WordBit(w, k))
  }

  lemma BitOfWord(w: Words, j: nat, m: bv4)
    requires j < 8
    ensures WordBit(w, 16 * j + 15 - m as int) <==> (w[j] >> m) & 1 == 1
  {
    var i := 15 - m as int;
    assert (16 * j + i) / 16 == j && (16 * j + i) % 16 == i;
  }

  /** Bit n of x, counted from the lowest, is at its place in s. */
  predicate HasBit(s: seq<bool>, x: bv16, n: bv4)
    requires |s| == 16
  {
    s[15 - n as int] <==> (x >> n) & 1 == 1
  }

  lemma {:induction false} Gathers(x: bv16, s: seq<bool>, m: bv4)
    requires |s| == 16 && forall n: bv4 :: HasBit(s, x, n)
    ensures Gathered(s, m) == x >> m
    decreases 15 - m as int
  {
    hide Gathered, HasBit;
    if m != 15 { Gathers(x, s, m + 1); }
    GathersOneMore(x, s, m);
  }

  lemma GathersOneMore(x: bv16, s: seq<bool>, m: bv4)
    requires |s| == 16 && HasBit(s, x, m) && (m != 15 ==> Gathered(s, m + 1) == x >> (m + 1))
    ensures Gathered(s, m) == x >> m
  {
    if m != 15 { OneBitMore(x, m); } else { TopBit(x); }
  }

  lemma OneBitMore(x: bv16, m: bv4)
    requires m != 15
    ensures ((x >> (m + 1)) << 1) | ((x >> m) & 1) == x >> m
    ensures (x >> m) & 1 == 0 || (x >> m) & 1 == 1
  {
  }

  lemma TopBit(x: bv16)
    ensures x >> 15 == 0 || x >> 15 == 1
    ensures (x >> 15) & 1 == x >> 15
  {
  }

  /** Word j is bits 16 j to 16 j + 15 of the string, the highest first. */
  lemma StringIsBigEndian(w: Words, j: nat)
    requires j < 8
    ensures Gathered(AsString(w)[16 * j..16 * j + 16], 0) == w[j]
  {
    var s := AsString(w)[16 * j..16 * j + 16];
    forall n: bv4 ensures HasBit(s, w[j], n) {
      BitOfWord(w, j, n);
      assert s[15 - n as int] == AsString(w)[16 * j + (15 - n as int)];
    }
    hide WordBit, AsString;
    Gathers(w[j], s, 0);
  }

  /** The two data halves of a framed burst, joined, are the first 114 bits of that string; the flags are its last two. */
  lemma FramedIsTheString(w: Words)
    ensures var s := Framed(w);
            && s[..57] + s[59..] == AsString(w)[..114]
            && s[57..59] == AsString(w)[126..]
  {
    var s := Framed(w);
    assert s[57..59] == [s[57], s[58]];
  }

  // ----- what a complete block is -----

  predicate IsBurst(c: Capture, nb: nat) { c.At? && c.burst.nb == nb }

  /** Burst 0 came at k and since then neither another one, nor burst 3, nor a stray pointer. */
  ghost predicate OpenSince(caps: seq<Capture>, k: nat)
  {
    k < |caps| && IsBurst(caps[k], 0) && forall j :: k < j < |caps| ==> IsBurst(caps[j], 1) || IsBurst(caps[j], 2)
  }

  ghost predicate SeenSince(caps: seq<Capture>, k: nat, nb: nat)
  {
    exists j :: k < j < |caps| && IsBurst(caps[j], nb)
  }

  /** The last capture is burst 3 and bursts 0, 1 and 2 were captured since the latest burst 0. */
  ghost predicate Complete(caps: seq<Capture>)
  {
    && |caps| > 0 && IsBurst(caps[|caps| - 1], 3)
    && exists k :: CompleteFrom(caps, k)
  }

  ghost predicate CompleteFrom(caps: seq<Capture>, k: nat)
    requires |caps| > 0
  {
    var before := caps[..|caps| - 1];
    OpenSince(before, k) && SeenSince(before, k, 1) && SeenSince(before, k, 2)
  }

  ghost function Latest(caps: seq<Capture>, nb: nat): Option<Burst>
  {
    if caps == [] then None
    else if IsBurst(caps[|caps| - 1], nb) then Some(caps[|caps| - 1].burst)
    else Latest(caps[..|caps| - 1], nb)
  }

  lemma {:induction false} LatestSince(caps: seq<Capture>, k: nat, nb: nat)
    requires k < |caps|
    requires IsBurst(caps[k], nb) || SeenSince(caps, k, nb)
    ensures exists j :: k <= j < |caps| && IsBurst(caps[j], nb) && Latest(caps, nb) == Some(caps[j].burst)
  {
    var n := |caps| - 1;
    if !IsBurst(caps[n], nb) {
      if !IsBurst(caps[k], nb) {
        var j :| k < j < |caps| && IsBurst(caps[j], nb);
        assert caps[..n][j] == caps[j];
      }
      LatestSince(caps[..n], k, nb);
    }
  }

  /** The bursts of a complete block all belong to the latest burst 0. */
  lemma CompleteBlockIsOfOneGo(caps: seq<Capture>, k: nat)
    requires |caps| > 0 && IsBurst(caps[|caps| - 1], 3) && CompleteFrom(caps, k)
    ensures Latest(caps, 0) == Some(caps[k].burst)
    ensures Latest(caps, 3) == Some(caps[|caps| - 1].burst)
    ensures exists j :: k < j < |caps| - 1 && IsBurst(caps[j], 1) && Latest(caps, 1) == Some(caps[j].burst)
    ensures exists j :: k < j < |caps| - 1 && IsBurst(caps[j], 2) && Latest(caps, 2) == Some(caps[j].burst)
  {
    var before := caps[..|caps| - 1];
    LatestSince(before, k, 0);
    LatestSince(before, k, 1);
    LatestSince(before, k, 2);
  }

  // ----- the mask -----

  function Bit(nb: nat): bv8
    requires nb < 4
  {
    if nb == 0 then 1 else if nb == 1 then 2 else if nb == 2 then 4 else 8
  }

  predicate Has(mask: bv8, nb: nat)
    requires nb < 4
  {
    mask & Bit(nb) != 0
  }

  lemma MaskBits(mask: bv8, nb: nat)
    requires nb < 4
    ensures forall b: nat :: b < 4 ==> (Has(mask | Bit(nb), b) <==> b == nb || Has(mask, b))
    ensures mask & 0xf0 == 0 ==> (mask | Bit(nb)) & 0xf0 == 0
    ensures mask & 0xf0 == 0 ==> (mask == 0xf <==> Has(mask, 0) && Has(mask, 1) && Has(mask, 2) && Has(mask, 3))
  {
    forall b: nat | b < 4 ensures Has(mask | Bit(nb), b) <==> b == nb || Has(mask, b) {}
  }

  /** The mask between two captures tells whether a block is open and which bursts it has. */
  ghost predicate Tells(mask: bv8, caps: seq<Capture>)
  {
    && mask & 0xf0 == 0 && !Has(mask, 3)
    && (Has(mask, 0) <==> exists k :: OpenSince(caps, k))
    && forall k: nat :: OpenSince(caps, k) ==> (Has(mask, 1) <==> SeenSince(caps, k, 1)) && (Has(mask, 2) <==> SeenSince(caps, k, 2))
  }

  lemma StillOpen(caps: seq<Capture>, c: Capture, k: nat)
    requires IsBurst(c, 1) || IsBurst(c, 2)
    ensures OpenSince(caps + [c], k) <==> OpenSince(caps, k)
    ensures k < |caps| ==> forall nb :: SeenSince(caps + [c], k, nb) <==> SeenSince(caps, k, nb) || IsBurst(c, nb)
  {
    var all := caps + [c];
    assert all[..|caps|] == caps;
    assert OpenSince(all, k) ==> k != |caps| && forall j :: k < j < |caps| ==> all[j] == caps[j];
    forall nb | k < |caps| ensures SeenSince(all, k, nb) <==> SeenSince(caps, k, nb) || IsBurst(c, nb) {
      if SeenSince(caps, k, nb) {
        var j :| k < j < |caps| && IsBurst(caps[j], nb);
        assert all[j] == caps[j];
      }
      if IsBurst(c, nb) { assert all[|caps|] == c; }
    }
  }

  lemma Closes(caps: seq<Capture>, c: Capture, k: nat)
    requires !IsBurst(c, 1) && !IsBurst(c, 2)
    ensures OpenSince(caps + [c], k) <==> IsBurst(c, 0) && k == |caps|
    ensures !SeenSince(caps + [c], |caps|, 1) && !SeenSince(caps + [c], |caps|, 2)
  {
    assert (caps + [c])[|caps|] == c;
  }

  lemma MaskFollows(mask: bv8, caps: seq<Capture>, c: Capture)
    requires Tells(mask, caps)
    ensures c == Elsewhere || IsBurst(c, 3) ==> Tells(0, caps + [c])
    ensures IsBurst(c, 0) ==> Tells(Bit(0), caps + [c])
    ensures IsBurst(c, 1) ==> Tells(mask | Bit(1), caps + [c])
    ensures IsBurst(c, 2) ==> Tells(mask | Bit(2), caps + [c])
    ensures IsBurst(c, 3) ==> (mask | Bit(3) == 0xf <==> Complete(caps + [c]))
  {
    var all := caps + [c];
    assert all[..|caps|] == caps;
    if IsBurst(c, 1) || IsBurst(c, 2) {
      MaskBits(mask, c.burst.nb);
      forall k: nat { StillOpen(caps, c, k); }
    } else {
      forall k: nat { Closes(caps, c, k); }
      if IsBurst(c, 0) {
        assert OpenSince(all, |caps|);
      }
      if IsBurst(c, 3) {
        MaskBits(mask, 3);
        MaskBits(mask | Bit(3), 3);
        if exists k :: OpenSince(caps, k) {
          var k: nat :| OpenSince(caps, k);
          assert Has(mask, 1) && Has(mask, 2) ==> CompleteFrom(all, k);
        }
      }
    }
  }

  // ----- the captures -----

  class RomUplink {
    var prev: nat
    var masque: bv8
    var l2: seq<bv8>
    var fn0: nat
    const bits: array<bool>
    const flux: array<bool>
    /** Every move of the pointer so far. */
    ghost var captures: seq<Capture>

    /** The buffers hold the latest burst of each number, l2 and fn0 belong to the latest burst 0. */
    ghost predicate Buffered()
      reads this, bits, flux
    {
      && bits != flux && bits.Length == flux.Length == 4 * BITS
      && Kept(captures, bits[..], flux[..])
      && (Latest(captures, 0).Some? ==> l2 == Latest(captures, 0).value.l2 && fn0 == Latest(captures, 0).value.fn)
    }

    ghost predicate Valid()
      reads this, bits, flux
    {
      Buffered() && Tells(masque, captures)
    }

    constructor (p: nat)
      ensures Valid() && prev == p && captures == [] && fresh(bits) && fresh(flux)
    {
      prev, masque, l2, fn0 := p, 0, [], 0;
      bits, flux := new bool[4 * BITS](_ => false), new bool[4 * BITS](_ => false);
      captures := [];
    }

    /** The copy loop, for one of the two buffers: the other three bursts stay. */
    static method Store(into: array<bool>, nb: nat, words: Words)
      requires nb < 4 && into.Length == 4 * BITS
      modifies into
      ensures into[..] == Put(old(into[..]), nb, Framed(words))
    {
      ghost var was, part := into[..], Framed(words);
      for i := 0 to BITS
        invariant into[..] == was[..BITS * nb] + part[..i] + was[BITS * nb + i..]
      {
        var k := if i < 57 then i else if i < 59 then 126 + (i - 57) else i - 2;
        ghost var t := into[..];
        into[BITS * nb + i] := WordBit(words, k);
        assert into[..] == t[BITS * nb + i := part[i]];
      }
    }

    /** A burst is copied; burst 0 also brings the L2 block and the frame of the block to come. */
    method Capturer(burst: Burst)
      requires Buffered() && burst.nb < 4
      modifies this`captures, this`masque, this`l2, this`fn0, bits, flux
      ensures Buffered() && captures == old(captures) + [At(burst)]
      ensures masque == if burst.nb == 0 then 0 else old(masque)
    {
      CaptureIsKept(captures, At(burst), bits[..], flux[..]);
      captures := captures + [At(burst)];
      if burst.nb == 0 { masque, l2, fn0 := 0, burst.l2, burst.fn; }
      Store(bits, burst.nb, burst.bits);
      Store(flux, burst.nb, burst.flux);
    }

    /** The pointer left the area: whatever was open is abandoned. */
    method Abandonner()
      requires Valid()
      modifies this`captures, this`masque
      ensures Valid() && captures == old(captures) + [Elsewhere]
    {
      MaskFollows(masque, captures, Elsewhere);
      CaptureIsKept(captures, Elsewhere, bits[..], flux[..]);
      captures := captures + [Elsewhere];
      masque := 0;
    }

    /** tx_rom_publier, up to the publication of the block in the ring. */
    method TxRomPublier(p: nat, words: Words, stream: Words, posted: seq<bv8>, fn: nat) returns (block: Option<Block>)
      requires Valid()
      modifies this, bits, flux
      ensures Valid() && prev == p
      ensures p == old(prev) ==> captures == old(captures) && block == None
      ensures p != old(prev) ==> captures == old(captures) + [Seen(p, words, stream, posted, fn)]
      ensures p != old(prev) ==> (block.Some? <==> Complete(captures))
      ensures block.Some? ==> IsBlockOf(block.value, captures)
    {
      block := None;
      if p == prev { return; }
      prev := p;
      if !InArea(p) {
        StrayIsIncomplete(captures);
        Abandonner();
        return;
      }
      var b := BurstNb(p);
      ghost var c := Seen(p, words, stream, posted, fn);
      MaskFollows(masque, captures, c);
      Capturer(Burst(b, words, stream, posted, fn));
      masque := masque | Bit(b);
      if b != 3 { return; }
      if masque != 0xf { masque := 0; return; }
      masque := 0;
      AllFour(captures, bits[..], flux[..]);
      block := Some(Block(fn0, l2, bits[..], flux[..]));
    }
  }

  lemma StrayIsIncomplete(caps: seq<Capture>)
    ensures !Complete(caps + [Elsewhere])
  {
  }

  function Put(s: seq<bool>, nb: nat, part: seq<bool>): seq<bool>
    requires nb < 4 && |s| == 4 * BITS && |part| == BITS
  {
    s[..BITS * nb] + part + s[BITS * (nb + 1)..]
  }

  function Seen(p: nat, words: Words, stream: Words, posted: seq<bv8>, fn: nat): Capture
  {
    if InArea(p) then At(Burst(BurstNb(p), words, stream, posted, fn)) else Elsewhere
  }

  /** Part nb of the buffers holds the latest burst nb. */
  ghost predicate PartKept(caps: seq<Capture>, nb: nat, bits: seq<bool>, flux: seq<bool>)
    requires nb < 4 && |bits| == |flux| == 4 * BITS
  {
    Latest(caps, nb).Some? ==>
      var b := Latest(caps, nb).value;
      bits[BITS * nb..BITS * (nb + 1)] == Framed(b.bits) && flux[BITS * nb..BITS * (nb + 1)] == Framed(b.flux)
  }

  ghost predicate Kept(caps: seq<Capture>, bits: seq<bool>, flux: seq<bool>)
  {
    |bits| == |flux| == 4 * BITS && forall nb: nat :: nb < 4 ==> PartKept(caps, nb, bits, flux)
  }

  lemma CaptureIsKept(caps: seq<Capture>, c: Capture, bits: seq<bool>, flux: seq<bool>)
    requires Kept(caps, bits, flux)
    ensures forall nb: nat :: Latest(caps + [c], nb) == if IsBurst(c, nb) then Some(c.burst) else Latest(caps, nb)
    ensures c == Elsewhere ==> Kept(caps + [c], bits, flux)
    ensures c.At? && c.burst.nb < 4 ==>
              Kept(caps + [c], Put(bits, c.burst.nb, Framed(c.burst.bits)), Put(flux, c.burst.nb, Framed(c.burst.flux)))
  {
    assert (caps + [c])[..|caps|] == caps;
    forall nb: nat | nb < 4 ensures c == Elsewhere ==> PartKept(caps + [c], nb, bits, flux) {
      assert PartKept(caps, nb, bits, flux);
    }
    if c.At? && c.burst.nb < 4 {
      forall nb: nat | nb < 4
        ensures PartKept(caps + [c], nb, Put(bits, c.burst.nb, Framed(c.burst.bits)), Put(flux, c.burst.nb, Framed(c.burst.flux)))
      {
        assert PartKept(caps, nb, bits, flux);
        PutElsewhere(bits, c.burst.nb, Framed(c.burst.bits), nb);
        PutElsewhere(flux, c.burst.nb, Framed(c.burst.flux), nb);
      }
    }
  }

  lemma PutElsewhere(s: seq<bool>, nb: nat, part: seq<bool>, other: nat)
    requires nb < 4 && other < 4 && |s| == 4 * BITS && |part| == BITS
    ensures Put(s, nb, part)[BITS * other..BITS * (other + 1)] == if other == nb then part else s[BITS * other..BITS * (other + 1)]
  {
  }

  lemma AllFour(caps: seq<Capture>, bits: seq<bool>, flux: seq<bool>)
    requires Complete(caps) && Kept(caps, bits, flux)
    ensures forall nb: nat :: nb < 4 ==> Latest(caps, nb).Some?
    ensures IsBlockOf(Block(Latest(caps, 0).value.fn, Latest(caps, 0).value.l2, bits, flux), caps)
  {
    var k: nat :| CompleteFrom(caps, k);
    CompleteBlockIsOfOneGo(caps, k);
    assert PartKept(caps, 0, bits, flux) && PartKept(caps, 1, bits, flux) && PartKept(caps, 2, bits, flux) && PartKept(caps, 3, bits, flux);
    assert bits == bits[..116] + bits[116..232] + bits[232..348] + bits[348..464];
    assert flux == flux[..116] + flux[116..232] + flux[232..348] + flux[348..464];
  }

  /** The block of the latest bursts 0 to 3, under the L2 and the frame of burst 0. */
  ghost predicate IsBlockOf(b: Block, caps: seq<Capture>)
  {
    && (forall nb: nat :: nb < 4 ==> Latest(caps, nb).Some?)
    && b.fn == Latest(caps, 0).value.fn && b.l2 == Latest(caps, 0).value.l2
    && b.bits == Framed(Latest(caps, 0).value.bits) + Framed(Latest(caps, 1).value.bits)
                 + Framed(Latest(caps, 2).value.bits) + Framed(Latest(caps, 3).value.bits)
    && b.flux == Framed(Latest(caps, 0).value.flux) + Framed(Latest(caps, 1).value.flux)
                 + Framed(Latest(caps, 2).value.flux) + Framed(Latest(caps, 3).value.flux)
  }

  /** What one call sees of a pass of the pointer over the burst area. */
  datatype Look = Look(words: Words, stream: Words, posted: seq<bv8>, fn: nat)

  function FourPasses(a: Look, b: Look, c: Look, d: Look): seq<Capture>
  {
    [Seen(0x4288, a.words, a.stream, a.posted, a.fn), Seen(0x4290, b.words, b.stream, b.posted, b.fn),
     Seen(0x4298, c.words, c.stream, c.posted, c.fn), Seen(0x4280, d.words, d.stream, d.posted, d.fn)]
  }

  lemma FourPassesAre(caps: seq<Capture>, a: Look, b: Look, c: Look, d: Look)
    ensures var all, n := caps + FourPasses(a, b, c, d), |caps|;
            && IsBurst(all[n], 0) && IsBurst(all[n + 1], 1) && IsBurst(all[n + 2], 2) && IsBurst(all[n + 3], 3)
            && all[n].burst == Burst(0, a.words, a.stream, a.posted, a.fn)
            && all[n + 1].burst == Burst(1, b.words, b.stream, b.posted, b.fn)
            && all[n + 2].burst == Burst(2, c.words, c.stream, c.posted, c.fn)
            && all[n + 3].burst == Burst(3, d.words, d.stream, d.posted, d.fn)
  {
  }

  /**
   A pass of the pointer over 0x4288, 0x4290, 0x4298 and back to 0x4280 gives a block, whatever came
   before: the four bursts and the four streams in that order, with the L2 and the frame of the first.
   */
  lemma FourPassesGiveABlock(caps: seq<Capture>, a: Look, b: Look, c: Look, d: Look, block: Block)
    ensures Complete(caps + FourPasses(a, b, c, d))
    ensures IsBlockOf(block, caps + FourPasses(a, b, c, d)) <==>
              && block.fn == a.fn && block.l2 == a.posted
              && block.bits == Framed(a.words) + Framed(b.words) + Framed(c.words) + Framed(d.words)
              && block.flux == Framed(a.stream) + Framed(b.stream) + Framed(c.stream) + Framed(d.stream)
  {
    hide FourPasses, Framed;
    var all, n := caps + FourPasses(a, b, c, d), |caps|;
    FourPassesAre(caps, a, b, c, d);
    FourLong(a, b, c, d);
    assert all[..n + 3] == all[..|all| - 1];
    assert CompleteFrom(all, n) by {
      var before := all[..n + 3];
      assert before[n] == all[n] && before[n + 1] == all[n + 1] && before[n + 2] == all[n + 2];
      assert SeenSince(before, n, 1) && SeenSince(before, n, 2);
    }
    LatestAt(all, n, 0);
    LatestAt(all, n + 1, 1);
    LatestAt(all, n + 2, 2);
    LatestAt(all, n + 3, 3);
  }

  lemma FourLong(a: Look, b: Look, c: Look, d: Look)
    ensures |FourPasses(a, b, c, d)| == 4
  {
  }

  lemma {:induction false} LatestAt(caps: seq<Capture>, k: nat, nb: nat)
    requires k < |caps| && IsBurst(caps[k], nb) && forall j :: k < j < |caps| ==> !IsBurst(caps[j], nb)
    ensures Latest(caps, nb) == Some(caps[k].burst)
  {
    if k < |caps| - 1 { LatestAt(caps[..|caps| - 1], k, nb); }
  }
}

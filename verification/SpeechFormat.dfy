/**
 Full-rate speech between the DSP's TI layout and the standard frame: two bit permutations on
 33-byte buffers, one per direction. The bit-order table of the codec library is a parameter, of
 which only that it is a permutation of 0..259 is used.
 */
module SpeechFormat {

  const FR_BYTES: nat := 33
  const BITS: nat := 260

  type Bytes = b: seq<bv8> | |b| == FR_BYTES witness seq(FR_BYTES, _ => 0)

  /** gsm610_bitorder and its inverse. */
  datatype Order = Order(to: seq<nat>, from: seq<nat>)
  {
    ghost predicate Permutation()
    {
      && |to| == |from| == BITS
      && (forall i :: 0 <= i < BITS ==> to[i] < BITS && from[to[i]] == i)
      && (forall j :: 0 <= j < BITS ==> from[j] < BITS && to[from[j]] == j)
    }
  }

  // ----- bits of bytes, most significant first -----

  function Mask(j: nat): bv8
    requires j < 8
  {
    if j == 0 then 0x80 else if j == 1 then 0x40 else if j == 2 then 0x20 else if j == 3 then 0x10
    else if j == 4 then 0x08 else if j == 5 then 0x04 else if j == 6 then 0x02 else 0x01
  }

  predicate BitOf(x: bv8, j: nat)
    requires j < 8
  {
    x & Mask(j) != 0
  }

  function WithBit(x: bv8, j: nat, v: bool): bv8
    requires j < 8
  {
    if v then x | Mask(j) else x & !Mask(j)
  }

  lemma WithBitSets(x: bv8, j: nat, v: bool, k: nat)
    requires j < 8 && k < 8
    ensures BitOf(WithBit(x, j, v), k) == if k == j then v else BitOf(x, k)
  {
  }

  lemma SameBitsSameByte(x: bv8, y: bv8)
    requires forall j: nat :: j < 8 ==> BitOf(x, j) == BitOf(y, j)
    ensures x == y
  {
    assert BitOf(x, 0) == BitOf(y, 0) && BitOf(x, 1) == BitOf(y, 1) && BitOf(x, 2) == BitOf(y, 2) && BitOf(x, 3) == BitOf(y, 3);
    assert BitOf(x, 4) == BitOf(y, 4) && BitOf(x, 5) == BitOf(y, 5) && BitOf(x, 6) == BitOf(y, 6) && BitOf(x, 7) == BitOf(y, 7);
  }

  /** A byte made of the low nibble of x and the high nibble of y. */
  lemma Nibbles(x: bv8, y: bv8, k: nat)
    requires k < 8
    ensures BitOf((x << 4) | (y >> 4), k) == if k < 4 then BitOf(x, k + 4) else BitOf(y, k - 4)
    ensures BitOf(0xd0 | (y >> 4), k) == if k < 4 then k != 2 else BitOf(y, k - 4)
  {
  }

  /** bit_msb. */
  predicate BitMsb(b: seq<bv8>, i: nat)
    requires i < 8 * |b|
  {
    BitOf(b[i / 8], i % 8)
  }

  lemma SameBitsSameBytes(a: seq<bv8>, b: seq<bv8>)
    requires |a| == |b| && forall i: nat :: i < 8 * |a| ==> BitMsb(a, i) == BitMsb(b, i)
    ensures a == b
  {
    forall n | 0 <= n < |a| ensures a[n] == b[n] {
      forall j: nat | j < 8 ensures BitOf(a[n], j) == BitOf(b[n], j) {
        assert (8 * n + j) / 8 == n && (8 * n + j) % 8 == j;
        assert BitMsb(a, 8 * n + j) == BitMsb(b, 8 * n + j);
      }
      SameBitsSameByte(a[n], b[n]);
    }
  }

  lemma UpdatedBit(b: seq<bv8>, i: nat, v: bool, k: nat)
    requires i < 8 * |b| && k < 8 * |b|
    ensures BitMsb(b[i / 8 := WithBit(b[i / 8], i % 8, v)], k) == if k == i then v else BitMsb(b, k)
  {
    if i / 8 == k / 8 {
      WithBitSets(b[i / 8], i % 8, v, k % 8);
    }
  }

  /** mettre_bit_msb, in place. */
  method MettreBitMsb(b: array<bv8>, i: nat, v: bool)
    requires i < 8 * b.Length
    modifies b
    ensures forall k: nat :: k < 8 * b.Length ==> BitMsb(b[..], k) == if k == i then v else BitMsb(old(b[..]), k)
  {
    ghost var was := b[..];
    b[i / 8] := WithBit(b[i / 8], i % 8, v);
    assert b[..] == was[i / 8 := WithBit(was[i / 8], i % 8, v)];
    forall k: nat | k < 8 * b.Length
      ensures BitMsb(b[..], k) == if k == i then v else BitMsb(was, k)
    {
      UpdatedBit(was, i, v, k);
    }
  }

  // ----- the two layouts -----

  /** Where bit i of the codec order sits in the TI layout: a gap of four bits at 182. */
  function TiSlot(i: nat): nat { if i >= 182 then i + 4 else i }

  predicate InGap(k: nat) { 182 <= k < 186 }

  /** The leading nibble 0xd of a standard frame. */
  predicate Starts(fr: Bytes) { BitMsb(fr, 0) && BitMsb(fr, 1) && !BitMsb(fr, 2) && BitMsb(fr, 3) }

  /** The same 260 bits, in the two layouts. */
  ghost predicate SameSpeech(ti: Bytes, fr: Bytes, o: Order)
    requires o.Permutation()
  {
    forall i: nat :: i < BITS ==> BitMsb(fr, o.to[i] + 4) == BitMsb(ti, TiSlot(i))
  }

  ghost predicate GapIsClear(ti: Bytes) { forall k: nat :: InGap(k) ==> !BitMsb(ti, k) }

  /** The canonical order: bit o.to[i] is bit i of the codec order. */
  ghost predicate CanonOfTi(canon: Bytes, ti: Bytes, o: Order)
    requires o.Permutation()
  {
    forall i: nat :: i < BITS ==> BitMsb(canon, o.to[i]) == BitMsb(ti, TiSlot(i))
  }

  ghost predicate Shifted(canon: Bytes, fr: Bytes)
  {
    fr[0] == 0xd0 | (canon[0] >> 4) && forall k :: 1 <= k < FR_BYTES ==> fr[k] == (canon[k - 1] << 4) | (canon[k] >> 4)
  }

  /** The 260 bits follow the nibble 0xd. */
  lemma ShiftedByNibble(canon: Bytes, fr: Bytes)
    requires Shifted(canon, fr)
    ensures Starts(fr) && forall j: nat :: j < BITS ==> BitMsb(fr, j + 4) == BitMsb(canon, j)
  {
    Nibbles(0, canon[0], 0);
    Nibbles(0, canon[0], 1);
    Nibbles(0, canon[0], 2);
    Nibbles(0, canon[0], 3);
    forall j: nat | j < BITS ensures BitMsb(fr, j + 4) == BitMsb(canon, j) {
      var n, k := (j + 4) / 8, (j + 4) % 8;
      assert j + 4 == 8 * n + k;
      if k >= 4 {
        assert j == 8 * n + (k - 4) && j / 8 == n && j % 8 == k - 4;
      } else {
        assert j == 8 * (n - 1) + (k + 4) && j / 8 == n - 1 && j % 8 == k + 4;
      }
      Nibbles(if n > 0 then canon[n - 1] else 0, canon[n], k);
    }
  }

  lemma ShiftGivesSpeech(ti: Bytes, canon: Bytes, fr: Bytes, o: Order)
    requires o.Permutation() && CanonOfTi(canon, ti, o) && Shifted(canon, fr)
    ensures Starts(fr) && SameSpeech(ti, fr, o)
  {
    ShiftedByNibble(canon, fr);
    forall i: nat | i < BITS ensures BitMsb(fr, o.to[i] + 4) == BitMsb(ti, TiSlot(i)) {
      assert BitMsb(fr, o.to[i] + 4) == BitMsb(canon, o.to[i]);
    }
  }

  /** ti_fr_to_canon. */
  method TiToCanon(ti: array<bv8>, canon: array<bv8>, o: Order)
    requires ti.Length == canon.Length == FR_BYTES && ti != canon && o.Permutation()
    modifies canon
    ensures CanonOfTi(canon[..], ti[..], o)
  {
    for i := 0 to BITS
      invariant ti[..] == old(ti[..])
      invariant forall k: nat :: k < i ==> BitMsb(canon[..], o.to[k]) == BitMsb(ti[..], TiSlot(k))
    {
      var si := if i >= 182 then i + 4 else i;
      MettreBitMsb(canon, o.to[i], BitMsb(ti[..], si));
      assert forall k: nat :: k < i ==> o.to[k] != o.to[i];
    }
  }

  /** parole_ti_vers_fr: the buffer is converted in place, through the canonical order. */
  method ParoleTiVersFr(fr: array<bv8>, o: Order)
    requires fr.Length == FR_BYTES && o.Permutation()
    modifies fr
    ensures Starts(fr[..]) && SameSpeech(old(fr[..]), fr[..], o)
  {
    var canon := new bv8[FR_BYTES](_ => 0);
    TiToCanon(fr, canon, o);
    ghost var c := canon[..];
    fr[0] := 0xd0 | (canon[0] >> 4);
    for i := 1 to FR_BYTES
      invariant canon[..] == c
      invariant fr[0] == 0xd0 | (c[0] >> 4)
      invariant forall k :: 1 <= k < i ==> fr[k] == (c[k - 1] << 4) | (c[k] >> 4)
    {
      fr[i] := (canon[i - 1] << 4) | (canon[i] >> 4);
    }
    ShiftGivesSpeech(old(fr[..]), c, fr[..], o);
  }

  // ----- the other direction -----

  /** gsm_to_canon: the leading nibble is skipped. */
  method FrToCanon(fr: Bytes, canon: array<bv8>)
    requires canon.Length == FR_BYTES
    modifies canon
    ensures forall i: nat :: i < BITS ==> BitMsb(canon[..], i) == BitMsb(fr, i + 4)
  {
    for i := 0 to BITS
      invariant forall k: nat :: k < i ==> BitMsb(canon[..], k) == BitMsb(fr, k + 4)
    {
      MettreBitMsb(canon, i, BitMsb(fr, i + 4));
    }
  }

  /** ti_fr_from_canon: the four gap bits of the cleared buffer are never written. */
  method TiFromCanon(canon: array<bv8>, ti: array<bv8>, o: Order)
    requires canon.Length == FR_BYTES && ti.Length == FR_BYTES + 1 && canon != ti && o.Permutation()
    requires forall k: nat :: k < 8 * ti.Length ==> !BitMsb(ti[..], k)
    modifies ti
    ensures CanonOfTi(canon[..], ti[..FR_BYTES], o) && GapIsClear(ti[..FR_BYTES])
  {
    for i := 0 to BITS
      invariant canon[..] == old(canon[..])
      invariant forall k: nat :: InGap(k) ==> !BitMsb(ti[..], k)
      invariant forall k: nat :: k < i ==> BitMsb(canon[..], o.to[k]) == BitMsb(ti[..], TiSlot(k))
    {
      var si := if i >= 182 then i + 4 else i;
      MettreBitMsb(ti, si, BitMsb(canon[..], o.to[i]));
    }
    assert forall k: nat :: k < 8 * FR_BYTES ==> BitMsb(ti[..FR_BYTES], k) == BitMsb(ti[..], k);
  }

  /** The 33 bytes in seventeen words, high byte first. */
  function Word(hi: bv8, lo: bv8): bv16 { ((hi as bv16) << 8) | (lo as bv16) }

  function HighByte(w: bv16): bv8 { ((w >> 8) & 0xff) as bv8 }

  function LowByte(w: bv16): bv8 { (w & 0xff) as bv8 }

  /** The bytes held by words read high byte first. */
  function BytesOf(w: seq<bv16>): (b: seq<bv8>)
    ensures |b| == 2 * |w|
  {
    if w == [] then [] else BytesOf(w[..|w| - 1]) + [HighByte(w[|w| - 1]), LowByte(w[|w| - 1])]
  }

  /**
   prothese_parole_dl: the block decoded on the host replaces the one of the DSP in a_dd, unless
   mode 1 finds that the DSP posted a good one (block flag up, bad-frame flag down). Words 3..19
   hold it in the TI layout. The block flag is defined outside this repository and is a parameter.
   */
  method ProtheseParoleDl(dd: array<bv16>, fr: Bytes, ne: bv16, mode: int, blud: bv16, o: Order)
    returns (posted: bool, ghost ti: Bytes)
    requires dd.Length >= 20 && o.Permutation()
    modifies dd
    ensures posted <==> mode != 0 && !(mode == 1 && old(dd[0]) & blud != 0 && old(dd[0]) & 0x0004 == 0)
    ensures !posted ==> dd[..] == old(dd[..])
    ensures posted ==> SameSpeech(ti, fr, o) && GapIsClear(ti) && BytesOf(dd[3..20]) == ti + [0]
    ensures posted ==> dd[0] == (old(dd[0]) & !0x0044) | blud && dd[2] == ne && dd[1] == old(dd[1])
    ensures forall k :: 20 <= k < dd.Length ==> dd[k] == old(dd[k])
  {
    posted := false;
    ti := fr;
    if mode == 0 { return; }
    if mode == 1 && dd[0] & blud != 0 && dd[0] & 0x0004 == 0 { return; }
    var canon := new bv8[FR_BYTES](_ => 0);
    FrToCanon(fr, canon);
    var block := new bv8[FR_BYTES + 1](_ => 0);
    assert forall k: nat :: k < 8 * block.Length ==> !BitMsb(block[..], k);
    TiFromCanon(canon, block, o);
    ti := block[..FR_BYTES];
    CanonGivesSpeech(canon[..], ti, fr, o);
    dd[0] := (dd[0] & !0x0044) | blud;
    dd[2] := ne;
    Pack(block, dd);
    posted := true;
  }

  lemma CanonGivesSpeech(canon: Bytes, ti: Bytes, fr: Bytes, o: Order)
    requires o.Permutation() && CanonOfTi(canon, ti, o)
    requires forall i: nat :: i < BITS ==> BitMsb(canon, i) == BitMsb(fr, i + 4)
    ensures SameSpeech(ti, fr, o)
  {
    forall i: nat | i < BITS ensures BitMsb(fr, o.to[i] + 4) == BitMsb(ti, TiSlot(i)) {
      assert BitMsb(canon, o.to[i]) == BitMsb(fr, o.to[i] + 4);
    }
  }

  lemma WordKeepsItsBytes(hi: bv8, lo: bv8)
    ensures HighByte(Word(hi, lo)) == hi && LowByte(Word(hi, lo)) == lo
    ensures Word(hi, lo) >> 8 == hi as bv16 && Word(hi, lo) & 0xff == lo as bv16
  {
  }

  /** The packing loop: byte 33 is written as zero. */
  method Pack(block: array<bv8>, dd: array<bv16>)
    requires block.Length == FR_BYTES + 1 && dd.Length >= 20
    modifies dd
    ensures BytesOf(dd[3..20]) == block[..FR_BYTES] + [0]
    ensures forall k :: 0 <= k < dd.Length && !(3 <= k < 20) ==> dd[k] == old(dd[k])
  {
    ghost var b := block[..FR_BYTES] + [0];
    var k := 0;
    while k < FR_BYTES
      invariant 0 <= k <= FR_BYTES + 1 && k % 2 == 0
      invariant block[..FR_BYTES] + [0] == b
      invariant BytesOf(dd[3..3 + k / 2]) == b[..k]
      invariant forall j :: 0 <= j < dd.Length && !(3 <= j < 20) ==> dd[j] == old(dd[j])
    {
      var lo := if k + 1 < FR_BYTES then block[k + 1] else 0;
      dd[3 + k / 2] := Word(block[k], lo);
      WordKeepsItsBytes(block[k], lo);
      assert b[..k + 2] == b[..k] + [b[k], b[k + 1]];
      assert dd[3..3 + (k + 2) / 2] == dd[3..3 + k / 2] + [Word(block[k], lo)];
      k := k + 2;
    }
    assert b[..34] == b && k == 34;
  }

  // ----- round trips -----

  /** From the standard frame to the TI layout and back: the same frame, if it starts with 0xd. */
  lemma FrTiFr(fr: Bytes, ti: Bytes, back: Bytes, o: Order)
    requires o.Permutation()
    requires SameSpeech(ti, fr, o)
    requires Starts(back) && SameSpeech(ti, back, o)
    ensures back == fr <==> Starts(fr)
  {
    if Starts(fr) {
      forall k: nat | k < 8 * FR_BYTES ensures BitMsb(back, k) == BitMsb(fr, k) {
        if k >= 4 {
          var i := o.from[k - 4];
          assert o.to[i] + 4 == k;
          assert BitMsb(back, o.to[i] + 4) == BitMsb(ti, TiSlot(i)) == BitMsb(fr, o.to[i] + 4);
        }
      }
      SameBitsSameBytes(back, fr);
    }
  }

  /** From the TI layout to the standard frame and back: the same block but for a cleared gap. */
  lemma TiFrTi(ti: Bytes, fr: Bytes, back: Bytes, o: Order)
    requires o.Permutation()
    requires SameSpeech(ti, fr, o)
    requires SameSpeech(back, fr, o) && GapIsClear(back)
    ensures forall k: nat :: k < 8 * FR_BYTES ==> BitMsb(back, k) == (k !in {182, 183, 184, 185} && BitMsb(ti, k))
    ensures back == ti <==> GapIsClear(ti)
  {
    forall k: nat | k < 8 * FR_BYTES ensures BitMsb(back, k) == (!InGap(k) && BitMsb(ti, k)) {
      if !InGap(k) {
        var i := if k < 182 then k else k - 4;
        assert TiSlot(i) == k;
        assert BitMsb(fr, o.to[i] + 4) == BitMsb(ti, TiSlot(i)) == BitMsb(back, TiSlot(i));
      }
    }
    if GapIsClear(ti) {
      SameBitsSameBytes(back, ti);
    }
  }
}

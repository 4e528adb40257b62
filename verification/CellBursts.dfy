/**
 Normal bursts of the synthetic cell: framing of a coded block into four bursts, the cache in
 front of the encoder, and the recovery of the coded block from the bursts.
 The channel encoder itself is a parameter: each L2 block has some 456 coded bits.
 */
module CellBursts {
  import opened Division
  import opened Interleaver

  datatype Option<T> = None | Some(value: T)

  /** The L2 blocks the cell broadcasts. */
  datatype L2 = Si1 | Si2 | Si3 | Si4 | Paging

  const NO_FRAME: nat := 0xffff_ffff

  const TRAINING: seq<string> := [
    "00100101110000100010010111", "00101101110111100010110111",
    "01000011101110100100001110", "01000111101101000100011110",
    "00011010111001000001101011", "01001110101100000100111010",
    "10100111110110001010011111", "11101111000100101110111100"]

  function Zeros(n: nat): seq<bool> { seq(n, _ => false) }

  function Training(tsc: nat): (t: seq<bool>)
    ensures |t| == 26
  {
    var s := TRAINING[tsc % 8];
    assert |TRAINING[0]| == |TRAINING[1]| == |TRAINING[2]| == |TRAINING[3]| == 26;
    assert |TRAINING[4]| == |TRAINING[5]| == |TRAINING[6]| == |TRAINING[7]| == 26;
    seq(26, i requires 0 <= i < 26 => s[i] == '1')
  }

  /** 3 tail bits, 57 data, hl, training sequence, hu, 57 data, 3 tail bits. */
  function BurstNb(e: seq<bool>, tsc: nat): (bits: seq<bool>)
    requires |e| == 116
    ensures |bits| == 148
  {
    Zeros(3) + e[..58] + Training(tsc) + e[58..] + Zeros(3)
  }

  /** The 114 data bits of a received burst: both halves, without the two stealing flags. */
  function BurstData(bits: seq<bool>): (data: seq<bool>)
    requires |bits| == 148
    ensures |data| == BURST
  {
    bits[3..60] + bits[88..145]
  }

  /** One burst of the encoder's output: its 114 interleaved bits around the flags hl and hu. */
  function Mapped(iB: Block, b: nat, steal: bool): (e: seq<bool>)
    requires b < 4
    ensures |e| == 116
  {
    iB[b * BURST..b * BURST + 57] + [steal, steal] + iB[b * BURST + 57..(b + 1) * BURST]
  }

  /** Framing loses nothing: the data halves of a burst are the interleaved bits that went in. */
  lemma FramingInverts(iB: Block, b: nat, steal: bool, tsc: nat)
    requires b < 4
    ensures BurstData(BurstNb(Mapped(iB, b, steal), tsc)) == iB[b * BURST..(b + 1) * BURST]
  {
    var e := Mapped(iB, b, steal);
    var bits := BurstNb(e, tsc);
    assert bits[3..60] == e[..57] == iB[b * BURST..b * BURST + 57];
    assert bits[88..145] == e[59..] == iB[b * BURST + 57..(b + 1) * BURST];
    assert iB[b * BURST..(b + 1) * BURST] == iB[b * BURST..b * BURST + 57] + iB[b * BURST + 57..(b + 1) * BURST];
  }

  /** Where everything is in a burst: tails, flags next to the training sequence, data outside. */
  lemma BurstLayout(e: seq<bool>, tsc: nat)
    requires |e| == 116
    ensures var bits := BurstNb(e, tsc);
            && bits[..3] == Zeros(3) == bits[145..]
            && bits[60] == e[57] && bits[87] == e[58]
            && bits[61..87] == Training(tsc) && bits[3..60] == e[..57] && bits[88..145] == e[59..]
  {
  }

  /** The bench's own table of training sequences (3GPP TS 45.002, table 5.2.3a). */
  const BANC_TSC: seq<string> := [
    "00100101110000100010010111", "00101101110111100010110111",
    "01000011101110100100001110", "01000111101101000100011110",
    "00011010111001000001101011", "01001110101100000100111010",
    "10100111110110001010011111", "11101111000100101110111100"]

  /** banc_burst_nb, which frames the bursts of the bench: written piece by piece into a buffer. */
  method BancBurstNb(e116: seq<bool>, tsc: nat) returns (bits: seq<bool>)
    requires |e116| == 116
    ensures bits == BurstNb(e116, tsc)
  {
    var out := new bool[148](_ => false);
    forall i | 0 <= i < 58 { out[3 + i] := e116[i]; }
    forall i | 0 <= i < 26 { out[61 + i] := BancBit(tsc % 8, i); }
    forall i | 0 <= i < 58 { out[87 + i] := e116[58 + i]; }
    bits := out[..];
    FramersAgree(tsc);
  }

  function BancBit(t: nat, i: nat): bool { t < |BANC_TSC| && i < |BANC_TSC[t]| && BANC_TSC[t][i] == '1' }

  /** Both tables hold the same sequences, and the one sent is that of the base-station colour code. */
  lemma FramersAgree(tsc: nat)
    ensures forall i :: 0 <= i < 26 ==> Training(tsc)[i] == BancBit(tsc % 8, i)
  {
    assert TRAINING == BANC_TSC;
  }

  predicate Cyclic(s: string)
  {
    && |s| == 26
    && s[0] == s[16] && s[1] == s[17] && s[2] == s[18] && s[3] == s[19] && s[4] == s[20]
    && s[5] == s[21] && s[6] == s[22] && s[7] == s[23] && s[8] == s[24] && s[9] == s[25]
  }

  lemma LowRowsAreCyclic()
    ensures Cyclic(TRAINING[0]) && Cyclic(TRAINING[1]) && Cyclic(TRAINING[2]) && Cyclic(TRAINING[3])
  {
  }

  lemma HighRowsAreCyclic()
    ensures Cyclic(TRAINING[4]) && Cyclic(TRAINING[5]) && Cyclic(TRAINING[6]) && Cyclic(TRAINING[7])
  {
  }

  /** The training sequences repeat after 16 bits, and no two are alike. */
  lemma TrainingIsCyclic(tsc: nat, i: nat)
    requires i < 10
    ensures Training(tsc)[i] == Training(tsc)[i + 16]
  {
    LowRowsAreCyclic();
    HighRowsAreCyclic();
    var t := tsc % 8;
    assert t == 0 || t == 1 || t == 2 || t == 3 || t == 4 || t == 5 || t == 6 || t == 7;
    assert Cyclic(TRAINING[t]);
    assert i == 0 || i == 1 || i == 2 || i == 3 || i == 4 || i == 5 || i == 6 || i == 7 || i == 8 || i == 9;
  }

  lemma TrainingsDiffer(a: nat, b: nat)
    ensures Training(a) == Training(b) <==> a % 8 == b % 8
  {
    if a % 8 != b % 8 { FirstBitsDiffer(a, b); }
  }

  lemma FirstBitsDiffer(a: nat, b: nat)
    requires a % 8 != b % 8
    ensures exists i :: 0 <= i < 8 && Training(a)[i] != Training(b)[i]
  {
    var s, t := Training(a), Training(b);
    assert s[0] != t[0] || s[1] != t[1] || s[2] != t[2] || s[3] != t[3] || s[4] != t[4] || s[5] != t[5];
  }

  /** Two cells send the same burst of a block exactly when their BSICs are congruent modulo 8. */
  lemma SameBurstIff(e: seq<bool>, bsic: nat, other: nat)
    requires |e| == 116
    ensures BurstNb(e, bsic) == BurstNb(e, other) <==> bsic % 8 == other % 8
  {
    BurstLayout(e, bsic);
    BurstLayout(e, other);
    TrainingsDiffer(bsic, other);
  }

  /** What cellule_l2 hands out: the SI of the multiframe, or a paging block for a negative index. */
  function L2For(tc: int): L2
  {
    if tc < 0 then Paging
    else if tc % 4 == 0 then Si1 else if tc % 4 == 1 then Si2 else if tc % 4 == 2 then Si3 else Si4
  }

  predicate BlockStart(fn0: nat) { fn0 % 51 in {2, 6, 12, 16} }

  /** BCCH on 51-multiframe position 2, CCCH on 6, 12 and 16. */
  function L2Of(fn0: nat): L2 { if fn0 % 51 == 2 then L2For((fn0 / 51) % 8) else L2For(-1) }

  /** Frames that lie in a broadcast block, and the frame their block starts on. */
  predicate InBlock(fn: nat) { 2 <= fn % 51 <= 9 || 12 <= fn % 51 <= 19 }

  function StartOf(fn: nat): int { fn - (fn % 51 % 10 - 2) % 4 }

  lemma StartPosition(p: nat)
    requires 2 <= p <= 49 && p % 10 >= 2
    ensures var s := p - (p % 10 - 2) % 4;
            2 <= s <= p && (s in {2, 6, 12, 16} <==> 2 <= p <= 9 || 12 <= p <= 19) && (p <= 9 ==> (s == 2 <==> p <= 5))
            && (p >= 12 ==> s != 2)
  {
  }

  /** The block a frame belongs to, and the L2 block it carries. */
  lemma StartIsBlockStart(fn: nat)
    requires 2 <= fn % 51 <= 49 && fn % 51 % 10 >= 2
    ensures 0 <= StartOf(fn) <= fn && (fn <= NO_FRAME ==> StartOf(fn) < NO_FRAME)
    ensures StartOf(fn) / 51 == fn / 51
    ensures BlockStart(StartOf(fn)) <==> InBlock(fn)
    ensures InBlock(fn) ==> L2Of(StartOf(fn)) == if fn % 51 <= 5 then L2For((fn / 51) % 8) else Paging
  {
    var p := fn % 51;
    var back := (p % 10 - 2) % 4;
    StartPosition(p);
    assert fn - back == p - back + 51 * (fn / 51);
    Divided(fn - back, 51, p - back, fn / 51);
    assert NO_FRAME == 51 * 84215045;
  }

  lemma NextSi(m: nat)
    ensures m % 8 % 4 == m % 4
    ensures (m + 1) % 8 % 4 == if m % 4 == 3 then 0 else m % 4 + 1
  {
    Divided(m, 4, m % 8 % 4, 2 * (m / 8) + m % 8 / 4);
    var n := m + 1;
    Divided(n, 4, n % 8 % 4, 2 * (n / 8) + n % 8 / 4);
    Divided(n, 4, if m % 4 == 3 then 0 else m % 4 + 1, m / 4 + if m % 4 == 3 then 1 else 0);
  }

  /** The four SI follow each other on the BCCH from one multiframe to the next, and Paging fills the CCCH. */
  lemma SiFollowEachOther(fn0: nat)
    requires BlockStart(fn0)
    ensures fn0 % 51 != 2 <==> L2Of(fn0) == Paging
    ensures fn0 % 51 == 2 ==>
              match L2Of(fn0)
              case Si1 => fn0 / 51 % 4 == 0 && L2Of(fn0 + 51) == Si2
              case Si2 => L2Of(fn0 + 51) == Si3
              case Si3 => L2Of(fn0 + 51) == Si4
              case Si4 => L2Of(fn0 + 51) == Si1
              case Paging => false
  {
    var m := fn0 / 51;
    Divided(fn0 + 51, 51, fn0 % 51, m + 1);
    NextSi(m);
  }

  /** The encoder's 4 x 116 bits, one element per burst. */
  type Encoded = e: seq<seq<bool>> | |e| == 4 && forall b :: 0 <= b < 4 ==> |e[b]| == 116
    witness seq(4, _ => Zeros(116))

  function Encode(iB: Block, steal: bool): Encoded { seq(4, b requires 0 <= b < 4 => Mapped(iB, b, steal)) }

  class Cell {
    const coded: L2 -> Block
    const steal: bool
    var fnCache: nat
    var bursts: Encoded

    ghost predicate Valid()
      reads this
    {
      if fnCache == NO_FRAME then bursts == seq(4, _ => Zeros(116))
      else BlockStart(fnCache) && bursts == Encode(Interleaved(coded(L2Of(fnCache))), steal)
    }

    constructor (coded: L2 -> Block, steal: bool)
      ensures Valid() && fnCache == NO_FRAME && this.coded == coded && this.steal == steal
    {
      this.coded := coded;
      this.steal := steal;
      fnCache := NO_FRAME;
      bursts := seq(4, _ => Zeros(116));
    }

    /** The burst as it is without any cache: nothing where no block starts. */
    function Recomputed(fn0: nat, bid: nat, bsic: nat): Option<seq<bool>>
      requires bid < 4
    {
      if BlockStart(fn0) then Some(BurstNb(Encode(Interleaved(coded(L2Of(fn0))), steal)[bid], bsic)) else None
    }

    /**
     The cached burst is the recomputed one, except when the cache is still empty and the frame
     asked for is the very number that marks it empty: then a burst of zeros is handed out.
     */
    method CelluleNb(fn0: nat, bid: nat, bsic: nat) returns (r: Option<seq<bool>>)
      requires Valid() && fn0 <= NO_FRAME && bid < 4
      modifies this`fnCache, this`bursts
      ensures Valid()
      ensures r == Recomputed(fn0, bid, bsic) <==> !(fn0 == NO_FRAME && old(fnCache) == NO_FRAME)
      ensures r.Some? <==> BlockStart(fn0) || (fn0 == NO_FRAME && old(fnCache) == NO_FRAME)
      ensures fnCache == if BlockStart(fn0) then fn0 else old(fnCache)
    {
      if fn0 != fnCache {
        var p51 := fn0 % 51;
        var l2: L2;
        if p51 == 2 {
          l2 := L2For((fn0 / 51) % 8);
        } else if p51 == 6 || p51 == 12 || p51 == 16 {
          l2 := L2For(-1);
        } else {
          return None;
        }
        bursts := Encode(Interleaved(coded(l2)), steal);
        fnCache := fn0;
      }
      r := Some(BurstNb(bursts[bid], bsic));
    }

    /** The data bits of the four bursts of a block. */
    method DataOfBlock(fn0: nat, bsic: nat) returns (data: seq<seq<bool>>)
      requires Valid() && fn0 < NO_FRAME
      modifies this`fnCache, this`bursts
      ensures Valid()
      ensures if BlockStart(fn0) then AreBursts(data, Interleaved(coded(L2Of(fn0))), 4) else data == []
    {
      data := [];
      ghost var iB := Interleaved(coded(L2Of(fn0)));
      for b := 0 to 4
        invariant Valid() && AreBursts(data, iB, b) && (b > 0 ==> BlockStart(fn0))
      {
        var bits := CelluleNb(fn0, b, bsic);
        if bits.None? { return []; }
        FramingInverts(iB, b, steal, bsic);
        data := data + [BurstData(bits.value)];
      }
    }

    /**
     From the frame of any burst of a broadcast block, the coded block and the L2 block it codes;
     the two answers agree, whatever was cached before.
     */
    method CelluleBlocAttendu(fn: nat, bsic: nat) returns (r: Option<(seq<bool>, L2)>)
      requires Valid() && fn <= NO_FRAME
      modifies this`fnCache, this`bursts
      ensures Valid()
      ensures r.Some? <==> InBlock(fn)
      ensures r.Some? ==> r.value.1 == (if fn % 51 <= 5 then L2For((fn / 51) % 8) else Paging)
      ensures r.Some? ==> r.value.0 == coded(r.value.1)
    {
      var p51 := fn % 51;
      if p51 < 2 || p51 > 49 || p51 % 10 < 2 {
        assert !InBlock(fn);
        return None;
      }
      var fn0 := fn - (p51 % 10 - 2) % 4;
      StartIsBlockStart(fn);
      var data := DataOfBlock(fn0, bsic);
      if data == [] { return None; }
      var code := CollectBlock(data, Interleaved(coded(L2Of(fn0))));
      DeinterleaveInverts(coded(L2Of(fn0)));
      var tc := (fn0 / 51) % 8;
      r := Some((code, if p51 <= 5 then L2For(tc) else L2For(-1)));
    }
  }

  predicate AreBursts(data: seq<seq<bool>>, iB: Block, n: nat)
    requires n <= 4
  {
    |data| == n && forall b: nat :: b < n ==> data[b] == iB[b * BURST..(b + 1) * BURST]
  }

  /** Position by position, the loop over the four bursts is the deinterleaver. */
  method CollectBlock(data: seq<seq<bool>>, ghost iB: Block) returns (c: seq<bool>)
    requires AreBursts(data, iB, 4)
    ensures c == Deinterleaved(iB)
  {
    var code := new bool[N](_ => false);
    for k := 0 to N
      invariant forall i: nat :: i < k ==> IndexOf(i) < N && code[i] == iB[IndexOf(i)]
    {
      IndexRoundTrip(k);
      var b, j := k % 4, 2 * ((49 * k) % 57) + (k % 8) / 4;
      assert data[b][j] == iB[b * BURST + j];
      code[k] := data[b][j];
    }
    c := code[..];
  }
}

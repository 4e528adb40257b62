/**
 The four-burst block interleaver of the xCCH channels (3GPP TS 45.003, section 4.1.4).
 Everything is derived from the arithmetic of the map (57 and 8 are coprime), not by listing it.
 */
module Interleaver {
  import opened Hamming
  import opened Division
  import ConvolutionalCode

  const N := 456
  const BURST := 114

  type Block = b: seq<bool> | |b| == N witness seq(N, _ => false)

  datatype Row = Row(k: nat, burst: nat, pos: nat, index: nat)

  function BurstOf(k: nat): nat { k % 4 }

  function PosOf(k: nat): nat { 2 * ((49 * k) % 57) + (k % 8) / 4 }

  function IndexOf(k: nat): nat { BurstOf(k) * BURST + PosOf(k) }

  /** The position of a block with residue a modulo 8 and, after the factor 49, b modulo 57. */
  function Rejoined(a: nat, b: nat): nat { (57 * a + 400 * (7 * b)) % 456 }

  /** The coded bit found at an interleaved index: k is known modulo 8 and modulo 57. */
  function SourceOf(index: nat): nat
  {
    var burst, pos := index / 114, index % 114;
    Rejoined(burst + 4 * (pos % 2), pos / 2)
  }

  lemma Chinese(a: nat, b: nat)
    requires a < 8 && b < 57
    ensures Rejoined(a, b) < N && Rejoined(a, b) % 8 == a && (49 * Rejoined(a, b)) % 57 == b
  {
    var s := 57 * a + 400 * (7 * b);
    var k, q := s % 456, s / 456;
    assert k == s - 456 * q;
    Divided(k, 8, a, 7 * a + 350 * b - 57 * q);
    Divided(49 * k, 57, b, 49 * a + 2407 * b - 392 * q);
  }

  /** And no other position of the block has those residues. */
  lemma ChineseUnique(k: nat)
    requires k < N
    ensures Rejoined(k % 8, (49 * k) % 57) == k
  {
    var a, b := k % 8, (49 * k) % 57;
    var p, q := k / 8, (49 * k) / 57;
    assert k == a + 8 * p;
    assert 49 * k == b + 57 * q;
    Divided(57 * a + 400 * (7 * b), 456, k, 301 * k - 350 * q - p);
  }

  /** An index taken apart: burst, half pair and pair number. */
  lemma Digits(burst: nat, half: nat, pair: nat)
    requires burst < 4 && half < 2 && pair < 57
    ensures var index := burst * 114 + (2 * pair + half);
            index < 456 && index / 114 == burst && index % 114 % 2 == half && index % 114 / 2 == pair
  {
    Divided(burst * 114 + (2 * pair + half), 114, 2 * pair + half, burst);
    Divided(2 * pair + half, 2, half, pair);
  }

  /** Where the first eight bits of a block go (3GPP TS 45.003, table 1): bursts in turn, the first half of each pair first. */
  lemma FirstEightBits(k: nat)
    requires k < 8
    ensures BurstOf(k) == [0, 1, 2, 3, 0, 1, 2, 3][k] && PosOf(k) == [0, 98, 82, 66, 51, 35, 19, 3][k]
  {
    hide PosOf;
    match k
    case 0 => PosIs(0, 0, 0);
    case 1 => PosIs(1, 49, 0);
    case 2 => PosIs(2, 41, 1);
    case 3 => PosIs(3, 33, 2);
    case 4 => PosIs(4, 25, 3);
    case 5 => PosIs(5, 17, 4);
    case 6 => PosIs(6, 9, 5);
    case 7 => PosIs(7, 1, 6);
  }

  lemma PosIs(k: nat, pair: nat, q: nat)
    requires k < 8 && pair < 57 && 49 * k == pair + 57 * q
    ensures PosOf(k) == 2 * pair + if k < 4 then 0 else 1
  {
    Divided(49 * k, 57, pair, q);
  }

  /** And every eighth bit after that: to the same burst, 100 positions on or 14 back. */
  lemma EveryEighthBit(k: nat)
    ensures BurstOf(k + 8) == BurstOf(k) && PosOf(k) < 114
    ensures PosOf(k + 8) == if PosOf(k) < 14 then PosOf(k) + 100 else PosOf(k) - 14
  {
    PairsMove(k);
    assert (k + 8) % 8 == k % 8 && (k + 8) % 4 == k % 4 && k % 8 / 4 < 2;
  }

  lemma PairsMove(k: nat)
    ensures (49 * k) % 57 < 57
    ensures (49 * (k + 8)) % 57 == if (49 * k) % 57 < 7 then (49 * k) % 57 + 50 else (49 * k) % 57 - 7
  {
    var r, q := (49 * k) % 57, (49 * k) / 57;
    assert 49 * (k + 8) == 49 * k + 392 && 49 * k == r + 57 * q;
    if r < 7 { Divided(49 * (k + 8), 57, r + 50, q + 6); } else { Divided(49 * (k + 8), 57, r - 7, q + 7); }
  }

  lemma Octal(a: nat)
    requires a < 8
    ensures a % 4 + 4 * (a / 4) == a && a % 4 < 4 && a / 4 < 2
  {
  }

  lemma Quarter(k: nat)
    ensures k % 8 < 8 && k % 8 % 4 == k % 4
  {
    Divided(k, 4, k % 8 % 4, 2 * (k / 8) + k % 8 / 4);
  }

  /** Interleaved index and coded position determine each other. */
  lemma IndexRoundTrip(k: nat)
    requires k < N
    ensures IndexOf(k) < N && SourceOf(IndexOf(k)) == k
  {
    Quarter(k);
    Octal(k % 8);
    Digits(k % 4, (k % 8) / 4, (49 * k) % 57);
    ChineseUnique(k);
  }

  lemma SourceRoundTrip(index: nat)
    requires index < N
    ensures SourceOf(index) < N && IndexOf(SourceOf(index)) == index
  {
    var burst, half, pair := index / 114, index % 114 % 2, index % 114 / 2;
    var a := burst + 4 * half;
    Divided(a, 4, burst, half);
    Chinese(a, pair);
    Quarter(SourceOf(index));
    Halves(index);
  }

  lemma Halves(index: nat)
    requires index < 456
    ensures index / 114 < 4 && index % 114 % 2 < 2 && index % 114 / 2 < 57
    ensures index / 114 * 114 + (2 * (index % 114 / 2) + index % 114 % 2) == index
  {
  }

  /**
   Spacing on the air: two bits of one burst, at positions i and j, come from coded bits
   64 apart per pair of positions, and half a block apart within a pair (modulo the block).
   */
  lemma AirSpacing(burst: nat, i: nat, j: nat)
    requires burst < 4 && i < j < BURST
    ensures (SourceOf(burst * BURST + j) - SourceOf(burst * BURST + i)) % N ==
            (64 * (j / 2 - i / 2) + 228 * (j % 2 - i % 2)) % N
  {
    At(burst, i);
    At(burst, j);
    var s := 57 * (burst + 4 * (i % 2)) + 400 * (7 * (i / 2));
    var t := 57 * (burst + 4 * (j % 2)) + 400 * (7 * (j / 2));
    ModuloDifference(s, t, 64 * (j / 2 - i / 2) + 228 * (j % 2 - i % 2), 6 * (j / 2 - i / 2));
  }

  lemma At(burst: nat, i: nat)
    requires burst < 4 && i < 114
    ensures SourceOf(burst * 114 + i) == Rejoined(burst + 4 * (i % 2), i / 2)
  {
    Divided(burst * 114 + i, 114, i, burst);
  }

  lemma ModuloDifference(s: nat, t: nat, gap: int, m: int)
    requires t - s == gap + 456 * m
    ensures (t % 456 - s % 456) % 456 == gap % 456
  {
    Divided(t % 456 - s % 456, 456, gap % 456, s / 456 - t / 456 + m + gap / 456);
  }

  function Interleaved(c: Block): Block { seq(N, i requires 0 <= i < N => SourceRoundTrip(i); c[SourceOf(i)]) }

  function Deinterleaved(iB: Block): Block { seq(N, k requires 0 <= k < N => IndexRoundTrip(k); iB[IndexOf(k)]) }

  predicate IsFwdMap(rows: seq<Row>, n: nat)
  {
    |rows| == n && forall k :: 0 <= k < n ==> rows[k] == Row(k, BurstOf(k), PosOf(k), IndexOf(k))
  }

  method FwdMap() returns (rows: seq<Row>)
    ensures IsFwdMap(rows, N)
  {
    rows := [];
    for k := 0 to N
      invariant IsFwdMap(rows, k)
    {
      var burst := k % 4;
      var j := 2 * ((49 * k) % 57) + (k % 8) / 4;
      rows := rows + [Row(k, burst, j, burst * 114 + j)];
    }
  }

  method Interleave(c: Block) returns (r: Block)
    ensures r == Interleaved(c)
  {
    var iB := new bool[N](_ => false);
    var rows := FwdMap();
    for n := 0 to N
      invariant forall i: nat :: i < N && SourceOf(i) < n ==> iB[i] == c[SourceOf(i)]
    {
      IndexRoundTrip(n);
      iB[rows[n].index] := c[rows[n].k];
      forall i: nat | i < N && SourceOf(i) <= n ensures iB[i] == c[SourceOf(i)] {
        SourceRoundTrip(i);
      }
    }
    forall i: nat | i < N ensures SourceOf(i) < N { SourceRoundTrip(i); }
    r := iB[..];
  }

  method Deinterleave(iB: Block) returns (r: Block)
    ensures r == Deinterleaved(iB)
  {
    var c := new bool[N](_ => false);
    var rows := FwdMap();
    for n := 0 to N
      invariant forall k: nat :: k < n ==> IndexOf(k) < N && c[k] == iB[IndexOf(k)]
    {
      IndexRoundTrip(n);
      c[rows[n].k] := iB[rows[n].index];
    }
    r := c[..];
  }

  lemma DeinterleaveInverts(c: Block)
    ensures Deinterleaved(Interleaved(c)) == c
  {
    forall k: nat | k < N ensures Deinterleaved(Interleaved(c))[k] == c[k] { IndexRoundTrip(k); }
  }

  lemma InterleaveInverts(iB: Block)
    ensures Interleaved(Deinterleaved(iB)) == iB
  {
    forall i: nat | i < N ensures Interleaved(Deinterleaved(iB))[i] == iB[i] { SourceRoundTrip(i); }
  }

  lemma InterleavingKeepsDistance(a: Block, b: Block)
    ensures Distance(Interleaved(a), Interleaved(b)) == Distance(a, b)
  {
    forall k: nat | k < N
      ensures IndexOf(k) < N && SourceOf(IndexOf(k)) == k
      ensures Interleaved(a)[IndexOf(k)] == a[k] && Interleaved(b)[IndexOf(k)] == b[k]
    {
      IndexRoundTrip(k);
    }
    forall i: nat | i < N ensures SourceOf(i) < N && IndexOf(SourceOf(i)) == i { SourceRoundTrip(i); }
    RearrangementKeepsDistance(a, b, Interleaved(a), Interleaved(b), IndexOf, SourceOf);
  }

  /**
   The error-correction bound on the air: whatever 456 bits the four bursts deliver, if at most 3
   differ from what was sent for u, every other information word was sent at least 4 bits away,
   and deinterleaving keeps both distances for the decoder.
   */
  lemma ThreeErrorsAreCorrectable(u: seq<bool>, v: seq<bool>, received: Block)
    requires |u| == |v| == 228 && u != v
    requires ConvolutionalCode.ZeroTail(u) && ConvolutionalCode.ZeroTail(v)
    requires Distance(Interleaved(ConvolutionalCode.Coded(u)), received) <= 3
    ensures Distance(Interleaved(ConvolutionalCode.Coded(v)), received) >= 4
    ensures Distance(ConvolutionalCode.Coded(u), Deinterleaved(received)) <= 3
    ensures Distance(ConvolutionalCode.Coded(v), Deinterleaved(received)) >= 4
  {
    InterleaveInverts(received);
    var r := Deinterleaved(received);
    InterleavingKeepsDistance(ConvolutionalCode.Coded(u), r);
    InterleavingKeepsDistance(ConvolutionalCode.Coded(v), r);
    ConvolutionalCode.UniqueNearestCodeword(u, v, r);
  }
}

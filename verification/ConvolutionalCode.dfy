/**
 The rate-1/2, constraint length 5 convolutional code of the xCCH channels
 (3GPP TS 45.003, section 4.1.3), at any input length.
 */
module ConvolutionalCode {
  import opened Hamming

  /** The input bit at position i, zero outside the block. */
  function U(u: seq<bool>, i: int): bool { 0 <= i < |u| && u[i] }

  function G0(u: seq<bool>, k: int): bool { (U(u, k) != U(u, k - 3)) != U(u, k - 4) }

  function G1(u: seq<bool>, k: int): bool { ((U(u, k) != U(u, k - 1)) != U(u, k - 3)) != U(u, k - 4) }

  function CodedBit(u: seq<bool>, i: int): bool { if i % 2 == 0 then G0(u, i / 2) else G1(u, i / 2) }

  function Coded(u: seq<bool>): seq<bool> { seq(2 * |u|, i => CodedBit(u, i)) }

  /** The encoder's loop: every coded pair is written once, at its own place. */
  method ConvEncode(u: seq<bool>) returns (c: seq<bool>)
    ensures c == Coded(u)
  {
    var out := new bool[2 * |u|](_ => false);
    for k := 0 to |u|
      invariant forall i :: 0 <= i < 2 * k ==> out[i] == CodedBit(u, i)
    {
      out[2 * k] := (U(u, k) != U(u, k - 3)) != U(u, k - 4);
      out[2 * k + 1] := ((U(u, k) != U(u, k - 1)) != U(u, k - 3)) != U(u, k - 4);
      assert CodedBit(u, 2 * k) == G0(u, k) && CodedBit(u, 2 * k + 1) == G1(u, k);
    }
    c := out[..];
  }

  // ----- the shift-register encoder, an independent definition of the same code -----

  /** The last four input bits, newest first. */
  datatype Register = Register(d1: bool, d2: bool, d3: bool, d4: bool)

  const CLEAR := Register(false, false, false, false)

  function Clock(r: Register, x: bool): Register { Register(x, r.d1, r.d2, r.d3) }

  /** What a shift register with taps D^3, D^4 and D, D^3, D^4 emits while it swallows u. */
  function ShiftEncode(u: seq<bool>, r: Register): seq<bool>
  {
    if u == [] then []
    else
      [(u[0] != r.d3) != r.d4, ((u[0] != r.d1) != r.d3) != r.d4] + ShiftEncode(u[1..], Clock(r, u[0]))
  }

  function RegisterAt(u: seq<bool>, k: int): Register
  {
    Register(U(u, k - 1), U(u, k - 2), U(u, k - 3), U(u, k - 4))
  }

  lemma {:induction false} SuffixIsShiftEncoded(u: seq<bool>, k: nat)
    requires k <= |u|
    ensures Coded(u)[2 * k..] == ShiftEncode(u[k..], RegisterAt(u, k))
    decreases |u| - k
  {
    if k < |u| {
      SuffixIsShiftEncoded(u, k + 1);
      CodedPair(u, k);
      assert u[k..][1..] == u[k + 1..] && u[k..][0] == U(u, k);
      TwoInFront(Coded(u), 2 * k);
      assert RegisterAt(u, k + 1) == Clock(RegisterAt(u, k), u[k]);
    }
  }

  lemma TwoInFront(s: seq<bool>, n: nat)
    requires n + 2 <= |s|
    ensures s[n..] == [s[n], s[n + 1]] + s[n + 2..]
  {
  }

  /** The indexed encoder and the shift register agree on every input. */
  lemma CodedIsShiftEncoded(u: seq<bool>)
    ensures Coded(u) == ShiftEncode(u, CLEAR)
  {
    SuffixIsShiftEncoded(u, 0);
    assert u[0..] == u && Coded(u)[2 * 0..] == Coded(u);
  }

  // ----- free distance -----

  /** Bitwise difference of two inputs, at any position. */
  function Diff(u: seq<bool>, v: seq<bool>, i: int): bool { U(u, i) != U(v, i) }

  function DiffRegister(u: seq<bool>, v: seq<bool>, k: int): Register
  {
    Register(Diff(u, v, k - 1), Diff(u, v, k - 2), Diff(u, v, k - 3), Diff(u, v, k - 4))
  }

  /** Number of ones the shift register emits when it is clocked. */
  function Emitted(r: Register, x: bool): nat { Bit((x != r.d3) != r.d4) + Bit(((x != r.d1) != r.d3) != r.d4) }

  /** A price on registers: the ones still to be emitted before the register can be clear again. */
  function Debt(r: Register): nat
  {
    match r
    case Register(false, false, false, false) => 0
    case Register(false, false, false, true) => 2
    case Register(false, false, true, true) => 2
    case Register(false, true, true, true) => 2
    case Register(true, true, true, _) => 3
    case Register(true, true, false, _) => 4
    case Register(false, false, true, false) => 4
    case Register(false, true, _, false) => 4
    case _ => 5
  }

  /** Debt is a potential: one clock pays, in emitted ones, at least what the debt drops by. */
  lemma DebtIsPaid(r: Register, x: bool)
    ensures Debt(r) <= Emitted(r, x) + Debt(Clock(r, x))
  {
  }

  /** The code is linear: the coded pairs of u and v differ by what their difference emits. */
  lemma PairDifference(u: seq<bool>, v: seq<bool>, k: int)
    ensures Bit(G0(u, k) != G0(v, k)) + Bit(G1(u, k) != G1(v, k)) == Emitted(DiffRegister(u, v, k), Diff(u, v, k))
    ensures DiffRegister(u, v, k + 1) == Clock(DiffRegister(u, v, k), Diff(u, v, k))
  {
  }

  lemma StepDistance(u: seq<bool>, v: seq<bool>, k: nat)
    requires |u| == |v| && k < |u|
    ensures DistanceUpTo(Coded(u), Coded(v), 2 * (k + 1)) ==
            DistanceUpTo(Coded(u), Coded(v), 2 * k) + Emitted(DiffRegister(u, v, k), Diff(u, v, k))
  {
    CodedPair(u, k);
    CodedPair(v, k);
    PairDifference(u, v, k);
    TwoMore(Coded(u), Coded(v), k, G0(u, k), G1(u, k), G0(v, k), G1(v, k));
  }

  lemma CodedPair(u: seq<bool>, k: nat)
    requires k < |u|
    ensures Coded(u)[2 * k] == G0(u, k) && Coded(u)[2 * k + 1] == G1(u, k)
  {
    assert (2 * k) % 2 == 0 && (2 * k) / 2 == k && (2 * k + 1) % 2 == 1 && (2 * k + 1) / 2 == k;
  }

  lemma TwoMore(a: seq<bool>, b: seq<bool>, k: nat, a0: bool, a1: bool, b0: bool, b1: bool)
    requires |a| == |b| && 2 * k + 2 <= |a|
    requires a[2 * k] == a0 && a[2 * k + 1] == a1 && b[2 * k] == b0 && b[2 * k + 1] == b1
    ensures DistanceUpTo(a, b, 2 * (k + 1)) == DistanceUpTo(a, b, 2 * k) + (Bit(a0 != b0) + Bit(a1 != b1))
  {
    assert DistanceUpTo(a, b, 2 * k + 1) == DistanceUpTo(a, b, 2 * k) + Bit(a0 != b0);
  }

  /** Once two inputs have parted, what they already emitted apart plus what they still owe is 7. */
  lemma {:induction false} DistancePlusDebt(u: seq<bool>, v: seq<bool>, p: nat, k: nat)
    requires |u| == |v| && p < k <= |u|
    requires u[p] != v[p] && forall i :: 0 <= i < p ==> u[i] == v[i]
    ensures DistanceUpTo(Coded(u), Coded(v), 2 * k) + Debt(DiffRegister(u, v, k)) >= 7
  {
    StepDistance(u, v, k - 1);
    PairDifference(u, v, k - 1);
    DebtIsPaid(DiffRegister(u, v, k - 1), Diff(u, v, k - 1));
    if k > p + 1 {
      DistancePlusDebt(u, v, p, k - 1);
    } else {
      assert DiffRegister(u, v, p) == CLEAR;
      assert DiffRegister(u, v, p + 1) == Register(true, false, false, false);
    }
  }

  lemma {:induction false} FirstDifference(u: seq<bool>, v: seq<bool>) returns (p: nat)
    requires |u| == |v| && u != v
    ensures p < |u| && u[p] != v[p] && forall i :: 0 <= i < p ==> u[i] == v[i]
  {
    if u[0] != v[0] {
      p := 0;
    } else {
      var q := FirstDifference(u[1..], v[1..]);
      p := q + 1;
      assert forall i :: 0 <= i < p ==> i == 0 || (u[i] == u[1..][i - 1] && v[i] == v[1..][i - 1]);
    }
  }

  /** With no tail at all: the distance falls short of 7 only by the debt of the last four bits. */
  lemma DistanceWithoutTail(u: seq<bool>, v: seq<bool>)
    requires |u| == |v| && u != v
    ensures Distance(Coded(u), Coded(v)) + Debt(DiffRegister(u, v, |u|)) >= 7
  {
    var p := FirstDifference(u, v);
    DistancePlusDebt(u, v, p, |u|);
  }

  predicate ZeroTail(u: seq<bool>) { |u| >= 4 && forall i :: |u| - 4 <= i < |u| ==> !u[i] }

  /** Free distance: two distinct inputs with the same zero tail code at least 7 bits apart. */
  lemma FreeDistance(u: seq<bool>, v: seq<bool>)
    requires |u| == |v| && u != v && ZeroTail(u) && ZeroTail(v)
    ensures Distance(Coded(u), Coded(v)) >= 7
  {
    DistanceWithoutTail(u, v);
    assert DiffRegister(u, v, |u|) == CLEAR;
  }

  /** The response to one input bit: 11 01 00 11 11, at its own place, whatever the rest of the input. */
  lemma OneBitMoves(u: seq<bool>, p: nat, i: nat)
    requires p < |u| && i < 2 * |u|
    ensures Coded(u)[i] != Coded(u[p := !u[p]])[i] <==> i - 2 * p in {0, 1, 3, 6, 7, 8, 9}
  {
    var v, k := u[p := !u[p]], i / 2;
    assert forall j :: U(v, j) == if j == p then !U(u, j) else U(u, j);
    assert i == 2 * k || i == 2 * k + 1;
  }

  /** Beyond the fourth bit after an isolated change, nothing differs any more. */
  lemma {:induction false} OneBitDistance(u: seq<bool>, p: nat, k: nat)
    requires p < |u| && k <= |u|
    ensures DistanceUpTo(Coded(u), Coded(u[p := !u[p]]), 2 * k) ==
            if k <= p then 0 else if k == p + 1 then 2 else if k <= p + 3 then 3 else if k == p + 4 then 5 else 7
  {
    hide Emitted, DistanceUpTo;
    var v := u[p := !u[p]];
    if k == 0 {
      NothingApart(Coded(u), Coded(v));
    } else {
      OneBitDistance(u, p, k - 1);
      StepDistance(u, v, k - 1);
      OneBitRegister(u, p, k - 1);
      OneBitEmits(p, k - 1);
    }
  }

  /** The register of an isolated change, k clocks on. */
  function OneBit(p: nat, k: nat): Register { Register(k == p + 1, k == p + 2, k == p + 3, k == p + 4) }

  lemma OneBitRegister(u: seq<bool>, p: nat, k: nat)
    requires p < |u| && k < |u|
    ensures DiffRegister(u, u[p := !u[p]], k) == OneBit(p, k) && Diff(u, u[p := !u[p]], k) == (k == p)
  {
  }

  lemma OneBitEmits(p: nat, k: nat)
    ensures Emitted(OneBit(p, k), k == p) == if k == p || k == p + 3 || k == p + 4 then 2 else if k == p + 1 then 1 else 0
  {
  }

  lemma NothingApart(a: seq<bool>, b: seq<bool>)
    requires |a| == |b|
    ensures DistanceUpTo(a, b, 0) == 0
  {
  }

  /** The bound 7 is met everywhere: flipping any one information bit moves exactly 7 coded bits. */
  lemma FreeDistanceAttained(u: seq<bool>, p: nat)
    requires ZeroTail(u) && p < |u| - 4
    ensures ZeroTail(u[p := !u[p]]) && Distance(Coded(u), Coded(u[p := !u[p]])) == 7
  {
    OneBitDistance(u, p, |u|);
  }

  /** The fourth tail bit is needed: with three, the last information bit is worth 5 coded bits only. */
  lemma FourthTailBitIsNeeded(u: seq<bool>)
    requires |u| >= 4
    ensures Distance(Coded(u), Coded(u[|u| - 4 := !u[|u| - 4]])) == 5
  {
    OneBitDistance(u, |u| - 4, |u|);
  }

  /** A word within 3 bit errors of a codeword is at least 4 away from every other codeword. */
  lemma UniqueNearestCodeword(u: seq<bool>, v: seq<bool>, r: seq<bool>)
    requires |u| == |v| && u != v && ZeroTail(u) && ZeroTail(v)
    requires |r| == 2 * |u| && Distance(Coded(u), r) <= 3
    ensures Distance(Coded(v), r) >= 4
  {
    FreeDistance(u, v);
    TriangleUpTo(Coded(u), r, Coded(v), |r|);
    TriangleUpTo(Coded(v), r, Coded(v), |r|);
  }
}

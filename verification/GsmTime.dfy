/**
 Frame numbers and the synchronisation word. The sources hold four versions of the frame-number
 formula, two encoders and three decoders of the SB word; here they are compared with each other.
 Words are 32-bit, as in the sources; the frame-number formulas keep their unsigned wrap-around.
 */
module GsmTime {
  import opened Division

  const HYPERFRAME: nat := 2715648
  const U32: nat := 0x1_0000_0000

  datatype Time = Time(t1: nat, t2: nat, t3: nat)

  function Split(fn: nat): Time { Time(fn / 1326, fn % 26, fn % 51) }

  /** pont.c gsmtime2fn: unsigned difference, reduced to the hyperframe. */
  function FnPont(t: Time): nat { (1326 * t.t1 + 51 * (((t.t3 + 26 - t.t2) % U32) % 26) + t.t3) % U32 % HYPERFRAME }

  /** dsp_tester.c gsmtime2fn: signed difference with a margin of three times 26. */
  function FnTester(t: Time): nat
    requires t.t2 <= t.t3 + 78
  {
    (51 * 26 * t.t1 + 51 * ((t.t3 - t.t2 + 26 * 3) % 26) + t.t3) % U32
  }

  /** The unreduced form of rejouer.c and of the SB inverse in pont.c. */
  function FnReplay(t: Time): nat { (51 * (((t.t3 - t.t2 + 26) % U32) % 26) + t.t3 + 26 * 51 * t.t1) % U32 }

  /** Within one superframe, T2 and T3 determine the position (26 and 51 are coprime). */
  lemma SuperframePosition(fn: nat)
    ensures var t := Split(fn); fn == 1326 * t.t1 + 51 * ((t.t3 - t.t2 + 26) % 26) + t.t3
  {
    var t := Split(fn);
    var a, b := fn / 26, fn / 51;
    var r := fn - 1326 * t.t1;
    assert fn == 26 * a + t.t2 && fn == 51 * b + t.t3 && 0 <= r < 1326;
    var q := b - 26 * t.t1;
    assert 51 * q + t.t3 == r;
    Divided(t.t3 - t.t2 + 26, 26, q, a - 51 * t.t1 - 2 * q + 1);
  }

  /** On times that fit the fields, no version wraps and all compute the same number. */
  lemma VersionsAgree(t: Time)
    requires t.t1 < 2048 && t.t2 < 26 && t.t3 < 51
    ensures FnPont(t) == FnTester(t) == FnReplay(t) == 1326 * t.t1 + 51 * ((t.t3 - t.t2 + 26) % 26) + t.t3 < HYPERFRAME
  {
    var d := t.t3 - t.t2 + 26;
    assert 0 < d < U32 && d % U32 == d;
    Divided(d + 52, 26, d % 26, d / 26 + 2);
    var fn := 1326 * t.t1 + 51 * (d % 26) + t.t3;
    assert fn <= 1326 * 2047 + 51 * 25 + 50;
    assert fn % U32 == fn && fn % HYPERFRAME == fn;
  }

  lemma SplitIsInverted(fn: nat)
    requires fn < HYPERFRAME
    ensures FnPont(Split(fn)) == FnTester(Split(fn)) == FnReplay(Split(fn)) == fn
  {
    SuperframePosition(fn);
    VersionsAgree(Split(fn));
  }

  // ----- the SB word -----

  function T3Prime(t3: nat): nat { if t3 == 0 then 0 else (t3 - 1) / 10 }

  /** The time fields as the encoders take them, in words just wide enough for them. */
  datatype Fields = Fields(t1: bv11, t2: bv5, t3p: bv3)

  predicate FieldsOf(f: Fields, fn: nat)
  {
    f.t1 as nat == fn / 1326 && f.t2 as nat == fn % 26 && f.t3p as nat == T3Prime(fn % 51)
  }

  /** pont_encode_sb. */
  function EncodeSb(bsic: bv32, t1: bv32, t2: bv32, t3p: bv32): bv32
  {
    ((bsic & 0x3f) << 2) | ((t1 & 0x001) << 23) | ((t1 & 0x1fe) << 7) | ((t1 & 0x600) >> 9)
    | ((t2 & 0x1f) << 18) | ((t3p & 1) << 24) | ((t3p & 6) << 15)
  }

  /** sb_info_de_fn and banc_sb_info: the four bytes the channel encoder takes. */
  function SbInfo(bsic: bv32, t1: bv32, t2: bv32, t3p: bv32): (bv8, bv8, bv8, bv8)
  {
    (((((bsic & 0x3f) << 2) | ((t1 & 0x600) >> 9)) & 0xff) as bv8,
     (((t1 & 0x1fe) >> 1) & 0xff) as bv8,
     ((((t1 & 0x001) << 7) | ((t2 & 0x1f) << 2) | ((t3p & 0x6) >> 1)) & 0xff) as bv8,
     (t3p & 0x1) as bv8)
  }

  /** The bytes as the 32-bit word the receiver reads from a_sch[3] and a_sch[4]. */
  function LittleEndian(b: (bv8, bv8, bv8, bv8)): bv32
  {
    (b.0 as bv32) | ((b.1 as bv32) << 8) | ((b.2 as bv32) << 16) | ((b.3 as bv32) << 24)
  }

  /** Byte encoders and word encoder agree, and the word has 25 bits. */
  lemma EncodersAgree(bsic: bv32, t1: bv32, t2: bv32, t3p: bv32)
    ensures LittleEndian(SbInfo(bsic, t1, t2, t3p)) == EncodeSb(bsic, t1, t2, t3p)
    ensures EncodeSb(bsic, t1, t2, t3p) >> 25 == 0
  {
  }

  /**
   Field by field in a row, as 3GPP TS 44.018, section 9.1.30 has them: three bytes and one bit are BSIC,
   T1, T2 and T3', each highest bit first.
   */
  lemma FieldsInARow(bsic: bv32, f: Fields)
    ensures var t1, t2, t3p := f.t1 as bv32, f.t2 as bv32, f.t3p as bv32;
            var b := SbInfo(bsic, t1, t2, t3p);
            ((b.0 as bv32) << 17) | ((b.1 as bv32) << 9) | ((b.2 as bv32) << 1) | (b.3 as bv32)
            == ((bsic & 0x3f) << 19) | (t1 << 8) | (t2 << 3) | t3p
  {
  }

  /** T1 as decode_sb and the replay extract it, then as the SB inverse of pont.c does. */
  function T1OfTester(sb: bv32): bv32 { ((sb >> 23) & 1) | ((sb >> 7) & 0x1fe) | ((sb << 9) & 0x600) }

  function T1OfPont(sb: bv32): bv32 { ((sb >> 23) & 1) | ((sb >> 7) & 0x1fe) | ((sb & 3) << 9) }

  function T2Of(sb: bv32): bv32 { (sb >> 18) & 0x1f }

  function T3pOfTester(sb: bv32): bv32 { ((sb >> 24) & 1) | ((sb >> 15) & 6) }

  function T3pOfPont(sb: bv32): bv32 { ((sb >> 24) & 1) | (((sb >> 16) & 3) << 1) }

  function BsicOf(sb: bv32): bv32 { (sb >> 2) & 0x3f }

  lemma DecodersAgree(sb: bv32)
    ensures T1OfTester(sb) == T1OfPont(sb) && T3pOfTester(sb) == T3pOfPont(sb)
  {
  }

  function SbWord(bsic: bv32, f: Fields): bv32 { EncodeSb(bsic, f.t1 as bv32, f.t2 as bv32, f.t3p as bv32) }

  /** The fields a decoder extracts, then the time it rebuilds: T3 is taken to be an SCH position. */
  function DecodedFields(sb: bv32): Fields
  {
    Fields((T1OfTester(sb) & 0x7ff) as bv11, (T2Of(sb) & 0x1f) as bv5, (T3pOfTester(sb) & 7) as bv3)
  }

  function DecodedTime(sb: bv32): Time
  {
    var f := DecodedFields(sb);
    Time(f.t1 as nat, f.t2 as nat, 10 * (f.t3p as nat) + 1)
  }

  /** Bit by bit: every decoder takes the encoder's fields apart again. */
  lemma FieldsComeBack(bsic: bv32, f: Fields)
    ensures DecodedFields(SbWord(bsic, f)) == f && BsicOf(SbWord(bsic, f)) == bsic & 0x3f
  {
  }

  /** Frames that carry an SCH burst. */
  predicate IsSch(fn: nat) { fn % 51 % 10 == 1 && fn % 51 <= 41 }

  /**
   Round trip: every decoder returns the BSIC of every word, and the frame number exactly
   when the frame carries an SCH burst.
   */
  lemma SbRoundTrip(fn: nat, f: Fields, bsic: bv32)
    requires fn < HYPERFRAME && FieldsOf(f, fn)
    ensures BsicOf(SbWord(bsic, f)) == bsic & 0x3f
    ensures var t := DecodedTime(SbWord(bsic, f));
            && t.t2 < 26
            && (FnPont(t) == fn <==> IsSch(fn))
            && (FnTester(t) == fn <==> IsSch(fn))
            && (FnReplay(t) == fn <==> IsSch(fn))
  {
    FieldsComeBack(bsic, f);
    SchTime(fn, DecodedTime(SbWord(bsic, f)));
  }

  /** Rebuilding T3 from T3' gives the frame back exactly on SCH positions. */
  lemma SchTime(fn: nat, t: Time)
    requires fn < HYPERFRAME && t == Time(fn / 1326, fn % 26, 10 * T3Prime(fn % 51) + 1)
    ensures t.t2 < 26
    ensures FnPont(t) == FnTester(t) == FnReplay(t)
    ensures FnPont(t) == fn <==> IsSch(fn)
  {
    assert t.t3 == fn % 51 <==> IsSch(fn);
    T3Survives(t);
    if IsSch(fn) {
      assert t == Split(fn);
      SplitIsInverted(fn);
    }
  }

  /** Whatever the decoded fields, every formula's result is at T3 in the 51-multiframe. */
  lemma T3Survives(t: Time)
    requires t.t1 < 2048 && t.t2 < 26 && t.t3 < 51
    ensures FnPont(t) == FnTester(t) == FnReplay(t) && FnPont(t) % 51 == t.t3
  {
    VersionsAgree(t);
    Divided(FnPont(t), 51, t.t3, 26 * t.t1 + (t.t3 - t.t2 + 26) % 26);
  }
}

/**
 The text of a compacted log: templates with numbered holes, counts, and wrapped lines of values.
 It can be read back whenever no line has a count mark and no line of a group an opening mark.
 */
module LogText {
  import opened LogCompaction

  const TIMES: char := '\U{00D7}'
  const OPEN: char := '\U{27E8}'
  const CLOSE: char := '\U{27E9}'

  ghost predicate Free(s: string, c: char) { forall k :: 0 <= k < |s| ==> s[k] != c }

  /** Without the two marks that matter in a template; a closing mark alone is harmless. */
  ghost predicate Plain(s: string) { Free(s, TIMES) && Free(s, OPEN) }

  // ----- numbers -----

  function Digit(d: nat): char
    requires d < 10
  {
    ('0' as int + d) as char
  }

  function Decimal(n: nat): string { if n < 10 then [Digit(n)] else Decimal(n / 10) + [Digit(n % 10)] }

  function Value(s: string): int { if s == [] then 0 else 10 * Value(s[..|s| - 1]) + (s[|s| - 1] as int - '0' as int) }

  lemma {:induction false} DecimalReadsBack(n: nat)
    ensures Value(Decimal(n)) == n && Plain(Decimal(n)) && Free(Decimal(n), CLOSE) && Decimal(n) != []
  {
    if n < 10 {
      assert [Digit(n)][..0] == [];
    } else {
      DecimalReadsBack(n / 10);
      var s := Decimal(n / 10);
      assert (s + [Digit(n % 10)])[..|s|] == s;
    }
  }

  // ----- cutting at a mark -----

  /** What comes before the first c, and after it; all and nothing when there is none. */
  function Cut(s: string, c: char): (r: (string, string))
    ensures |r.0| + |r.1| <= |s| && (s != [] ==> |r.1| < |s|)
  {
    if s == [] then ([], [])
    else if s[0] == c then ([], s[1..])
    else var r := Cut(s[1..], c); ([s[0]] + r.0, r.1)
  }

  lemma {:induction false} CutAt(a: string, c: char, b: string)
    requires Free(a, c)
    ensures Cut(a + [c] + b, c) == (a, b)
  {
    if a == [] {
      assert (a + [c] + b)[1..] == b;
    } else {
      CutAt(a[1..], c, b);
      assert (a + [c] + b)[1..] == a[1..] + [c] + b && (a + [c] + b)[0] == a[0];
      assert [a[0]] + a[1..] == a;
    }
  }

  predicate Has(s: string, c: char) { exists k :: 0 <= k < |s| && s[k] == c }

  // ----- templates -----

  function ItemText(x: Item): string
  {
    match x case Text(s) => s case Hole(k) => [OPEN] + Decimal(k) + [CLOSE]
  }

  function TemplateText(template: seq<Item>): string
  {
    if template == [] then [] else ItemText(template[0]) + TemplateText(template[1..])
  }

  /** A template read from its text and filled at once. */
  function FilledText(s: string, tuple: seq<string>): string
    decreases |s|
  {
    if s == [] then []
    else if s[0] == OPEN then
      var (num, rest) := Cut(s[1..], CLOSE);
      Nth(tuple, Value(num)) + FilledText(rest, tuple)
    else [s[0]] + FilledText(s[1..], tuple)
  }

  ghost predicate PlainTemplate(template: seq<Item>)
  {
    forall i :: 0 <= i < |template| && template[i].Text? ==> Plain(template[i].s)
  }

  predicate HasHole(template: seq<Item>) { exists i :: 0 <= i < |template| && template[i].Hole? }

  lemma {:induction false} PlainIsCopied(a: string, rest: string, tuple: seq<string>)
    requires Plain(a)
    ensures FilledText(a + rest, tuple) == a + FilledText(rest, tuple)
  {
    if a == [] {
      assert a + rest == rest;
    } else {
      assert (a + rest)[1..] == a[1..] + rest && (a + rest)[0] == a[0];
      PlainIsCopied(a[1..], rest, tuple);
    }
  }

  function Nth(tuple: seq<string>, k: int): string { if 0 < k <= |tuple| then tuple[k - 1] else [] }

  lemma HoleIsFilled(s: string, num: string, rest: string, tuple: seq<string>)
    requires s != [] && s[0] == OPEN && Cut(s[1..], CLOSE) == (num, rest)
    ensures FilledText(s, tuple) == Nth(tuple, Value(num)) + FilledText(rest, tuple)
  {
    hide Cut, Value;
  }

  lemma HoleReadsBack(k: nat, rest: string)
    ensures var s := [OPEN] + Decimal(k) + [CLOSE] + rest;
            s[0] == OPEN && Cut(s[1..], CLOSE) == (Decimal(k), rest) && Value(Decimal(k)) == k
  {
    hide Decimal, Value, Cut;
    DecimalReadsBack(k);
    CutAt(Decimal(k), CLOSE, rest);
    assert ([OPEN] + Decimal(k) + [CLOSE] + rest)[1..] == Decimal(k) + [CLOSE] + rest;
  }

  lemma {:induction false} TemplateReadsBack(template: seq<Item>, tuple: seq<string>)
    requires PlainTemplate(template)
    ensures FilledText(TemplateText(template), tuple) == Filled(template, tuple)
  {
    if template != [] {
      var x, rest := template[0], template[1..];
      TemplateReadsBack(rest, tuple);
      match x
      case Text(s) => PlainIsCopied(s, TemplateText(rest), tuple);
      case Hole(k) =>
        HoleReadsBack(k, TemplateText(rest));
        HoleIsFilled([OPEN] + Decimal(k) + [CLOSE] + TemplateText(rest), Decimal(k), TemplateText(rest), tuple);
    }
  }

  lemma HasAdd(a: string, b: string, c: char)
    ensures Has(a + b, c) <==> Has(a, c) || Has(b, c)
  {
    if Has(a, c) {
      var k :| 0 <= k < |a| && a[k] == c;
      assert (a + b)[k] == c;
    }
    if Has(b, c) {
      var k :| 0 <= k < |b| && b[k] == c;
      assert (a + b)[|a| + k] == c;
    }
  }

  lemma {:induction false} TemplateMarks(template: seq<Item>)
    requires PlainTemplate(template)
    ensures Has(TemplateText(template), OPEN) <==> HasHole(template)
    ensures Free(TemplateText(template), TIMES)
  {
    hide Decimal;
    if template != [] {
      var x, rest := template[0], template[1..];
      TemplateMarks(rest);
      ItemMarks(x);
      HasAdd(ItemText(x), TemplateText(rest), OPEN);
      ItemBefore(x, rest);
      assert template == [x] + rest;
    }
  }

  lemma ItemMarks(x: Item)
    requires x.Text? ==> Plain(x.s)
    ensures Has(ItemText(x), OPEN) <==> x.Hole?
    ensures Free(ItemText(x), TIMES)
  {
    if x.Hole? {
      DecimalReadsBack(x.k);
      assert ItemText(x)[0] == OPEN;
    }
  }

  // ----- tuples of values -----

  /** ",".join. */
  function Commas(tuple: seq<string>): string
  {
    if tuple == [] then [] else if |tuple| == 1 then tuple[0] else tuple[0] + [','] + Commas(tuple[1..])
  }

  function SplitCommas(s: string): seq<string>
    decreases |s|
  {
    if Has(s, ',') then var (a, b) := Cut(s, ','); [a] + SplitCommas(b) else [s]
  }

  ghost predicate PlainTuple(tuple: seq<string>)
  {
    tuple != [] && forall i :: 0 <= i < |tuple| ==> Free(tuple[i], ',') && Free(tuple[i], ')')
  }

  lemma {:induction false} CommasReadBack(tuple: seq<string>)
    requires PlainTuple(tuple)
    ensures SplitCommas(Commas(tuple)) == tuple && Free(Commas(tuple), ')')
  {
    if |tuple| > 1 {
      CommasReadBack(tuple[1..]);
      CutAt(tuple[0], ',', Commas(tuple[1..]));
      assert Commas(tuple)[|tuple[0]|] == ',';
    }
  }

  /** Tuples one after the other, each behind a space and in parentheses. */
  function Packs(tuples: seq<seq<string>>): string
  {
    if tuples == [] then [] else " (" + Commas(tuples[0]) + ")" + Packs(tuples[1..])
  }

  function ReadPacks(s: string): (r: seq<seq<string>>)
    decreases |s|
  {
    if |s| < 2 then []
    else
      var (t, rest) := Cut(s[2..], ')');
      [SplitCommas(t)] + ReadPacks(rest)
  }

  ghost predicate PlainTuples(tuples: seq<seq<string>>) { forall i :: 0 <= i < |tuples| ==> PlainTuple(tuples[i]) }

  lemma OnePackReadsBack(t: string, rest: string)
    requires Free(t, ')')
    ensures ReadPacks(" (" + t + ")" + rest) == [SplitCommas(t)] + ReadPacks(rest)
  {
    hide SplitCommas, Cut;
    CutAt(t, ')', rest);
    assert (" (" + t + ")" + rest)[2..] == t + [')'] + rest;
  }

  lemma {:induction false} PacksReadBack(tuples: seq<seq<string>>)
    requires PlainTuples(tuples)
    ensures ReadPacks(Packs(tuples)) == tuples
  {
    hide ReadPacks, SplitCommas, Commas, Cut;
    if tuples == [] {
      NoPacks();
    } else {
      PacksReadBack(tuples[1..]);
      CommasReadBack(tuples[0]);
      OnePackReadsBack(Commas(tuples[0]), Packs(tuples[1..]));
    }
  }

  lemma NoPacks()
    ensures ReadPacks([]) == []
  {
  }

  lemma {:induction false} PacksSnoc(tuples: seq<seq<string>>, t: seq<string>)
    ensures Packs(tuples + [t]) == Packs(tuples) + (" (" + Commas(t) + ")")
  {
    if tuples == [] {
      assert [t][1..] == [] && tuples + [t] == [t];
    } else {
      assert (tuples + [t])[1..] == tuples[1..] + [t];
      PacksSnoc(tuples[1..], t);
    }
  }

  // ----- lines of values -----

  const WIDTH: nat := 110
  const FIRST: string := "    \U{27E8}\U{27E9} ="
  const NEXT: string := "       "

  /** The values of a group from a line begun on, wrapped at the width. */
  function ValueLines(line: string, tuples: seq<seq<string>>): (r: seq<string>)
    ensures |r| > 0
    decreases |tuples|
  {
    if tuples == [] then [line]
    else
      var t := Commas(tuples[0]);
      if |line| + |t| + 3 > WIDTH then [line] + ValueLines(NEXT + (" (" + t + ")"), tuples[1..])
      else ValueLines(line + (" (" + t + ")"), tuples[1..])
  }

  /** The next tuple would not have fitted on the line, and the line fits unless one tuple alone is too long. */
  ghost predicate Wrapped(line: string, margin: string, done: seq<seq<string>>, next: seq<seq<string>>)
  {
    && line == margin + Packs(done)
    && (|line| <= WIDTH || |done| <= 1)
    && (next != [] ==> |line| + |Commas(next[0])| + 3 > WIDTH)
  }

  /** The lines hold the tuples in order, each line as many as fit. */
  ghost predicate WellWrapped(lines: seq<string>, margin: string, tuples: seq<seq<string>>)
    decreases |lines|
  {
    && lines != []
    && exists n: nat :: HoldsFirst(lines, margin, tuples, n)
                        && if |lines| == 1 then n == |tuples|
                           else (n > 0 || margin == FIRST) && WellWrapped(lines[1..], NEXT, tuples[n..])
  }

  ghost predicate HoldsFirst(lines: seq<string>, margin: string, tuples: seq<seq<string>>, n: nat)
  {
    lines != [] && n <= |tuples| && Wrapped(lines[0], margin, tuples[..n], tuples[n..])
  }

  /** The values of a group fill lines of 110 characters, one line after the other, and no line is begun too early. */
  lemma {:induction false} ValuesAreWrapped(margin: string, done: seq<seq<string>>, tuples: seq<seq<string>>)
    requires |margin + Packs(done)| <= WIDTH || |done| <= 1
    requires done != [] || margin == FIRST
    ensures WellWrapped(ValueLines(margin + Packs(done), tuples), margin, done + tuples)
    decreases |tuples|
  {
    hide Packs, Commas;
    var line, all := margin + Packs(done), done + tuples;
    var lines := ValueLines(line, tuples);
    if tuples == [] {
      assert all[..|done|] == done && all[|done|..] == [];
      assert HoldsFirst(lines, margin, all, |done|);
    } else {
      var first, t := [tuples[0]], " (" + Commas(tuples[0]) + ")";
      if |line| + |Commas(tuples[0])| + 3 > WIDTH {
        OnePack(tuples[0]);
        ValuesAreWrapped(NEXT, first, tuples[1..]);
        assert first + tuples[1..] == tuples && all[|done|..] == tuples && all[..|done|] == done;
        assert lines[1..] == ValueLines(NEXT + t, tuples[1..]);
        assert HoldsFirst(lines, margin, all, |done|);
      } else {
        PacksSnoc(done, tuples[0]);
        assert line + t == margin + Packs(done + first);
        ValuesAreWrapped(margin, done + first, tuples[1..]);
        assert done + first + tuples[1..] == all;
      }
    }
  }

  /** count tuples read from lines of which the first starts with skip characters of margin, and what follows. */
  function ReadValues(lines: seq<string>, skip: nat, count: int): (r: (seq<seq<string>>, seq<string>))
    ensures |r.1| <= |lines|
    decreases |lines|
  {
    if lines == [] || count <= 0 then ([], lines)
    else
      var ts := if skip <= |lines[0]| then ReadPacks(lines[0][skip..]) else [];
      var (more, rest) := ReadValues(lines[1..], |NEXT|, count - |ts|);
      (ts + more, rest)
  }

  lemma OneLineReadsBack(margin: string, done: seq<seq<string>>, lines: seq<string>, count: int)
    requires PlainTuples(done) && count > 0
    ensures var (more, rest) := ReadValues(lines, |NEXT|, count - |done|);
            ReadValues([margin + Packs(done)] + lines, |margin|, count) == (done + more, rest)
  {
    hide Packs, ReadPacks;
    PacksReadBack(done);
    assert (margin + Packs(done))[|margin|..] == Packs(done);
    assert ([margin + Packs(done)] + lines)[1..] == lines;
  }

  lemma NoMoreValues(lines: seq<string>, skip: nat)
    ensures ReadValues(lines, skip, 0) == ([], lines)
  {
  }

  lemma OnePack(t: seq<string>)
    ensures Packs([t]) == " (" + Commas(t) + ")"
  {
    PacksSnoc([], t);
    assert [] + [t] == [t] && Packs([]) + (" (" + Commas(t) + ")") == " (" + Commas(t) + ")";
  }

  /** The margin, the tuples already on the line, those still to come, and the lines after them. */
  lemma {:induction false} ValuesReadBack(margin: string, done: seq<seq<string>>, tuples: seq<seq<string>>, after: seq<string>)
    requires PlainTuples(done) && PlainTuples(tuples) && |done| + |tuples| > 0
    ensures ReadValues(ValueLines(margin + Packs(done), tuples) + after, |margin|, |done| + |tuples|) == (done + tuples, after)
    decreases |tuples|
  {
    hide ReadValues, Packs, Commas;
    var line := margin + Packs(done);
    if tuples == [] {
      OneLineReadsBack(margin, done, after, |done|);
      NoMoreValues(after, |NEXT|);
      assert done + [] == done;
    } else {
      var first, t := [tuples[0]], " (" + Commas(tuples[0]) + ")";
      if |line| + |Commas(tuples[0])| + 3 > WIDTH {
        OnePack(tuples[0]);
        ValuesReadBack(NEXT, first, tuples[1..], after);
        OneLineReadsBack(margin, done, ValueLines(NEXT + t, tuples[1..]) + after, |done| + |tuples|);
        assert [line] + ValueLines(NEXT + t, tuples[1..]) + after == [line] + (ValueLines(NEXT + t, tuples[1..]) + after);
        assert done + (first + tuples[1..]) == done + tuples;
      } else {
        PacksSnoc(done, tuples[0]);
        assert line + t == margin + Packs(done + first);
        ValuesReadBack(margin, done + first, tuples[1..], after);
        assert done + first + tuples[1..] == done + tuples;
      }
    }
  }

  // ----- a whole log -----

  const COUNT: string := "  "

  function HeaderText(template: seq<Item>, count: nat): string
  {
    TemplateText(template) + COUNT + [TIMES] + Decimal(count)
  }

  function OutputText(o: Output): seq<string>
  {
    match o
    case Line(text) => [text]
    case Group(template, count, tuples) =>
      [HeaderText(template, count)] + if tuples == [] then [] else ValueLines(FIRST, tuples)
  }

  /** What groups look like: holes iff there are tuples, as many as lines, and no marks but those of the holes. */
  ghost predicate PlainOutput(o: Output)
  {
    match o
    case Line(text) => Free(text, TIMES)
    case Group(template, count, tuples) =>
      PlainTemplate(template) && PlainTuples(tuples) && (HasHole(template) <==> tuples != []) && (tuples == [] || |tuples| == count)
  }

  ghost predicate AllPlain(out: seq<Output>) { forall i :: 0 <= i < |out| ==> PlainOutput(out[i]) }

  function Text(out: seq<Output>): seq<string>
  {
    if out == [] then [] else OutputText(out[0]) + Text(out[1..])
  }

  /** The lines a text stands for: a header is a line with a count, its values follow if it has holes. */
  function Restored(text: seq<string>): seq<string>
    decreases |text|
  {
    if text == [] then []
    else if !Has(text[0], TIMES) then [text[0]] + Restored(text[1..])
    else
      var (head, count) := Cut(text[0], TIMES);
      var template := if |head| >= 2 then head[..|head| - 2] else [];
      if Has(template, OPEN) then
        var (tuples, rest) := ReadValues(text[1..], |FIRST|, Value(count));
        FilledTexts(template, tuples) + Restored(rest)
      else Copies(FilledText(template, []), if Value(count) > 0 then Value(count) else 0) + Restored(text[1..])
  }

  function FilledTexts(template: string, tuples: seq<seq<string>>): (ls: seq<string>)
    ensures |ls| == |tuples| && forall i :: 0 <= i < |tuples| ==> ls[i] == FilledText(template, tuples[i])
  {
    seq(|tuples|, i requires 0 <= i < |tuples| => FilledText(template, tuples[i]))
  }

  lemma HeaderReadsBack(template: seq<Item>, count: nat)
    requires PlainTemplate(template)
    ensures var h := HeaderText(template, count);
            && Has(h, TIMES) && Cut(h, TIMES) == (TemplateText(template) + COUNT, Decimal(count))
            && Value(Decimal(count)) == count
            && (Has(TemplateText(template), OPEN) <==> HasHole(template))
  {
    hide Decimal, Value;
    TemplateMarks(template);
    DecimalReadsBack(count);
    CutAt(TemplateText(template) + COUNT, TIMES, Decimal(count));
    assert HeaderText(template, count)[|TemplateText(template) + COUNT|] == TIMES;
  }

  lemma GroupReadsBack(o: Output, after: seq<string>)
    requires PlainOutput(o) && o.Group?
    ensures Restored(OutputText(o) + after) == Rebuilt(o) + Restored(after)
  {
    hide Decimal, Value, Cut, TemplateText, ValueLines, Packs, FilledText;
    var h := HeaderText(o.template, o.count);
    var text := OutputText(o) + after;
    HeaderReadsBack(o.template, o.count);
    var template := TemplateText(o.template);
    assert (template + COUNT)[..|template + COUNT| - 2] == template;
    assert text[0] == h;
    if o.tuples == [] {
      assert text[1..] == after;
      TemplateReadsBack(o.template, []);
    } else {
      assert text[1..] == ValueLines(FIRST, o.tuples) + after;
      ValuesFollow(o.tuples, after);
      forall i | 0 <= i < |o.tuples| ensures FilledText(template, o.tuples[i]) == Filled(o.template, o.tuples[i]) {
        TemplateReadsBack(o.template, o.tuples[i]);
      }
      assert FilledTexts(template, o.tuples) == FilledAll(o.template, o.tuples);
    }
  }

  lemma ValuesFollow(tuples: seq<seq<string>>, after: seq<string>)
    requires PlainTuples(tuples) && tuples != []
    ensures ReadValues(ValueLines(FIRST, tuples) + after, |FIRST|, |tuples|) == (tuples, after)
  {
    assert FIRST + Packs([]) == FIRST && [] + tuples == tuples;
    ValuesReadBack(FIRST, [], tuples, after);
  }

  /** The text of such outputs expands to the lines they stand for. */
  lemma {:induction false} TextReadsBack(out: seq<Output>)
    requires AllPlain(out)
    ensures Restored(Text(out)) == Expand(out)
  {
    if out != [] {
      TextReadsBack(out[1..]);
      if out[0].Group? {
        GroupReadsBack(out[0], Text(out[1..]));
      } else {
        assert (OutputText(out[0]) + Text(out[1..]))[1..] == Text(out[1..]);
      }
    }
  }

  // ----- compacted logs have such outputs -----

  /** The digits are none of the characters the notation puts around numbers. */
  predicate Separate(digit: char -> bool) { !digit(NUL) && !digit(',') && !digit(')') }

  lemma {:induction false} PlainKey(l: string, digit: char -> bool)
    requires Plain(l)
    ensures Plain(Key(l, digit))
    ensures forall i :: 0 <= i < |Numbers(l, digit)| ==> Plain(Numbers(l, digit)[i])
    decreases |l|
  {
    if l != [] {
      PlainKey(l[if digit(l[0]) then 1 + DigitRun(l[1..], digit) else 1..], digit);
    }
  }

  lemma {:induction false} PlainPieces(key: string)
    requires Plain(key)
    ensures forall i :: 0 <= i < |Pieces(key)| ==> Plain(Pieces(key)[i])
  {
    if key != [] { PlainPieces(key[1..]); }
  }

  ghost predicate AnyFrom(varying: seq<bool>, k: nat) { exists i :: k <= i < |varying| && varying[i] }

  lemma {:induction false} TemplateIsPlain(pieces: seq<string>, numbers: seq<string>, varying: seq<bool>, k: nat, idx: nat)
    requires k <= |numbers| == |varying| == |pieces| - 1
    requires forall i :: 0 <= i < |pieces| ==> Plain(pieces[i])
    requires forall i :: 0 <= i < |numbers| ==> Plain(numbers[i])
    ensures PlainTemplate(Template(pieces, numbers, varying, k, idx))
    ensures HasHole(Template(pieces, numbers, varying, k, idx)) <==> AnyFrom(varying, k)
    decreases |numbers| - k
  {
    hide Plain, PlainTemplate, HasHole;
    if k < |numbers| {
      var rest := Template(pieces, numbers, varying, k + 1, if varying[k] then idx + 1 else idx);
      var x := if varying[k] then Hole(idx + 1) else Item.Text(numbers[k]);
      TemplateIsPlain(pieces, numbers, varying, k + 1, if varying[k] then idx + 1 else idx);
      ItemBefore(Item.Text(pieces[k + 1]), rest);
      ItemBefore(x, [Item.Text(pieces[k + 1])] + rest);
      assert [x, Item.Text(pieces[k + 1])] + rest == [x] + ([Item.Text(pieces[k + 1])] + rest);
      assert AnyFrom(varying, k) <==> varying[k] || AnyFrom(varying, k + 1);
    } else {
      NoItems();
    }
  }

  lemma NoItems()
    ensures PlainTemplate([]) && !HasHole([])
  {
  }

  lemma ItemBefore(x: Item, template: seq<Item>)
    ensures HasHole([x] + template) <==> x.Hole? || HasHole(template)
    ensures PlainTemplate([x] + template) <==> (x.Hole? || Plain(x.s)) && PlainTemplate(template)
  {
    hide Plain;
    var t := [x] + template;
    assert t[0] == x && t[1..] == template;
    if HasHole(template) {
      var i :| 0 <= i < |template| && template[i].Hole?;
      assert t[i + 1].Hole?;
    }
    if PlainTemplate(t) {
      forall i | 0 <= i < |template| && template[i].Text? ensures Plain(template[i].s) { assert t[i + 1] == template[i]; }
    }
  }

  lemma {:induction false} TupleIsPlain(numbers: seq<string>, varying: seq<bool>, k: nat)
    requires k <= |numbers| == |varying|
    requires forall i :: 0 <= i < |numbers| ==> Free(numbers[i], ',') && Free(numbers[i], ')')
    ensures Tuple(numbers, varying, k) != [] <==> AnyFrom(varying, k)
    ensures forall i :: 0 <= i < |Tuple(numbers, varying, k)| ==>
              Free(Tuple(numbers, varying, k)[i], ',') && Free(Tuple(numbers, varying, k)[i], ')')
    decreases |numbers| - k
  {
    if k < |numbers| {
      TupleIsPlain(numbers, varying, k + 1);
      assert AnyFrom(varying, k) <==> varying[k] || AnyFrom(varying, k + 1);
    }
  }

  lemma NumbersAreFree(l: string, digit: char -> bool)
    requires Clean(l) && Separate(digit)
    ensures forall i :: 0 <= i < |Numbers(l, digit)| ==> Free(Numbers(l, digit)[i], ',') && Free(Numbers(l, digit)[i], ')')
  {
    KeyIsDigitErased(l, digit);
    forall i | 0 <= i < |Numbers(l, digit)| ensures Free(Numbers(l, digit)[i], ',') && Free(Numbers(l, digit)[i], ')') {
      assert IsNumber(Numbers(l, digit)[i], digit);
    }
  }

  lemma GroupIsPlain(run: seq<string>, digit: char -> bool)
    requires run != [] && AllClean(run) && SameKey(run, digit) && Separate(digit)
    requires forall i :: 0 <= i < |run| ==> Plain(run[i])
    ensures PlainOutput(Packed(run, digit))
  {
    hide Key, Numbers, Pieces, Template, Tuple;
    RunIsATable(run, digit);
    var pieces, values := Pieces(Key(run[0], digit)), Values(run, digit);
    var varying := Varying(values, |pieces| - 1);
    var template := Template(pieces, values[0], varying, 0, 0);
    PlainKey(run[0], digit);
    PlainPieces(Key(run[0], digit));
    TemplateIsPlain(pieces, values[0], varying, 0, 0);
    assert Any(varying) <==> AnyFrom(varying, 0);
    ItemBefore(Item.Text(pieces[0]), template);
    if Any(varying) {
      forall i | 0 <= i < |run| ensures PlainTuple(Tuples(values, varying)[i]) {
        NumbersAreFree(run[i], digit);
        TupleIsPlain(values[i], varying, 0);
      }
    }
  }

  ghost predicate InLongRun(keys: seq<string>, a: nat, threshold: int)
  {
    exists x: nat, y: nat :: MaximalRun(keys, x, y) && x <= a < y && y - x >= threshold
  }

  /** No count mark in any line, no opening mark in a line that ends up in a group. */
  ghost predicate Readable(lines: seq<string>, threshold: int, digit: char -> bool)
  {
    forall k :: 0 <= k < |lines| ==>
      Free(lines[k], TIMES) && (InLongRun(Keys(lines, digit), k, threshold) ==> Free(lines[k], OPEN))
  }

  lemma TreatedIsPlain(lines: seq<string>, a: nat, b: nat, threshold: int, digit: char -> bool)
    requires a < b <= |lines| && AllClean(lines[a..b]) && SameKey(lines[a..b], digit) && Separate(digit)
    requires MaximalRun(Keys(lines, digit), a, b) && Readable(lines, threshold, digit)
    ensures AllPlain(Treated(lines[a..b], threshold, digit))
  {
    hide Key, Numbers, Packed;
    if b - a >= threshold {
      forall k | a <= k < b ensures Plain(lines[k]) {
        assert InLongRun(Keys(lines, digit), k, threshold);
      }
      GroupIsPlain(lines[a..b], digit);
    }
  }

  lemma {:induction false} CompactedIsPlain(lines: seq<string>, i: nat, threshold: int, digit: char -> bool)
    requires i <= |lines| && AllClean(lines) && Separate(digit) && Readable(lines, threshold, digit)
    requires 0 < i < |lines| ==> Keys(lines, digit)[i - 1] != Keys(lines, digit)[i]
    ensures AllPlain(Compacted(lines, i, threshold, digit))
    decreases |lines| - i
  {
    if i < |lines| {
      hide Key, Numbers, Packed, Readable;
      var e := RunEnd(Keys(lines, digit), i, i + 1);
      LogCompaction.Cut(lines, i, e, digit);
      CompactedIsPlain(lines, e, threshold, digit);
      TreatedIsPlain(lines, i, e, threshold, digit);
      BothPlain(Treated(lines[i..e], threshold, digit), Compacted(lines, e, threshold, digit));
    }
  }

  lemma BothPlain(a: seq<Output>, b: seq<Output>)
    requires AllPlain(a) && AllPlain(b)
    ensures AllPlain(a + b)
  {
  }

  /**
   The text a log is compacted to restores that log, at every threshold, if no line has a count mark
   and no grouped line an opening mark.
   */
  lemma CompactedTextIsLossless(lines: seq<string>, threshold: int, digit: char -> bool)
    requires AllClean(lines) && Separate(digit) && Readable(lines, threshold, digit)
    ensures AllPlain(Compacted(lines, 0, threshold, digit))
    ensures Restored(Text(Compacted(lines, 0, threshold, digit))) == lines
  {
    CompactedIsPlain(lines, 0, threshold, digit);
    TextReadsBack(Compacted(lines, 0, threshold, digit));
    CompactionIsLossless(lines, 0, threshold, digit);
    assert lines[0..] == lines;
  }

  /** A run of three, then a last line of another kind or none. */
  lemma RunOfThree(lines: seq<string>, digit: char -> bool)
    requires 3 <= |lines| <= 4 && AllClean(lines) && SameKey(lines[..3], digit)
    requires |lines| == 4 ==> Key(lines[3], digit) != Key(lines[0], digit)
    ensures AllClean(lines[..3])
    ensures Text(Compacted(lines, 0, 3, digit)) == OutputText(Packed(lines[..3], digit)) + lines[3..]
  {
    hide Key, Numbers, Packed, OutputText, Pieces;
    var keys, run := Keys(lines, digit), lines[..3];
    assert run[0] == lines[0] && run[1] == lines[1] && run[2] == lines[2];
    assert keys[1] == keys[0] && keys[2] == keys[0];
    assert RunEnd(keys, 0, 3) == 3 && RunEnd(keys, 0, 2) == 3 && RunEnd(keys, 0, 1) == 3;
    CompactedRun(lines, 0, 3, digit);
    assert lines[0..3] == run;
    if |lines| == 4 {
      CompactedRun(lines, 3, 3, digit);
      NothingToCompact(lines, 3, digit);
      assert lines[3..4] == lines[3..] == [lines[3]];
      TwoTexts(Packed(run, digit), lines[3]);
      assert Literal(lines[3..]) == [Line(lines[3])];
      assert Compacted(lines, 0, 3, digit) == [Packed(run, digit), Line(lines[3])];
    } else {
      NothingToCompact(lines, 3, digit);
      TextOfOne(Packed(run, digit));
      assert [Packed(run, digit)] + [] == [Packed(run, digit)];
    }
  }

  lemma TextOfOne(o: Output)
    ensures Text([o]) == OutputText(o)
  {
    assert [o][1..] == [];
  }

  lemma TwoTexts(o: Output, l: string)
    ensures Text([o, Line(l)]) == OutputText(o) + [l]
  {
    assert [o, Line(l)][1..] == [Line(l)];
    TextOfOne(Line(l));
  }

  /**
   The hypothesis is needed: with a count in the log itself, two logs have one text.
   */
  lemma MarksAreAmbiguous(digit: char -> bool)
    requires !digit('a')
    ensures var one, three := ["a" + COUNT + [TIMES] + "3"], ["a", "a", "a"];
            && AllClean(one) && AllClean(three)
            && Text(Compacted(one, 0, 3, digit)) == Text(Compacted(three, 0, 3, digit))
  {
    var one, three := ["a" + COUNT + [TIMES] + "3"], ["a", "a", "a"];
    assert Text(Compacted(one, 0, 3, digit)) == one by {
      hide Key, Numbers;
      assert RunEnd(Keys(one, digit), 0, 1) == 1 && one[0..1] == one;
      CompactedRun(one, 0, 3, digit);
      NothingToCompact(one, 3, digit);
      assert Literal(one) + [] == [Line(one[0])];
      TextOfOne(Line(one[0]));
    }
    RunOfThree(three, digit);
    assert three[..3] == three && three[3..] == [];
    assert OutputText(Packed(three, digit)) == one by {
      assert "a"[1..] == [] && Key("a", digit) == "a";
      PackedRepetition(three, digit);
      assert TemplateText([Item.Text("a")]) == "a" by { assert [Item.Text("a")][1..] == []; }
      assert Decimal(3) == "3";
    }
  }

  /** Lines with one number between two texts. */
  lemma {:induction false} NumberBetween(open: string, c: char, close: string, digit: char -> bool)
    requires |open| <= 1 && |close| <= 1 && Clean(open) && Clean(close) && digit(c) && c != NUL
    requires (open != [] ==> !digit(open[0])) && (close != [] ==> !digit(close[0]))
    ensures Pieces(Key(open + [c] + close, digit)) == [open, close] && Numbers(open + [c] + close, digit) == [[c]]
    ensures Key(open + [c] + close, digit) == open + [NUL] + close
    decreases |open|
  {
    hide Pieces, Key, Numbers, DigitRun;
    var l := open + [c] + close;
    if open != [] {
      NumberBetween([], c, close, digit);
      assert l[1..] == [] + [c] + close && l[0] == open[0];
      StartsWithLetter(l, digit);
      FirstOfKey(l, digit);
      assert open == [open[0]] && [open[0]] + [] == open;
    } else {
      EmptyLineIsWoven(digit);
      FirstOfKey(l, digit);
      NoDigits(close, digit);
      StartsWithNumber(l, digit);
      assert l[0] == c && l[1..] == close && l[..1] == [c];
      assert [[c]] + [] == [[c]];
    }
  }

  lemma NoDigits(close: string, digit: char -> bool)
    requires |close| <= 1 && Clean(close) && (close != [] ==> !digit(close[0]))
    ensures DigitRun(close, digit) == 0 && Key(close, digit) == close
    ensures Pieces(close) == [close] && Numbers(close, digit) == []
  {
    if close != [] {
      assert close[1..] == [];
      EmptyLineIsWoven(digit);
    }
  }

  lemma FirstOfKey(l: string, digit: char -> bool)
    requires l != []
    ensures Key(l, digit) == if digit(l[0]) then [NUL] + Key(l[1 + DigitRun(l[1..], digit)..], digit) else [l[0]] + Key(l[1..], digit)
  {
  }

  lemma PackedOfThree(run: seq<string>, open: string, close: string, n: seq<string>, digit: char -> bool)
    requires |run| == |n| == 3 && AllClean(run) && SameKey(run, digit) && Pieces(Key(run[0], digit)) == [open, close]
    requires forall i :: 0 <= i < 3 ==> Numbers(run[i], digit) == [n[i]]
    ensures n[0] == n[1] == n[2] ==> Packed(run, digit) == Group([Item.Text(open), Item.Text(n[0]), Item.Text(close)], 3, [])
    ensures n[0] != n[1] ==> Packed(run, digit) == Group([Item.Text(open), Hole(1), Item.Text(close)], 3, [[n[0]], [n[1]], [n[2]]])
  {
    hide Key, Numbers, Pieces, Template, Tuple;
    RunIsATable(run, digit);
    var values := Values(run, digit);
    var varying := Varying(values, 1);
    assert values == [[n[0]], [n[1]], [n[2]]];
    VariesWhenTwoDiffer(values, 1, 0);
    assert n[0] != n[1] ==> varying[0] by { assert values[0][0] != values[1][0] || n[0] == n[1]; }
    assert n[0] == n[1] == n[2] ==> !varying[0];
    OneNumber([open, close], values[0], varying, digit);
    OneValue([n[0]], varying);
    OneValue([n[1]], varying);
    OneValue([n[2]], varying);
  }

  lemma OneNumber(pieces: seq<string>, numbers: seq<string>, varying: seq<bool>, digit: char -> bool)
    requires |pieces| == 2 && |numbers| == |varying| == 1
    ensures Template(pieces, numbers, varying, 0, 0) == [if varying[0] then Hole(1) else Item.Text(numbers[0]), Item.Text(pieces[1])]
  {
    assert Template(pieces, numbers, varying, 1, 0) == [] == Template(pieces, numbers, varying, 1, 1);
  }

  lemma OneValue(numbers: seq<string>, varying: seq<bool>)
    requires |numbers| == |varying| == 1
    ensures Tuple(numbers, varying, 0) == if varying[0] then numbers else []
  {
    assert Tuple(numbers, varying, 1) == [];
    assert [numbers[0]] == numbers;
  }

  lemma HeaderOfThree(open: string, x: Item, close: string)
    ensures HeaderText([Item.Text(open), x, Item.Text(close)], 3) == open + ItemText(x) + close + COUNT + [TIMES] + "3"
  {
    var t := [Item.Text(open), x, Item.Text(close)];
    assert t[1..] == [x, Item.Text(close)] && t[1..][1..] == [Item.Text(close)] && t[1..][1..][1..] == [];
    assert TemplateText(t[1..][1..]) == close;
    assert TemplateText(t) == open + (ItemText(x) + close);
    assert open + (ItemText(x) + close) == open + ItemText(x) + close;
    assert Decimal(3) == "3";
  }

  lemma OneMoreValue(line: string, n: string, rest: seq<seq<string>>)
    requires |line| + |n| + 3 <= WIDTH
    ensures ValueLines(line, [[n]] + rest) == ValueLines(line + (" (" + n + ")"), rest)
  {
    assert ([[n]] + rest)[1..] == rest && Commas([n]) == n;
  }

  const VALUES: string := FIRST + " (1)" + " (2)" + " (3)"

  lemma ThreeValues()
    ensures ValueLines(FIRST, [["1"], ["2"], ["3"]]) == [VALUES]
  {
    assert " (" + "1" + ")" == " (1)" && " (" + "2" + ")" == " (2)" && " (" + "3" + ")" == " (3)";
    assert [["1"], ["2"], ["3"]] == [["1"]] + [["2"], ["3"]] && [["2"], ["3"]] == [["2"]] + [["3"]] && [["3"]] == [["3"]] + [];
    OneMoreValue(FIRST, "1", [["2"], ["3"]]);
    OneMoreValue(FIRST + " (1)", "2", [["3"]]);
    OneMoreValue(FIRST + " (1)" + " (2)", "3", []);
  }

  lemma BracketedLines(digit: char -> bool)
    requires digit('1') && !digit(OPEN) && !digit(CLOSE)
    ensures var x := [OPEN, '1', CLOSE];
            && SameKey([x, x, x], digit) && AllClean([x, x, x]) && Key(x, digit) == [OPEN, NUL, CLOSE]
            && OutputText(Packed([x, x, x], digit)) == [x + COUNT + [TIMES] + "3"]
  {
    var x := [OPEN, '1', CLOSE];
    NumberBetween([OPEN], '1', [CLOSE], digit);
    assert x == [OPEN] + ['1'] + [CLOSE] == [OPEN] + "1" + [CLOSE];
    hide Key, Numbers, Pieces, Packed, HeaderText;
    PackedOfThree([x, x, x], [OPEN], [CLOSE], ["1", "1", "1"], digit);
    HeaderOfThree([OPEN], Item.Text("1"), [CLOSE]);
  }

  lemma OneDigitLine(c: char, digit: char -> bool)
    requires digit(c) && c != NUL
    ensures Pieces(Key([c], digit)) == [[], []] && Numbers([c], digit) == [[c]] && Key([c], digit) == [NUL]
  {
    NumberBetween([], c, [], digit);
    assert [] + [c] + [] == [c];
  }

  lemma OneDigitLines(digit: char -> bool)
    requires digit('1') && digit('2') && digit('3')
    ensures var run := ["1", "2", "3"];
            && SameKey(run, digit) && AllClean(run)
            && OutputText(Packed(run, digit)) == [[OPEN, '1', CLOSE] + COUNT + [TIMES] + "3", VALUES]
  {
    var run := ["1", "2", "3"];
    OneDigitLine('1', digit);
    OneDigitLine('2', digit);
    OneDigitLine('3', digit);
    assert Decimal(1) == "1" && [] + [OPEN, '1', CLOSE] + [] == [OPEN, '1', CLOSE] == [OPEN] + "1" + [CLOSE];
    hide Key, Numbers, Pieces, Packed, HeaderText, ValueLines, Decimal;
    PackedOfThree(run, [], [], run, digit);
    HeaderOfThree([], Hole(1), []);
    ThreeValues();
  }

  lemma SpaceFirst(digit: char -> bool)
    requires !digit(' ')
    ensures Key(VALUES, digit) != [OPEN, NUL, CLOSE]
  {
    assert VALUES[0] == ' ';
    FirstOfKey(VALUES, digit);
    assert Key(VALUES, digit)[0] == ' ';
  }

  lemma NoCounts()
    ensures var x := [OPEN, '1', CLOSE];
            var four := [x, x, x, VALUES];
            && AllClean(four) && (forall k :: 0 <= k < 4 ==> Free(four[k], TIMES))
            && four[..3] == [x, x, x] && four[3..] == [VALUES]
  {
  }

  lemma TextOfOneDigits(digit: char -> bool)
    requires digit('1') && digit('2') && digit('3')
    ensures var one := ["1", "2", "3"];
            AllClean(one) && Text(Compacted(one, 0, 3, digit)) == [[OPEN, '1', CLOSE] + COUNT + [TIMES] + "3", VALUES]
  {
    OneDigitLines(digit);
    hide Key, Packed, Compacted, Text, OutputText, SameKey, AllClean;
    var one := ["1", "2", "3"];
    assert one[..3] == one && one[3..] == [];
    RunOfThree(one, digit);
  }

  lemma TextOfFour(digit: char -> bool)
    requires digit('1') && !digit(OPEN) && !digit(CLOSE) && !digit(' ')
    ensures var x := [OPEN, '1', CLOSE];
            var four := [x, x, x, VALUES];
            AllClean(four) && Text(Compacted(four, 0, 3, digit)) == [x + COUNT + [TIMES] + "3", VALUES]
  {
    BracketedLines(digit);
    SpaceFirst(digit);
    hide Key, Packed, Compacted, Text, OutputText, SameKey, AllClean, Free;
    NoCounts();
    var x := [OPEN, '1', CLOSE];
    RunOfThree([x, x, x, VALUES], digit);
  }

  /** And so it is of an opening mark in a group. */
  lemma OpeningMarksAreAmbiguous(digit: char -> bool)
    requires digit('1') && digit('2') && digit('3') && !digit(OPEN) && !digit(CLOSE) && !digit(' ')
    ensures var x := [OPEN, '1', CLOSE];
            var one, four := ["1", "2", "3"], [x, x, x, VALUES];
            && AllClean(one) && AllClean(four) && (forall k :: 0 <= k < 4 ==> Free(four[k], TIMES))
            && Text(Compacted(one, 0, 3, digit)) == Text(Compacted(four, 0, 3, digit))
  {
    hide Compacted, Text, AllClean, Free;
    NoCounts();
    TextOfOneDigits(digit);
    TextOfFour(digit);
  }

  // ----- the program -----

  /** The loop that wraps the values of a group. */
  method LignesDeValeurs(tuples: seq<seq<string>>) returns (lines: seq<string>)
    ensures lines == ValueLines(FIRST, tuples)
  {
    var courant := FIRST;
    lines := [];
    for i := 0 to |tuples|
      invariant lines + ValueLines(courant, tuples[i..]) == ValueLines(FIRST, tuples)
    {
      var t := Commas(tuples[i]);
      assert tuples[i..][0] == tuples[i] && tuples[i..][1..] == tuples[i + 1..];
      if |courant| + |t| + 3 > WIDTH {
        Assoc(lines, [courant], ValueLines(NEXT + (" (" + t + ")"), tuples[i + 1..]));
        lines := lines + [courant];
        courant := NEXT;
      }
      courant := courant + (" (" + t + ")");
    }
    assert tuples[|tuples|..] == [];
    lines := lines + [courant];
  }

  /** compacter, down to the text. */
  method CompacterTexte(lines: seq<string>, threshold: int, digit: char -> bool) returns (text: seq<string>, groups: nat)
    requires AllClean(lines)
    ensures text == Text(Compacted(lines, 0, threshold, digit)) && groups == Groups(Compacted(lines, 0, threshold, digit))
    ensures Separate(digit) && Readable(lines, threshold, digit) ==> Restored(text) == lines
  {
    var out;
    out, groups := Compacter(lines, threshold, digit);
    text := [];
    for i := 0 to |out|
      invariant text + Text(out[i..]) == Text(out)
    {
      var o := out[i];
      assert out[i..][0] == o && out[i..][1..] == out[i + 1..];
      var more;
      match o {
        case Line(l) => more := [l];
        case Group(template, count, tuples) =>
          more := [TemplateText(template) + COUNT + [TIMES] + Decimal(count)];
          if tuples != [] {
            var values := LignesDeValeurs(tuples);
            more := more + values;
          }
      }
      assert more == OutputText(o);
      Assoc(text, more, Text(out[i + 1..]));
      text := text + more;
    }
    assert out[|out|..] == [] && text + [] == text;
    if Separate(digit) && Readable(lines, threshold, digit) {
      CompactedTextIsLossless(lines, threshold, digit);
    }
  }
}

/**
 Lossless compaction of logs: a run of lines that differ only by their numbers becomes a template, a
 count and the numbers that vary. Lines are free of NUL, which the callers strip; what counts as a
 digit is a parameter.
 */
module LogCompaction {

  const NUL: char := '\0'

  datatype Item = Text(s: string) | Hole(k: nat)

  /** A line kept as it is, or a group: template, count, and one tuple of numbers per line. */
  datatype Output = Line(text: string) | Group(template: seq<Item>, count: nat, tuples: seq<seq<string>>)

  ghost predicate Clean(l: string) { forall k :: 0 <= k < |l| ==> l[k] != NUL }

  ghost predicate AllClean(lines: seq<string>) { forall k :: 0 <= k < |lines| ==> Clean(lines[k]) }

  // ----- numbers in a line -----

  function DigitRun(l: string, digit: char -> bool): (n: nat)
    ensures n <= |l|
  {
    if l == [] || !digit(l[0]) then 0 else 1 + DigitRun(l[1..], digit)
  }

  /** NUM.sub: every run of digits becomes one NUL. */
  function Key(l: string, digit: char -> bool): string
    decreases |l|
  {
    if l == [] then []
    else if digit(l[0]) then [NUL] + Key(l[1 + DigitRun(l[1..], digit)..], digit)
    else [l[0]] + Key(l[1..], digit)
  }

  /** NUM.findall. */
  function Numbers(l: string, digit: char -> bool): seq<string>
    decreases |l|
  {
    if l == [] then []
    else if digit(l[0]) then
      var n := 1 + DigitRun(l[1..], digit);
      [l[..n]] + Numbers(l[n..], digit)
    else Numbers(l[1..], digit)
  }

  lemma {:induction false} DigitRunIsMaximal(l: string, digit: char -> bool)
    ensures forall k :: 0 <= k < DigitRun(l, digit) ==> digit(l[k])
    ensures DigitRun(l, digit) < |l| ==> !digit(l[DigitRun(l, digit)])
  {
    if l != [] && digit(l[0]) {
      DigitRunIsMaximal(l[1..], digit);
      var n := DigitRun(l[1..], digit);
      assert forall k :: 0 < k <= n ==> l[k] == l[1..][k - 1];
      assert n + 1 < |l| ==> l[n + 1] == l[1..][n];
    }
  }

  ghost predicate IsNumber(s: string, digit: char -> bool) { s != [] && forall k :: 0 <= k < |s| ==> digit(s[k]) }

  /** No digit is left in a key, and no number of a line was cut in two. */
  ghost predicate DigitErased(key: string, digit: char -> bool)
  {
    && (forall k :: 0 <= k < |key| ==> !digit(key[k]))
    && (forall k :: 0 < k < |key| && key[k] == NUL ==> key[k - 1] != NUL)
  }

  /**
   Keys hold no digit, numbers nothing else, and two numbers always have text between them. With
   LineIsWoven this leaves one way to take a line apart.
   */
  lemma {:induction false} KeyIsDigitErased(l: string, digit: char -> bool)
    requires Clean(l) && !digit(NUL)
    ensures DigitErased(Key(l, digit), digit)
    ensures Key(l, digit) == [] <==> l == []
    ensures l != [] ==> Key(l, digit)[0] == if digit(l[0]) then NUL else l[0]
    ensures forall i :: 0 <= i < |Numbers(l, digit)| ==> IsNumber(Numbers(l, digit)[i], digit)
    decreases |l|
  {
    if l != [] {
      var n := if digit(l[0]) then 1 + DigitRun(l[1..], digit) else 1;
      var rest := Key(l[n..], digit);
      KeyIsDigitErased(l[n..], digit);
      DigitRunIsMaximal(l, digit);
      assert Key(l, digit) == [if digit(l[0]) then NUL else l[0]] + rest;
      assert n < |l| ==> l[n..][0] == l[n];
      if digit(l[0]) {
        assert Numbers(l, digit) == [l[..n]] + Numbers(l[n..], digit);
      }
    }
  }

  /** Splitting at the NULs. */
  function Pieces(key: string): (p: seq<string>)
    ensures |p| > 0
  {
    if key == [] then [[]]
    else
      var p := Pieces(key[1..]);
      if key[0] == NUL then [[]] + p else [[key[0]] + p[0]] + p[1..]
  }

  /** The pieces with the numbers put back between them. */
  function Woven(pieces: seq<string>, numbers: seq<string>, k: nat): string
    requires k <= |numbers| == |pieces| - 1
    decreases |numbers| - k
  {
    if k == |numbers| then pieces[k] else pieces[k] + numbers[k] + Woven(pieces, numbers, k + 1)
  }

  lemma {:induction false} WovenShift(pieces: seq<string>, numbers: seq<string>, p: string, n: string, k: nat)
    requires k <= |numbers| == |pieces| - 1
    ensures Woven([p] + pieces, [n] + numbers, k + 1) == Woven(pieces, numbers, k)
    decreases |numbers| - k
  {
    var ps, ns := [p] + pieces, [n] + numbers;
    assert ps[k + 1] == pieces[k];
    if k < |numbers| {
      assert ns[k + 1] == numbers[k];
      WovenShift(pieces, numbers, p, n, k + 1);
    }
  }

  lemma WovenBehind(pieces: seq<string>, numbers: seq<string>, p: string, n: string)
    requires |numbers| == |pieces| - 1
    ensures Woven([p] + pieces, [n] + numbers, 0) == p + n + Woven(pieces, numbers, 0)
  {
    WovenShift(pieces, numbers, p, n, 0);
  }

  lemma {:induction false} WovenFirst(pieces: seq<string>, numbers: seq<string>, c: char)
    requires |numbers| == |pieces| - 1
    ensures Woven([[c] + pieces[0]] + pieces[1..], numbers, 0) == [c] + Woven(pieces, numbers, 0)
  {
    if |numbers| > 0 {
      WovenTail(pieces, [[c] + pieces[0]] + pieces[1..], numbers, 1);
    }
  }

  lemma {:induction false} WovenTail(pieces: seq<string>, others: seq<string>, numbers: seq<string>, k: nat)
    requires 1 <= k <= |numbers| == |pieces| - 1 && |others| == |pieces| && others[1..] == pieces[1..]
    ensures Woven(pieces, numbers, k) == Woven(others, numbers, k)
    decreases |numbers| - k
  {
    assert pieces[k] == pieces[1..][k - 1] && others[k] == others[1..][k - 1];
    if k < |numbers| { WovenTail(pieces, others, numbers, k + 1); }
  }

  lemma FirstPiece(c: char, key: string)
    ensures Pieces([c] + key) == if c == NUL then [[]] + Pieces(key) else [[c] + Pieces(key)[0]] + Pieces(key)[1..]
  {
    assert ([c] + key)[1..] == key;
  }

  lemma StartsWithNumber(l: string, digit: char -> bool)
    requires l != [] && digit(l[0])
    ensures var n := 1 + DigitRun(l[1..], digit);
            && Pieces(Key(l, digit)) == [[]] + Pieces(Key(l[n..], digit))
            && Numbers(l, digit) == [l[..n]] + Numbers(l[n..], digit)
  {
    hide DigitRun, Pieces;
    FirstPiece(NUL, Key(l[1 + DigitRun(l[1..], digit)..], digit));
  }

  lemma StartsWithLetter(l: string, digit: char -> bool)
    requires Clean(l) && l != [] && !digit(l[0])
    ensures var p := Pieces(Key(l[1..], digit));
            && Pieces(Key(l, digit)) == [[l[0]] + p[0]] + p[1..]
            && Numbers(l, digit) == Numbers(l[1..], digit)
  {
    hide DigitRun, Pieces;
    FirstPiece(l[0], Key(l[1..], digit));
  }

  lemma EmptyLineIsWoven(digit: char -> bool)
    ensures Pieces(Key([], digit)) == [[]] && Numbers([], digit) == [] && Woven([[]], [], 0) == []
  {
  }

  /** A clean line is its key with its numbers put back. */
  lemma {:induction false} LineIsWoven(l: string, digit: char -> bool)
    requires Clean(l)
    ensures |Numbers(l, digit)| == |Pieces(Key(l, digit))| - 1
    ensures Woven(Pieces(Key(l, digit)), Numbers(l, digit), 0) == l
    decreases |l|
  {
    hide Woven, Pieces, Key, Numbers, DigitRun;
    if l == [] {
      EmptyLineIsWoven(digit);
    } else if digit(l[0]) {
      var n := 1 + DigitRun(l[1..], digit);
      StartsWithNumber(l, digit);
      LineIsWoven(l[n..], digit);
      WovenBehind(Pieces(Key(l[n..], digit)), Numbers(l[n..], digit), [], l[..n]);
      assert [] + l[..n] + l[n..] == l;
    } else {
      StartsWithLetter(l, digit);
      LineIsWoven(l[1..], digit);
      WovenFirst(Pieces(Key(l[1..], digit)), Numbers(l[1..], digit), l[0]);
      assert [l[0]] + l[1..] == l;
    }
  }

  // ----- expansion -----

  /** One line of a group. */
  function Filled(template: seq<Item>, tuple: seq<string>): string
  {
    if template == [] then []
    else
      var x := template[0];
      (match x case Text(s) => s case Hole(k) => if 0 < k <= |tuple| then tuple[k - 1] else [])
      + Filled(template[1..], tuple)
  }

  function Copies(l: string, n: nat): (ls: seq<string>)
    ensures |ls| == n && forall i :: 0 <= i < n ==> ls[i] == l
  {
    if n == 0 then [] else [l] + Copies(l, n - 1)
  }

  function FilledAll(template: seq<Item>, tuples: seq<seq<string>>): (ls: seq<string>)
    ensures |ls| == |tuples| && forall i :: 0 <= i < |tuples| ==> ls[i] == Filled(template, tuples[i])
  {
    if tuples == [] then [] else [Filled(template, tuples[0])] + FilledAll(template, tuples[1..])
  }

  /** Without tuples, the template is the line. */
  function Rebuilt(o: Output): seq<string>
  {
    match o
    case Line(text) => [text]
    case Group(template, count, tuples) =>
      if tuples == [] then Copies(Filled(template, []), count) else FilledAll(template, tuples)
  }

  function Expand(out: seq<Output>): seq<string>
  {
    if out == [] then [] else Rebuilt(out[0]) + Expand(out[1..])
  }

  lemma {:induction false} ExpandAdd(a: seq<Output>, b: seq<Output>)
    ensures Expand(a + b) == Expand(a) + Expand(b)
  {
    if a == [] {
      assert a + b == b;
    } else {
      assert (a + b)[1..] == a[1..] + b;
      ExpandAdd(a[1..], b);
    }
  }

  // ----- one group -----

  function Values(run: seq<string>, digit: char -> bool): (v: seq<seq<string>>)
    ensures |v| == |run| && forall i :: 0 <= i < |run| ==> v[i] == Numbers(run[i], digit)
  {
    seq(|run|, i requires 0 <= i < |run| => Numbers(run[i], digit))
  }

  /** The numbers of column k, and whether they vary. */
  function Column(values: seq<seq<string>>, k: nat): set<string>
    requires forall i :: 0 <= i < |values| ==> k < |values[i]|
  {
    set i | 0 <= i < |values| :: values[i][k]
  }

  predicate Table(values: seq<seq<string>>, nb: nat) { |values| > 0 && forall i :: 0 <= i < |values| ==> |values[i]| == nb }

  function Varying(values: seq<seq<string>>, nb: nat): (v: seq<bool>)
    requires Table(values, nb)
    ensures |v| == nb && forall k :: 0 <= k < nb ==> v[k] == (|Column(values, k)| > 1)
  {
    seq(nb, k requires 0 <= k < nb => |Column(values, k)| > 1)
  }

  /** A column varies when two lines differ in it. */
  lemma VariesWhenTwoDiffer(values: seq<seq<string>>, nb: nat, k: nat)
    requires Table(values, nb) && k < nb
    ensures |Column(values, k)| > 1 <==> exists i :: 0 <= i < |values| && values[i][k] != values[0][k]
  {
    var c := Column(values, k);
    assert values[0][k] in c;
    var rest := c - {values[0][k]};
    assert |c| == |rest| + 1;
    if rest != {} {
      var x :| x in rest;
      var i :| 0 <= i < |values| && values[i][k] == x;
    } else {
      forall i | 0 <= i < |values| ensures values[i][k] == values[0][k] {
        assert values[i][k] in c;
      }
    }
  }

  /** The template from piece k on, idx holes being numbered already. */
  function Template(pieces: seq<string>, numbers: seq<string>, varying: seq<bool>, k: nat, idx: nat): seq<Item>
    requires k <= |numbers| == |varying| == |pieces| - 1
    decreases |numbers| - k
  {
    if k == |numbers| then []
    else if varying[k] then [Hole(idx + 1), Text(pieces[k + 1])] + Template(pieces, numbers, varying, k + 1, idx + 1)
    else [Text(numbers[k]), Text(pieces[k + 1])] + Template(pieces, numbers, varying, k + 1, idx)
  }

  /** The varying numbers of a line. */
  function Tuple(numbers: seq<string>, varying: seq<bool>, k: nat): seq<string>
    requires k <= |numbers| == |varying|
    decreases |numbers| - k
  {
    if k == |numbers| then []
    else (if varying[k] then [numbers[k]] else []) + Tuple(numbers, varying, k + 1)
  }

  function Tuples(values: seq<seq<string>>, varying: seq<bool>): (t: seq<seq<string>>)
    requires forall i :: 0 <= i < |values| ==> |values[i]| == |varying|
    ensures |t| == |values| && forall i :: 0 <= i < |values| ==> t[i] == Tuple(values[i], varying, 0)
  {
    seq(|values|, i requires 0 <= i < |values| => Tuple(values[i], varying, 0))
  }

  predicate Any(varying: seq<bool>) { exists k :: 0 <= k < |varying| && varying[k] }

  lemma FilledCons(x: Item, rest: seq<Item>, tuple: seq<string>)
    ensures Filled([x] + rest, tuple) ==
            (match x case Text(s) => s case Hole(k) => if 0 < k <= |tuple| then tuple[k - 1] else []) + Filled(rest, tuple)
  {
    assert ([x] + rest)[1..] == rest;
  }

  lemma FilledTwo(x: Item, piece: string, rest: seq<Item>, tuple: seq<string>)
    ensures Filled([x, Text(piece)] + rest, tuple) == Filled([x], tuple) + (piece + Filled(rest, tuple))
  {
    assert [x, Text(piece)] + rest == [x] + ([Text(piece)] + rest);
    FilledCons(x, [Text(piece)] + rest, tuple);
    FilledCons(Text(piece), rest, tuple);
    FilledCons(x, [], tuple);
    assert [x] + [] == [x];
  }

  /** Filling the template with the varying numbers of a line puts all its numbers back. */
  lemma {:induction false} FillingWeaves(pieces: seq<string>, first: seq<string>, numbers: seq<string>, varying: seq<bool>,
                                         k: nat, tuple: seq<string>, idx: nat)
    requires k <= |numbers| == |first| == |varying| == |pieces| - 1
    requires idx <= |tuple| && tuple[idx..] == Tuple(numbers, varying, k)
    requires forall i :: k <= i < |varying| && !varying[i] ==> numbers[i] == first[i]
    ensures pieces[k] + Filled(Template(pieces, first, varying, k, idx), tuple) == Woven(pieces, numbers, k)
    decreases |numbers| - k
  {
    if k < |numbers| {
      var next := if varying[k] then idx + 1 else idx;
      assert varying[k] ==> tuple[idx..][0] == tuple[idx] == numbers[k] && tuple[idx + 1..] == tuple[idx..][1..];
      assert tuple[next..] == Tuple(numbers, varying, k + 1);
      FillingWeaves(pieces, first, numbers, varying, k + 1, tuple, next);
      FilledTwo(if varying[k] then Hole(idx + 1) else Text(first[k]), pieces[k + 1],
                Template(pieces, first, varying, k + 1, next), tuple);
      OneItem(if varying[k] then Hole(idx + 1) else Text(first[k]), tuple, numbers[k]);
      Concat(pieces[k], numbers[k], Woven(pieces, numbers, k + 1));
    } else {
      assert pieces[k] + [] == pieces[k];
    }
  }

  lemma Concat(a: string, b: string, c: string)
    ensures a + b + c == a + (b + c)
  {
  }

  lemma OneItem(x: Item, tuple: seq<string>, s: string)
    requires match x case Text(t) => t == s case Hole(k) => 0 < k <= |tuple| && tuple[k - 1] == s
    ensures Filled([x], tuple) == s
  {
    assert [x][1..] == [];
  }

  ghost predicate SameKey(run: seq<string>, digit: char -> bool)
  {
    forall i :: 0 <= i < |run| ==> Key(run[i], digit) == Key(run[0], digit)
  }

  lemma RunIsATable(run: seq<string>, digit: char -> bool)
    requires run != [] && AllClean(run) && SameKey(run, digit)
    ensures Table(Values(run, digit), |Pieces(Key(run[0], digit))| - 1)
  {
    forall i | 0 <= i < |run| ensures |Values(run, digit)[i]| == |Pieces(Key(run[0], digit))| - 1 {
      LineIsWoven(run[i], digit);
    }
  }

  /** What a run of lines with the same key becomes. */
  function Packed(run: seq<string>, digit: char -> bool): (o: Output)
    requires run != [] && AllClean(run) && SameKey(run, digit)
    ensures o.Group? && o.count == |run|
  {
    RunIsATable(run, digit);
    var pieces, values := Pieces(Key(run[0], digit)), Values(run, digit);
    var varying := Varying(values, |pieces| - 1);
    Group([Text(pieces[0])] + Template(pieces, values[0], varying, 0, 0), |run|,
          if Any(varying) then Tuples(values, varying) else [])
  }

  /** A group gives its lines back. */
  lemma PackedIsLossless(run: seq<string>, digit: char -> bool)
    requires run != [] && AllClean(run) && SameKey(run, digit)
    ensures Rebuilt(Packed(run, digit)) == run
  {
    RunIsATable(run, digit);
    var pieces, values := Pieces(Key(run[0], digit)), Values(run, digit);
    var varying := Varying(values, |pieces| - 1);
    var template := Template(pieces, values[0], varying, 0, 0);
    forall i | 0 <= i < |run|
      ensures Filled([Text(pieces[0])] + template, Tuple(values[i], varying, 0)) == run[i]
    {
      forall k | 0 <= k < |varying| && !varying[k] ensures values[i][k] == values[0][k] {
        VariesWhenTwoDiffer(values, |varying|, k);
      }
      var tuple := Tuple(values[i], varying, 0);
      assert tuple[0..] == tuple;
      FillingWeaves(pieces, values[0], values[i], varying, 0, tuple, 0);
      FilledCons(Text(pieces[0]), template, Tuple(values[i], varying, 0));
      LineIsWoven(run[i], digit);
    }
    if !Any(varying) {
      forall i | 0 <= i < |run| ensures Tuple(values[i], varying, 0) == [] {
        NothingVaries(values[i], varying, 0);
      }
    }
  }

  lemma {:induction false} NothingVaries(numbers: seq<string>, varying: seq<bool>, k: nat)
    requires k <= |numbers| == |varying| && !Any(varying)
    ensures Tuple(numbers, varying, k) == []
    decreases |numbers| - k
  {
    if k < |numbers| { NothingVaries(numbers, varying, k + 1); }
  }

  // ----- the whole log -----

  function Keys(lines: seq<string>, digit: char -> bool): (keys: seq<string>)
    ensures |keys| == |lines| && forall i :: 0 <= i < |lines| ==> keys[i] == Key(lines[i], digit)
  {
    seq(|lines|, i requires 0 <= i < |lines| => Key(lines[i], digit))
  }

  /** The first line from j on whose key is not that of line i. */
  function RunEnd(keys: seq<string>, i: nat, j: nat): (e: nat)
    requires i < j <= |keys|
    ensures j <= e <= |keys|
    ensures forall k :: j <= k < e ==> keys[k] == keys[i]
    ensures e < |keys| ==> keys[e] != keys[i]
    decreases |keys| - j
  {
    if j < |keys| && keys[j] == keys[i] then RunEnd(keys, i, j + 1) else j
  }

  function Literal(run: seq<string>): (out: seq<Output>)
    ensures |out| == |run| && forall k :: 0 <= k < |run| ==> out[k] == Line(run[k])
  {
    seq(|run|, k requires 0 <= k < |run| => Line(run[k]))
  }

  /** Runs shorter than the threshold are left alone. */
  function Treated(run: seq<string>, threshold: int, digit: char -> bool): seq<Output>
    requires run != [] && AllClean(run) && SameKey(run, digit)
  {
    if |run| < threshold then Literal(run) else [Packed(run, digit)]
  }

  lemma Cut(lines: seq<string>, i: nat, j: nat, digit: char -> bool)
    requires i < j <= |lines| && AllClean(lines)
    requires forall k :: i <= k < j ==> Keys(lines, digit)[k] == Keys(lines, digit)[i]
    ensures AllClean(lines[i..j]) && SameKey(lines[i..j], digit)
  {
    var run := lines[i..j];
    forall k | 0 <= k < |run| ensures Clean(run[k]) && Key(run[k], digit) == Key(run[0], digit) {
      assert run[k] == lines[i + k] && Keys(lines, digit)[i + k] == Key(run[k], digit);
    }
  }

  /** What the lines from i on become. */
  function Compacted(lines: seq<string>, i: nat, threshold: int, digit: char -> bool): seq<Output>
    requires i <= |lines| && AllClean(lines)
    decreases |lines| - i
  {
    if i == |lines| then []
    else
      var e := RunEnd(Keys(lines, digit), i, i + 1);
      Cut(lines, i, e, digit);
      Treated(lines[i..e], threshold, digit) + Compacted(lines, e, threshold, digit)
  }

  lemma NothingToCompact(lines: seq<string>, threshold: int, digit: char -> bool)
    requires AllClean(lines)
    ensures Compacted(lines, |lines|, threshold, digit) == []
  {
  }

  lemma CompactedRun(lines: seq<string>, i: nat, threshold: int, digit: char -> bool)
    requires i < |lines| && AllClean(lines)
    ensures var e := RunEnd(Keys(lines, digit), i, i + 1);
            && AllClean(lines[i..e]) && SameKey(lines[i..e], digit)
            && Compacted(lines, i, threshold, digit)
               == Treated(lines[i..e], threshold, digit) + Compacted(lines, e, threshold, digit)
  {
    Cut(lines, i, RunEnd(Keys(lines, digit), i, i + 1), digit);
  }

  lemma {:induction false} LiteralIsLossless(run: seq<string>)
    ensures Expand(Literal(run)) == run
  {
    if run != [] {
      assert Literal(run)[1..] == Literal(run[1..]);
      LiteralIsLossless(run[1..]);
    }
  }

  lemma TreatedIsLossless(run: seq<string>, threshold: int, digit: char -> bool)
    requires run != [] && AllClean(run) && SameKey(run, digit)
    ensures Expand(Treated(run, threshold, digit)) == run
  {
    if |run| < threshold {
      LiteralIsLossless(run);
    } else {
      PackedIsLossless(run, digit);
      assert [Packed(run, digit)][1..] == [];
    }
  }

  /** Every log of clean lines comes back, whatever the threshold. */
  lemma {:induction false} CompactionIsLossless(lines: seq<string>, i: nat, threshold: int, digit: char -> bool)
    requires i <= |lines| && AllClean(lines)
    ensures Expand(Compacted(lines, i, threshold, digit)) == lines[i..]
    decreases |lines| - i
  {
    if i < |lines| {
      var e := RunEnd(Keys(lines, digit), i, i + 1);
      Cut(lines, i, e, digit);
      TreatedIsLossless(lines[i..e], threshold, digit);
      CompactionIsLossless(lines, e, threshold, digit);
      ExpandedParts(lines, i, e, Treated(lines[i..e], threshold, digit), Compacted(lines, e, threshold, digit));
    }
  }

  lemma ExpandedParts(lines: seq<string>, i: nat, e: nat, run: seq<Output>, rest: seq<Output>)
    requires i <= e <= |lines| && Expand(run) == lines[i..e] && Expand(rest) == lines[e..]
    ensures Expand(run + rest) == lines[i..]
  {
    ExpandAdd(run, rest);
    assert lines[i..] == lines[i..e] + lines[e..];
  }

  /** How many lines an output stands for. */
  function Span(o: Output): nat { if o.Line? then 1 else o.count }

  function Spans(out: seq<Output>): nat { if out == [] then 0 else Spans(out[..|out| - 1]) + Span(out[|out| - 1]) }

  /** Lines a to b - 1 have one key, the lines around them have another. */
  ghost predicate MaximalRun(keys: seq<string>, a: nat, b: nat)
  {
    && a < b <= |keys|
    && (forall k :: a <= k < b ==> keys[k] == keys[a])
    && (a > 0 ==> keys[a - 1] != keys[a])
    && (b < |keys| ==> keys[b] != keys[a])
  }

  ghost predicate InShortRun(keys: seq<string>, a: nat, threshold: int)
  {
    exists x: nat, y: nat :: MaximalRun(keys, x, y) && x <= a < y && y - x < threshold
  }

  /** An output standing for the lines from a on is the right one. */
  ghost predicate Right(lines: seq<string>, keys: seq<string>, o: Output, a: nat, threshold: int)
  {
    if o.Group? then MaximalRun(keys, a, a + o.count) && o.count >= threshold
    else a < |lines| && o.text == lines[a] && InShortRun(keys, a, threshold)
  }

  /** right, of each output and of the number of lines before it. */
  ghost predicate Along(out: seq<Output>, right: (Output, nat) -> bool)
  {
    out == [] ||
    var before := out[..|out| - 1];
    Along(before, right) && right(out[|out| - 1], Spans(before))
  }

  lemma {:induction false} AlongEach(out: seq<Output>, right: (Output, nat) -> bool, k: nat)
    requires Along(out, right) && k < |out|
    ensures right(out[k], Spans(out[..k]))
  {
    if k < |out| - 1 {
      AlongEach(out[..|out| - 1], right, k);
      assert out[..|out| - 1][..k] == out[..k];
    }
  }

  lemma AlongOneMore(out: seq<Output>, right: (Output, nat) -> bool, o: Output)
    requires Along(out, right) && right(o, Spans(out))
    ensures Along(out + [o], right) && Spans(out + [o]) == Spans(out) + Span(o)
  {
    assert (out + [o])[..|out|] == out;
  }

  lemma NoOutput(right: (Output, nat) -> bool)
    ensures Along([], right) && Spans([]) == 0
  {
  }

  ghost predicate EachLine(more: seq<Output>, a: nat, right: (Output, nat) -> bool)
  {
    forall k: nat :: k < |more| ==> more[k].Line? && right(more[k], a + k)
  }

  lemma {:induction false} AlongLiterals(out: seq<Output>, right: (Output, nat) -> bool, more: seq<Output>, a: nat)
    requires Along(out, right) && Spans(out) == a && EachLine(more, a, right)
    ensures Along(out + more, right) && Spans(out + more) == a + |more|
  {
    if more == [] {
      assert out + more == out;
    } else {
      var m, o := more[..|more| - 1], more[|more| - 1];
      assert EachLine(m, a, right);
      AlongLiterals(out, right, m, a);
      assert right(more[|m|], a + |m|);
      assert more == m + [o];
      Assoc(out, m, [o]);
      AlongOneMore(out + m, right, o);
    }
  }

  ghost function Rule(lines: seq<string>, keys: seq<string>, threshold: int): (Output, nat) -> bool
  {
    (o: Output, a: nat) => Right(lines, keys, o, a, threshold)
  }

  lemma ShortRunIsKept(lines: seq<string>, keys: seq<string>, a: nat, b: nat, threshold: int)
    requires |keys| == |lines| && MaximalRun(keys, a, b) && b - a < threshold
    ensures EachLine(Literal(lines[a..b]), a, Rule(lines, keys, threshold))
  {
    forall k: nat | k < b - a ensures Rule(lines, keys, threshold)(Line(lines[a..b][k]), a + k) {
      assert InShortRun(keys, a + k, threshold);
    }
  }

  lemma LongRunIsGrouped(lines: seq<string>, keys: seq<string>, a: nat, b: nat, threshold: int, digit: char -> bool)
    requires |keys| == |lines| && MaximalRun(keys, a, b) && AllClean(lines[a..b]) && SameKey(lines[a..b], digit)
    requires b - a >= threshold
    ensures Rule(lines, keys, threshold)(Packed(lines[a..b], digit), a)
  {
  }

  /** One more run, treated: every output so far is right, and they cover the lines so far. */
  lemma TreatedIsRight(lines: seq<string>, keys: seq<string>, out: seq<Output>, a: nat, b: nat, threshold: int, digit: char -> bool)
    requires |keys| == |lines| && MaximalRun(keys, a, b) && AllClean(lines[a..b]) && SameKey(lines[a..b], digit)
    requires Along(out, Rule(lines, keys, threshold)) && Spans(out) == a
    ensures var all := out + Treated(lines[a..b], threshold, digit);
            Along(all, Rule(lines, keys, threshold)) && Spans(all) == b
  {
    if b - a < threshold {
      ShortRunIsKept(lines, keys, a, b, threshold);
      AlongLiterals(out, Rule(lines, keys, threshold), Literal(lines[a..b]), a);
    } else {
      LongRunIsGrouped(lines, keys, a, b, threshold, digit);
      AlongOneMore(out, Rule(lines, keys, threshold), Packed(lines[a..b], digit));
    }
  }

  lemma Assoc<T>(a: seq<T>, b: seq<T>, c: seq<T>)
    ensures a + b + c == a + (b + c)
  {
  }

  /**
   The outputs follow the lines in order; each group is a maximal run no shorter than the threshold
   and each line kept belongs to a maximal run that is shorter.
   */
  lemma {:induction false} GroupsAreMaximalRuns(lines: seq<string>, out: seq<Output>, i: nat, threshold: int, digit: char -> bool)
    requires i <= |lines| && AllClean(lines)
    requires 0 < i < |lines| ==> Keys(lines, digit)[i - 1] != Keys(lines, digit)[i]
    requires Along(out, Rule(lines, Keys(lines, digit), threshold)) && Spans(out) == i
    ensures var all := out + Compacted(lines, i, threshold, digit);
            Along(all, Rule(lines, Keys(lines, digit), threshold)) && Spans(all) == |lines|
    decreases |lines| - i
  {
    if i < |lines| {
      var keys := Keys(lines, digit);
      var e := RunEnd(keys, i, i + 1);
      Cut(lines, i, e, digit);
      var more := Treated(lines[i..e], threshold, digit);
      TreatedIsRight(lines, keys, out, i, e, threshold, digit);
      GroupsAreMaximalRuns(lines, out + more, e, threshold, digit);
      Assoc(out, more, Compacted(lines, e, threshold, digit));
    } else {
      assert out + [] == out;
    }
  }

  /** The same, output by output. */
  lemma EachOutputIsRight(lines: seq<string>, threshold: int, digit: char -> bool, k: nat)
    requires AllClean(lines) && k < |Compacted(lines, 0, threshold, digit)|
    ensures var out := Compacted(lines, 0, threshold, digit);
            Right(lines, Keys(lines, digit), out[k], Spans(out[..k]), threshold) && Spans(out) == |lines|
  {
    hide Compacted;
    GroupsAreMaximalRuns(lines, [], 0, threshold, digit);
    var out := Compacted(lines, 0, threshold, digit);
    assert [] + out == out;
    AlongEach(out, Rule(lines, Keys(lines, digit), threshold), k);
  }

  // ----- the program -----

  lemma {:induction false} NoNumber(key: string)
    requires NUL !in key
    ensures Pieces(key) == [key]
  {
    if key != [] {
      assert key[0] in key && forall c :: c in key[1..] ==> c in key;
      NoNumber(key[1..]);
      assert [key[0]] + key[1..] == key;
    }
  }

  /** A run repeated exactly: the template is the line. */
  lemma PackedRepetition(run: seq<string>, digit: char -> bool)
    requires run != [] && AllClean(run) && SameKey(run, digit) && NUL !in Key(run[0], digit)
    ensures Packed(run, digit) == Group([Text(run[0])], |run|, [])
  {
    RunIsATable(run, digit);
    NoNumber(Key(run[0], digit));
    LineIsWoven(run[0], digit);
  }

  /** The body of compacter for one run that is long enough. */
  method Grouper(run: seq<string>, digit: char -> bool) returns (o: Output)
    requires run != [] && AllClean(run) && SameKey(run, digit)
    ensures o == Packed(run, digit)
  {
    var key := Key(run[0], digit);
    if NUL !in key {
      PackedRepetition(run, digit);
      return Group([Text(run[0])], |run|, []);
    }
    RunIsATable(run, digit);
    var values := Values(run, digit);
    var varying := Varying(values, |values[0]|);
    var template, holes := Gabarit(Pieces(key), values[0], varying);
    o := Group(template, |run|, if holes > 0 then Tuples(values, varying) else []);
  }

  /** The loop over the pieces of the key: constant numbers put back, varying ones numbered. */
  method Gabarit(pieces: seq<string>, numbers: seq<string>, varying: seq<bool>) returns (template: seq<Item>, holes: nat)
    requires |numbers| == |varying| == |pieces| - 1
    ensures template == [Text(pieces[0])] + Template(pieces, numbers, varying, 0, 0)
    ensures holes > 0 <==> Any(varying)
  {
    var k := 0;
    template, holes := [Text(pieces[0])], 0;
    while k < |pieces| - 1
      invariant 0 <= k <= |pieces| - 1
      invariant template + Template(pieces, numbers, varying, k, holes)
             == [Text(pieces[0])] + Template(pieces, numbers, varying, 0, 0)
      invariant holes > 0 <==> exists i :: 0 <= i < k && varying[i]
    {
      ghost var rest := Template(pieces, numbers, varying, k, holes);
      var item;
      if varying[k] {
        holes := holes + 1;
        item := Hole(holes);
      } else {
        item := Text(numbers[k]);
      }
      ghost var next := Template(pieces, numbers, varying, k + 1, holes);
      assert rest == [item, Text(pieces[k + 1])] + next;
      Assoc(template, [item, Text(pieces[k + 1])], next);
      template := template + [item, Text(pieces[k + 1])];
      k := k + 1;
    }
    assert template + [] == template;
  }

  function Groups(out: seq<Output>): nat
  {
    if out == [] then 0 else Groups(out[..|out| - 1]) + if out[|out| - 1].Group? then 1 else 0
  }

  lemma {:induction false} GroupsAdd(out: seq<Output>, more: seq<Output>)
    requires forall k :: 0 <= k < |more| ==> more[k].Line?
    ensures Groups(out + more) == Groups(out)
  {
    if more == [] {
      assert out + more == out;
    } else {
      assert (out + more)[..|out + more| - 1] == out + more[..|more| - 1];
      GroupsAdd(out, more[..|more| - 1]);
    }
  }

  /** compacter: the output and the number of groups. */
  method Compacter(lines: seq<string>, threshold: int, digit: char -> bool) returns (out: seq<Output>, groups: nat)
    requires AllClean(lines)
    ensures out == Compacted(lines, 0, threshold, digit)
    ensures Expand(out) == lines
    ensures Along(out, Rule(lines, Keys(lines, digit), threshold)) && Spans(out) == |lines|
    ensures groups == Groups(out)
  {
    hide Compacted, Key, Numbers, Packed, RunEnd, Along, Expand;
    var i, n := 0, |lines|;
    out, groups := [], 0;
    assert [] + Compacted(lines, 0, threshold, digit) == Compacted(lines, 0, threshold, digit);
    while i < n
      invariant 0 <= i <= n
      invariant out + Compacted(lines, i, threshold, digit) == Compacted(lines, 0, threshold, digit)
      invariant groups == Groups(out)
    {
      var j := FinDeRun(lines, i, digit);
      CompactedRun(lines, i, threshold, digit);
      Assoc(out, Treated(lines[i..j], threshold, digit), Compacted(lines, j, threshold, digit));
      if j - i < threshold {
        GroupsAdd(out, Literal(lines[i..j]));
        out := out + Literal(lines[i..j]);
      } else {
        var o := Grouper(lines[i..j], digit);
        assert (out + [o])[..|out|] == out;
        out, groups := out + [o], groups + 1;
      }
      i := j;
    }
    NothingToCompact(lines, threshold, digit);
    assert out + [] == out && [] + out == out;
    assert lines[0..] == lines;
    CompactionIsLossless(lines, 0, threshold, digit);
    NoOutput(Rule(lines, Keys(lines, digit), threshold));
    GroupsAreMaximalRuns(lines, [], 0, threshold, digit);
  }

  /** The inner loop: the first line whose key is another. */
  method FinDeRun(lines: seq<string>, i: nat, digit: char -> bool) returns (j: nat)
    requires i < |lines|
    ensures i < j <= |lines| && j == RunEnd(Keys(lines, digit), i, i + 1)
  {
    var key := Key(lines[i], digit);
    ghost var keys := Keys(lines, digit);
    j := i + 1;
    while j < |lines| && Key(lines[j], digit) == key
      invariant i < j <= |lines|
      invariant RunEnd(keys, i, j) == RunEnd(keys, i, i + 1)
    {
      assert keys[j] == Key(lines[j], digit) && keys[i] == key;
      j := j + 1;
    }
    assert j < |lines| ==> keys[j] == Key(lines[j], digit) != keys[i];
  }

  // ----- oversized lines -----

  const CUT_MARK: char := '\U{21A9}'

  /** couper from character i on: every piece but the last carries the mark. */
  function CutFrom(l: string, i: nat, max: nat): (pieces: seq<string>)
    requires max > 0 && i < |l|
    decreases |l| - i
  {
    if i + max < |l| then [l[i..i + max] + [CUT_MARK]] + CutFrom(l, i + max, max) else [l[i..]]
  }

  function Couper(l: string, max: nat): (pieces: seq<string>)
    requires max > 0
  {
    if |l| <= max then [l] else CutFrom(l, 0, max)
  }

  function CouperTout(lines: seq<string>, max: nat): seq<string>
    requires max > 0
  {
    if lines == [] then [] else Couper(lines[0], max) + CouperTout(lines[1..], max)
  }

  /** A piece that goes on is one character too long; no other piece is. */
  function Joined(pieces: seq<string>, max: nat): seq<string>
  {
    if pieces == [] then []
    else
      var rest := Joined(pieces[1..], max);
      if |pieces[0]| == max + 1 && rest != [] then [pieces[0][..max] + rest[0]] + rest[1..] else [pieces[0]] + rest
  }

  lemma {:induction false} CutFromIsJoined(l: string, i: nat, max: nat, after: seq<string>)
    requires max > 0 && i < |l|
    ensures Joined(CutFrom(l, i, max) + after, max) == [l[i..]] + Joined(after, max)
    decreases |l| - i
  {
    var pieces := CutFrom(l, i, max);
    assert (pieces + after)[1..] == pieces[1..] + after;
    if i + max < |l| {
      CutFromIsJoined(l, i + max, max, after);
      assert pieces[1..] == CutFrom(l, i + max, max);
      assert pieces[0][..max] == l[i..i + max];
      assert l[i..] == l[i..i + max] + l[i + max..];
    } else {
      assert pieces[1..] + after == after;
    }
  }

  /**
   Cutting loses nothing either, and nothing is needed besides the pieces to undo it: a line that
   happens to end in the mark is not mistaken for a piece.
   */
  lemma {:induction false} CuttingIsLossless(lines: seq<string>, max: nat)
    requires max > 0
    ensures Joined(CouperTout(lines, max), max) == lines
  {
    if lines != [] {
      var l, after := lines[0], CouperTout(lines[1..], max);
      CuttingIsLossless(lines[1..], max);
      if |l| <= max {
        assert ([l] + after)[1..] == after;
      } else {
        CutFromIsJoined(l, 0, max, after);
        assert l[0..] == l;
      }
    }
  }

  /** Every piece but the last is full and marked; the last is not. */
  ghost predicate Marked(pieces: seq<string>, max: nat)
  {
    && |pieces| > 0 && |pieces[|pieces| - 1]| <= max
    && forall k :: 0 <= k < |pieces| - 1 ==> |pieces[k]| == max + 1 && pieces[k][max] == CUT_MARK
  }

  lemma {:induction false} PiecesAreMarked(l: string, i: nat, max: nat)
    requires max > 0 && i < |l|
    ensures Marked(CutFrom(l, i, max), max)
    ensures i == 0 ==> Marked(Couper(l, max), max)
    decreases |l| - i
  {
    if i + max < |l| {
      PiecesAreMarked(l, i + max, max);
      var pieces := CutFrom(l, i, max);
      assert pieces[1..] == CutFrom(l, i + max, max);
      assert forall k :: 0 < k < |pieces| ==> pieces[k] == pieces[1..][k - 1];
    }
  }
}

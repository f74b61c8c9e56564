/** The word wrap of the message box (editor/messagebox.py, `setup_gui`).

    The message is split at spaces and laid out greedily: words are added
    to the current line until the line, joined with spaces, is wider than
    the limit; then the line without its last word is emitted and the
    overflowing word starts the next one. Whatever remains is the last
    line. The label is as high as the number of lines times the font
    height.

    The font is a parameter: `width` stands for the font's text extent
    and is only assumed to give the empty string a width within the
    limit (no extent is negative and the limit, a fraction of the root
    window's width, is not either). Pixel sizes are integers here.

    A wrap is described by its cut positions: `bounds` starts at 0, ends
    at the number of words and never decreases; line k holds the words
    from `bounds[k]` up to `bounds[k + 1]`. */
module MessageBox {
  import opened Xml

  /** The words from `a` up to `b`, joined by spaces. */
  function Line(words: seq<string>, a: nat, b: nat): string
    requires a <= b <= |words|
  {
    JoinWith(words[a..b], ' ')
  }

  predicate Sorted(b: seq<nat>)
  {
    forall i, j | 0 <= i <= j < |b| :: b[i] <= b[j]
  }

  /** Cut positions into `n` words, the last one not necessarily `n`. */
  predicate Within(b: seq<nat>, n: nat)
  {
    |b| >= 1 && b[0] == 0 && Sorted(b) && b[|b| - 1] <= n
  }

  /** The cut positions of a whole wrap of `n` words. */
  predicate Cuts(bounds: seq<nat>, n: nat)
  {
    |bounds| >= 2 && Within(bounds, n) && bounds[|bounds| - 1] == n
  }

  /** The text of each line. */
  function Texts(words: seq<string>, bounds: seq<nat>): (ts: seq<string>)
    requires Within(bounds, |words|)
    ensures |ts| == |bounds| - 1
    ensures forall k {:trigger ts[k]} | 0 <= k < |ts| :: ts[k] == Line(words, bounds[k], bounds[k + 1])
  {
    seq(|bounds| - 1, k requires 0 <= k < |bounds| - 1 => Line(words, bounds[k], bounds[k + 1]))
  }

  /** Line k was ended because its next word would have overflowed it. */
  predicate EndedByOverflow(words: seq<string>, b: seq<nat>, k: nat, width: string -> int, maxWidth: int)
    requires Within(b, |words|) && k < |b| - 1
  {
    b[k + 1] < |words| && width(Line(words, b[k], b[k + 1] + 1)) > maxWidth
  }

  /** Line k fits the limit, unless it is a single word (or none). */
  predicate FitsUnlessSingle(words: seq<string>, b: seq<nat>, k: nat, width: string -> int, maxWidth: int)
    requires Within(b, |words|) && k < |b| - 1
  {
    b[k + 1] - b[k] >= 2 ==> width(Line(words, b[k], b[k + 1])) <= maxWidth
  }

  /** Every line the cuts describe was ended by an overflow. */
  predicate Greedy(words: seq<string>, b: seq<nat>, width: string -> int, maxWidth: int)
    requires Within(b, |words|)
  {
    forall k: nat | k < |b| - 1 :: EndedByOverflow(words, b, k, width, maxWidth)
  }

  /** Every line of several words fits. */
  predicate Fitting(words: seq<string>, b: seq<nat>, width: string -> int, maxWidth: int)
    requires Within(b, |words|)
  {
    forall k: nat | k < |b| - 1 :: FitsUnlessSingle(words, b, k, width, maxWidth)
  }

  /** The words of every line, one after the other. */
  function Concat(words: seq<string>, bounds: seq<nat>): seq<string>
    requires |bounds| >= 1 && Sorted(bounds) && bounds[|bounds| - 1] <= |words|
    decreases |bounds|
  {
    if |bounds| == 1 then []
    else Concat(words, bounds[..|bounds| - 1]) + words[bounds[|bounds| - 2]..bounds[|bounds| - 1]]
  }

  /** The lines partition the words in order: none is dropped, repeated
      or split, whatever its width. */
  lemma {:induction false} LinesPartitionWords(words: seq<string>, bounds: seq<nat>)
    requires |bounds| >= 1 && Sorted(bounds) && bounds[|bounds| - 1] <= |words|
    ensures Concat(words, bounds) == words[bounds[0]..bounds[|bounds| - 1]]
    decreases |bounds|
  {
    if |bounds| > 1 {
      var init := bounds[..|bounds| - 1];
      LinesPartitionWords(words, init);
      var a, b, c := bounds[0], bounds[|bounds| - 2], bounds[|bounds| - 1];
      assert words[a..b] + words[b..c] == words[a..c];
    }
  }

  /** Joining one more part appends a separator and the part. */
  lemma {:induction false} JoinAppend(parts: seq<string>, p: string, sep: char)
    ensures JoinWith(parts + [p], sep) == if |parts| == 0 then p else JoinWith(parts, sep) + [sep] + p
    decreases |parts|
  {
    if |parts| == 1 {
      assert parts + [p] == [parts[0], p];
      assert [parts[0], p][1..] == [p];
    } else if |parts| > 1 {
      JoinAppend(parts[1..], p, sep);
      assert (parts + [p])[1..] == parts[1..] + [p];
    }
  }

  /** One more cut adds one more line. */
  lemma AppendCut(words: seq<string>, b: seq<nat>, x: nat)
    requires Within(b, |words|) && b[|b| - 1] <= x <= |words|
    ensures Within(b + [x], |words|)
    ensures Texts(words, b + [x]) == Texts(words, b) + [Line(words, b[|b| - 1], x)]
    ensures JoinWith(Texts(words, b + [x]), '\n') ==
      Emit(JoinWith(Texts(words, b), '\n'), |b| - 1, Line(words, b[|b| - 1], x))
  {
    var b' := b + [x];
    forall i, j | 0 <= i <= j < |b'| ensures b'[i] <= b'[j] {
      if j == |b| && i < |b| {
        assert b[i] <= b[|b| - 1];
      }
    }
    var t0, t1 := Texts(words, b), Texts(words, b');
    forall k | 0 <= k < |t0| ensures t1[k] == t0[k] {
      assert b'[k] == b[k] && b'[k + 1] == b[k + 1];
    }
    assert t1[|t0|] == Line(words, b[|b| - 1], x);
    assert t1 == t0 + [Line(words, b[|b| - 1], x)];
    JoinAppend(Texts(words, b), Line(words, b[|b| - 1], x), '\n');
  }

  /** Cutting after a line whose next word overflows keeps the wrap greedy. */
  lemma AppendGreedy(words: seq<string>, b: seq<nat>, x: nat, width: string -> int, maxWidth: int)
    requires Within(b, |words|) && b[|b| - 1] <= x < |words|
    requires Within(b + [x], |words|)
    requires Greedy(words, b, width, maxWidth)
    requires width(Line(words, b[|b| - 1], x + 1)) > maxWidth
    ensures Greedy(words, b + [x], width, maxWidth)
  {
    var b' := b + [x];
    forall k: nat | k < |b'| - 1
      ensures EndedByOverflow(words, b', k, width, maxWidth)
    {
      assert b'[k] == b[k];
      if k < |b| - 1 {
        assert b'[k + 1] == b[k + 1];
        assert EndedByOverflow(words, b, k, width, maxWidth);
      }
    }
  }

  /** Cutting after a line that fits, or has one word, keeps every line of
      several words fitting. */
  lemma AppendFitting(words: seq<string>, b: seq<nat>, x: nat, width: string -> int, maxWidth: int)
    requires Within(b, |words|) && b[|b| - 1] <= x <= |words|
    requires Within(b + [x], |words|)
    requires Fitting(words, b, width, maxWidth)
    requires x - b[|b| - 1] >= 2 ==> width(Line(words, b[|b| - 1], x)) <= maxWidth
    ensures Fitting(words, b + [x], width, maxWidth)
  {
    var b' := b + [x];
    forall k: nat | k < |b'| - 1
      ensures FitsUnlessSingle(words, b', k, width, maxWidth)
    {
      assert b'[k] == b[k];
      if k < |b| - 1 {
        assert b'[k + 1] == b[k + 1];
        assert FitsUnlessSingle(words, b, k, width, maxWidth);
      }
    }
  }

  /** A text of at least two lines whose first is empty starts with a
      line break. */
  lemma LeadingEmptyLine(texts: seq<string>)
    requires |texts| >= 2 && texts[0] == ""
    ensures |JoinWith(texts, '\n')| >= 1 && JoinWith(texts, '\n')[0] == '\n'
  {
  }

  /** The loop's variables: where the pending line starts, how many lines
      were emitted and the text emitted, together with the positions of
      the cuts made so far. */
  datatype Layout = Layout(start: nat, lines: nat, formatted: string, cuts: seq<nat>)

  /** The text with one more line. */
  function Emit(formatted: string, lines: nat, line: string): string
  {
    if lines >= 1 then formatted + "\n" + line else line
  }

  /** What the wrap loop keeps before looking at the first `counter`
      words: the lines emitted so far are cut at `cuts`, the text emitted
      is their join, each line was ended by an overflow and fits unless it
      is a single word, and the pending line, the words from `start` up to
      the one before `counter`, fits. The cuts from index `strictFrom` on
      are strictly increasing. */
  ghost predicate WrapState(words: seq<string>, width: string -> int, maxWidth: int, strictFrom: nat,
                            counter: nat, w: Layout)
  {
    && w.start < |words| && counter <= |words| + 1
    && (counter == 0 ==> w.start == 0)
    && (counter >= 1 ==> w.start <= counter - 1)
    && Within(w.cuts, |words|) && w.cuts[|w.cuts| - 1] == w.start
    && (|w.cuts| >= 2 ==> w.start + 2 <= counter)
    && w.lines == |w.cuts| - 1
    && w.formatted == JoinWith(Texts(words, w.cuts), '\n')
    && Greedy(words, w.cuts, width, maxWidth)
    && Fitting(words, w.cuts, width, maxWidth)
    && (counter >= 1 && counter - 1 - w.start >= 2 ==> width(Line(words, w.start, counter - 1)) <= maxWidth)
    && (forall i, j | strictFrom <= i < j < |w.cuts| :: w.cuts[i] < w.cuts[j])
  }

  /** A step that emits nothing keeps the state, as long as the pending
      line it grows still fits. */
  lemma KeepStep(words: seq<string>, width: string -> int, maxWidth: int, strictFrom: nat,
                 counter: nat, w: Layout)
    requires counter <= |words|
    requires WrapState(words, width, maxWidth, strictFrom, counter, w)
    requires counter - w.start >= 2 ==> width(Line(words, w.start, counter)) <= maxWidth
    ensures WrapState(words, width, maxWidth, strictFrom, counter + 1, w)
  {
  }

  /** Cutting after the pending line keeps the cuts in order, strictly
      from `strictFrom` on when the cut is past the pending line's start
      or before that index. */
  lemma BreakCuts(words: seq<string>, strictFrom: nat, x: nat, cuts: seq<nat>)
    requires Within(cuts, |words|) && cuts[|cuts| - 1] <= x <= |words|
    requires forall i, j | strictFrom <= i < j < |cuts| :: cuts[i] < cuts[j]
    requires |cuts| > strictFrom ==> x > cuts[|cuts| - 1]
    ensures Within(cuts + [x], |words|)
    ensures forall i, j | strictFrom <= i < j < |cuts + [x]| :: (cuts + [x])[i] < (cuts + [x])[j]
  {
    AppendCut(words, cuts, x);
    var cuts' := cuts + [x];
    forall i, j | strictFrom <= i < j < |cuts'| ensures cuts'[i] < cuts'[j] {
      if j == |cuts| {
        assert cuts'[i] == cuts[i] <= cuts[|cuts| - 1];
      }
    }
  }

  /** Cutting after an overflowing pending line emits it as one more line
      of the text and keeps every line greedy and fitting. */
  lemma BreakLines(words: seq<string>, width: string -> int, maxWidth: int, counter: nat, w: Layout)
    requires 1 <= counter <= |words|
    requires Within(w.cuts, |words|) && w.cuts[|w.cuts| - 1] == w.start <= counter - 1
    requires w.lines == |w.cuts| - 1
    requires w.formatted == JoinWith(Texts(words, w.cuts), '\n')
    requires Greedy(words, w.cuts, width, maxWidth) && Fitting(words, w.cuts, width, maxWidth)
    requires counter - 1 - w.start >= 2 ==> width(Line(words, w.start, counter - 1)) <= maxWidth
    requires width(Line(words, w.start, counter)) > maxWidth
    ensures Within(w.cuts + [counter - 1], |words|)
    ensures Emit(w.formatted, w.lines, Line(words, w.start, counter - 1)) ==
      JoinWith(Texts(words, w.cuts + [counter - 1]), '\n')
    ensures Greedy(words, w.cuts + [counter - 1], width, maxWidth)
    ensures Fitting(words, w.cuts + [counter - 1], width, maxWidth)
  {
    AppendCut(words, w.cuts, counter - 1);
    AppendGreedy(words, w.cuts, counter - 1, width, maxWidth);
    AppendFitting(words, w.cuts, counter - 1, width, maxWidth);
  }

  /** A step whose pending line overflows emits that line without its last
      word, which starts the next line. */
  lemma BreakStep(words: seq<string>, width: string -> int, maxWidth: int, strictFrom: nat,
                  counter: nat, w: Layout)
    requires 1 <= counter <= |words|
    requires WrapState(words, width, maxWidth, strictFrom, counter, w)
    requires width(Line(words, w.start, counter)) > maxWidth
    requires |w.cuts| > strictFrom ==> counter - 1 > w.start
    ensures WrapState(words, width, maxWidth, strictFrom, counter + 1,
                      Layout(counter - 1, w.lines + 1, Emit(w.formatted, w.lines, Line(words, w.start, counter - 1)),
                             w.cuts + [counter - 1]))
  {
    BreakCuts(words, strictFrom, counter - 1, w.cuts);
    BreakLines(words, width, maxWidth, counter, w);
  }

  /** What the wrap as written keeps about its first line: it is cut
      right away, before any word, exactly when the first word alone is
      too wide. */
  ghost predicate FirstLine(words: seq<string>, width: string -> int, maxWidth: int, counter: nat, w: Layout)
  {
    && |words| >= 1 && |w.cuts| >= 1
    && (counter <= 1 ==> w.cuts == [0])
    && (counter >= 2 ==> (width(words[0]) > maxWidth <==> |w.cuts| >= 2 && w.cuts[1] == 0))
  }

  /** One pass of the loop body for the words up to `counter`: when the
      pending line has become too wide, the line without its last word is
      emitted and that word starts the next one. The wrap as written
      emits even when the line to emit has no word; the intended wrap
      only when it has one. Either way the pass keeps the state, the wrap
      as written keeping the cuts strictly increasing from the second one
      on, the intended wrap from the first. */
  method WrapStep(words: seq<string>, width: string -> int, maxWidth: int, intended: bool,
                  counter: nat, w: Layout) returns (r: Layout)
    requires width("") <= maxWidth && |words| >= 1 && counter <= |words|
    requires Reached(words, width, maxWidth, intended, counter, w)
    ensures Reached(words, width, maxWidth, intended, counter + 1, r)
  {
    var strictFrom := if intended then 0 else 1;
    var current := JoinWith(words[w.start..counter], ' ');
    assert current == Line(words, w.start, counter);
    if counter == 1 {
      assert words[0..1] == [words[0]];
    }
    if width(current) > maxWidth && (!intended || counter - 1 > w.start) {
      assert counter >= 1;
      var line := JoinWith(words[w.start..counter - 1], ' ');
      BreakStep(words, width, maxWidth, strictFrom, counter, w);
      r := Layout(counter - 1, w.lines + 1, Emit(w.formatted, w.lines, line), w.cuts + [counter - 1]);
    } else {
      KeepStep(words, width, maxWidth, strictFrom, counter, w);
      r := w;
    }
  }

  /** A wrap of `words`: the cuts `bounds` describe `lines` lines whose
      join is `formatted`; every line but the last was ended because its
      next word would have overflowed it, every line of several words fits
      the limit, and the cuts from index `strictFrom` on are strictly
      increasing. */
  ghost predicate Wrapped(words: seq<string>, width: string -> int, maxWidth: int, strictFrom: nat,
                          formatted: string, lines: nat, bounds: seq<nat>)
  {
    && Cuts(bounds, |words|)
    && lines == |bounds| - 1
    && formatted == JoinWith(Texts(words, bounds), '\n')
    && Greedy(words, bounds[..|bounds| - 1], width, maxWidth)
    && Fitting(words, bounds, width, maxWidth)
    && (forall i, j | strictFrom <= i < j < |bounds| :: bounds[i] < bounds[j])
  }

  /** The loop starts with nothing emitted. */
  lemma FirstState(words: seq<string>, width: string -> int, maxWidth: int, strictFrom: nat)
    requires |words| >= 1
    ensures WrapState(words, width, maxWidth, strictFrom, 0, Layout(0, 0, "", [0]))
    ensures FirstLine(words, width, maxWidth, 0, Layout(0, 0, "", [0]))
  {
    assert Texts(words, [0]) == [];
  }

  /** After the loop, the remaining words make the last line. */
  lemma LastLine(words: seq<string>, width: string -> int, maxWidth: int, strictFrom: nat, w: Layout)
    requires WrapState(words, width, maxWidth, strictFrom, |words| + 1, w)
    ensures Wrapped(words, width, maxWidth, strictFrom,
                    Emit(w.formatted, w.lines, Line(words, w.start, |words|)), w.lines + 1, w.cuts + [|words|])
  {
    AppendCut(words, w.cuts, |words|);
    AppendFitting(words, w.cuts, |words|, width, maxWidth);
    assert (w.cuts + [|words|])[..|w.cuts|] == w.cuts;
  }

  /** What holds of the loop's state before pass `counter`: the invariant
      of the wrap, and for the wrap as written what its first line is. */
  ghost predicate Reached(words: seq<string>, width: string -> int, maxWidth: int, intended: bool, counter: nat, w: Layout)
  {
    && WrapState(words, width, maxWidth, if intended then 0 else 1, counter, w)
    && (!intended ==> FirstLine(words, width, maxWidth, counter, w))
  }

  /** `for counter in xrange(len(words) + 1)`, up to pass `counter`: the
      first `counter` passes of the loop body, from nothing emitted, keep
      its invariant. */
  method WrapUpTo(words: seq<string>, width: string -> int, maxWidth: int, intended: bool, counter: nat) returns (w: Layout)
    requires width("") <= maxWidth && |words| >= 1 && counter <= |words| + 1
    ensures Reached(words, width, maxWidth, intended, counter, w)
  {
    if counter == 0 {
      w := Layout(0, 0, "", [0]);
      FirstState(words, width, maxWidth, if intended then 0 else 1);
    } else {
      var before := WrapUpTo(words, width, maxWidth, intended, counter - 1);
      w := WrapStep(words, width, maxWidth, intended, counter - 1, before);
    }
  }

  /** The wrap as written cuts before the first word exactly when that word
      alone is too wide, and the text then starts with a line break. */
  lemma FirstLineResult(words: seq<string>, width: string -> int, maxWidth: int, w: Layout,
                        formatted: string, lines: nat, bounds: seq<nat>)
    requires WrapState(words, width, maxWidth, 1, |words| + 1, w)
    requires FirstLine(words, width, maxWidth, |words| + 1, w)
    requires bounds == w.cuts + [|words|]
    requires Wrapped(words, width, maxWidth, 1, formatted, lines, bounds)
    ensures width(words[0]) > maxWidth <==> bounds[1] == 0
    ensures width(words[0]) > maxWidth ==> lines >= 2 && |formatted| >= 1 && formatted[0] == '\n'
  {
    assert bounds[1] == if |w.cuts| >= 2 then w.cuts[1] else |words|;
    if width(words[0]) > maxWidth {
      var texts := Texts(words, bounds);
      assert texts[0] == Line(words, 0, 0);
      assert words[0..0] == [];
      LeadingEmptyLine(texts);
    }
  }

  /** The wrap loop as written. A word that is too wide on its own still
      gets a line of its own, but when the very first word is too wide,
      the loop first emits an empty line: the text then starts with a
      line break and counts one line more than it shows. */
  method WrapAsWritten(message: string, width: string -> int, maxWidth: int, fontHeight: int)
    returns (formatted: string, lines: nat, textHeight: int, bounds: seq<nat>)
    requires width("") <= maxWidth
    ensures var words := Split(message, ' ');
      && Wrapped(words, width, maxWidth, 1, formatted, lines, bounds)
      && (width(words[0]) > maxWidth <==> bounds[1] == 0)
      && (width(words[0]) > maxWidth ==> lines >= 2 && |formatted| >= 1 && formatted[0] == '\n')
    ensures textHeight == lines * fontHeight
  {
    var words := Split(message, ' ');
    var w := WrapUpTo(words, width, maxWidth, false, |words| + 1);
    // The guard `start <= len(words)` before the last line always holds.
    var last := JoinWith(words[w.start..], ' ');
    assert words[w.start..] == words[w.start..|words|];
    LastLine(words, width, maxWidth, 1, w);
    formatted := Emit(w.formatted, w.lines, last);
    lines := w.lines + 1;
    textHeight := lines * fontHeight;
    bounds := w.cuts + [|words|];
    FirstLineResult(words, width, maxWidth, w, formatted, lines, bounds);
  }

  /** The wrap as evidently intended: a line is only emitted when it has
      a word, so a first word too wide for the limit simply gets the first
      line to itself. Every line then has at least one word. */
  method Wrap(message: string, width: string -> int, maxWidth: int, fontHeight: int)
    returns (formatted: string, lines: nat, textHeight: int, bounds: seq<nat>)
    requires width("") <= maxWidth
    ensures Wrapped(Split(message, ' '), width, maxWidth, 0, formatted, lines, bounds)
    ensures textHeight == lines * fontHeight
  {
    var words := Split(message, ' ');
    var w := WrapUpTo(words, width, maxWidth, true, |words| + 1);
    var last := JoinWith(words[w.start..], ' ');
    assert words[w.start..] == words[w.start..|words|];
    LastLine(words, width, maxWidth, 0, w);
    formatted := Emit(w.formatted, w.lines, last);
    lines := w.lines + 1;
    textHeight := lines * fontHeight;
    bounds := w.cuts + [|words|];
  }
}

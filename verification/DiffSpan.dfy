/** The trimmed-span diff: what two sequences of lines share at each end, and the hunk between. */
module DiffSpan {

  datatype Span = Span(prefix: nat, oldEnd: nat, newEnd: nat)

  datatype Mark = Context | Removed | Inserted

  datatype Line<T> = Line(mark: Mark, text: T)

  /** A hunk that turns one sequence into the other: equal lines before it and after it. */
  predicate Fits<T(==)>(before: seq<T>, after: seq<T>, span: Span) {
    && span.prefix <= span.oldEnd <= |before|
    && span.prefix <= span.newEnd <= |after|
    && before[..span.prefix] == after[..span.prefix]
    && before[span.oldEnd..] == after[span.newEnd..]
  }

  /** Lines removed and inserted. */
  function Size(span: Span): int {
    span.oldEnd - span.prefix + span.newEnd - span.prefix
  }

  lemma SuffixGrows<T>(before: seq<T>, after: seq<T>, n: nat)
    requires n < |before| && n < |after| && before[|before| - n..] == after[|after| - n..]
    requires before[|before| - 1 - n] == after[|after| - 1 - n]
    ensures before[|before| - (n + 1)..] == after[|after| - (n + 1)..]
  {
    assert before[|before| - (n + 1)..] == [before[|before| - 1 - n]] + before[|before| - n..];
    assert after[|after| - (n + 1)..] == [after[|after| - 1 - n]] + after[|after| - n..];
  }

  method TrimCommonLines<T(==)>(before: seq<T>, after: seq<T>) returns (span: Span)
    ensures Fits(before, after, span)
    ensures forall other: Span | Fits(before, after, other) :: Size(span) <= Size(other)
  {
    var prefix := 0;
    while prefix < |before| && prefix < |after| && before[prefix] == after[prefix]
      invariant prefix <= |before| && prefix <= |after|
      invariant before[..prefix] == after[..prefix]
    {
      prefix := prefix + 1;
    }
    var suffix := 0;
    while suffix < |before| - prefix && suffix < |after| - prefix
          && before[|before| - 1 - suffix] == after[|after| - 1 - suffix]
      invariant suffix <= |before| - prefix && suffix <= |after| - prefix
      invariant before[|before| - suffix..] == after[|after| - suffix..]
    {
      SuffixGrows(before, after, suffix);
      suffix := suffix + 1;
    }
    span := Span(prefix, |before| - suffix, |after| - suffix);
    forall other: Span | Fits(before, after, other)
      ensures Size(span) <= Size(other)
    {
      NoShorterHunk(before, after, span, other);
    }
  }

  /** The prefix cannot grow; and the suffix cannot either, unless it met the prefix. */
  predicate Greedy<T(==)>(before: seq<T>, after: seq<T>, span: Span)
    requires Fits(before, after, span)
  {
    && (span.prefix < |before| && span.prefix < |after| ==> before[span.prefix] != after[span.prefix])
    && (span.prefix < span.oldEnd && span.prefix < span.newEnd ==> before[span.oldEnd - 1] != after[span.newEnd - 1])
  }

  lemma NoShorterHunk<T>(before: seq<T>, after: seq<T>, span: Span, other: Span)
    requires Fits(before, after, span) && Fits(before, after, other) && Greedy(before, after, span)
    ensures Size(span) <= Size(other)
  {
    assert |before| - span.oldEnd == |after| - span.newEnd;
    assert |before| - other.oldEnd == |after| - other.newEnd;
  }

  /** Line by line: one of context before when there is any, what was removed, what was inserted, and one
      of context after. */
  predicate IsDiff<T(==)>(before: seq<T>, after: seq<T>, span: Span, lines: seq<Line<T>>)
    requires span.prefix <= span.oldEnd <= |before| && span.prefix <= span.newEnd <= |after|
  {
    var first := if span.prefix > 0 then 1 else 0;
    var second := first + span.oldEnd - span.prefix;
    var third := second + span.newEnd - span.prefix;
    && |lines| == third + (if span.oldEnd < |before| then 1 else 0)
    && (forall i | 0 <= i < first :: lines[i] == Line(Context, before[span.prefix - 1]))
    && (forall i | first <= i < second :: lines[i] == Line(Removed, before[span.prefix + i - first]))
    && (forall i | second <= i < third :: lines[i] == Line(Inserted, after[span.prefix + i - second]))
    && (forall i | third <= i < |lines| :: lines[i] == Line(Context, before[span.oldEnd]))
  }

  /** The four parts of a sequence, by position. */
  lemma FourParts<T>(a: seq<T>, b: seq<T>, c: seq<T>, d: seq<T>)
    ensures var all := [] + a + b + c + d;
            && |all| == |a| + |b| + |c| + |d|
            && (forall i | 0 <= i < |a| :: all[i] == a[i])
            && (forall i | |a| <= i < |a| + |b| :: all[i] == b[i - |a|])
            && (forall i | |a| + |b| <= i < |a| + |b| + |c| :: all[i] == c[i - |a| - |b|])
            && (forall i | |a| + |b| + |c| <= i < |all| :: all[i] == d[i - |a| - |b| - |c|])
  {
  }

  lemma DiffPositions<T>(before: seq<T>, after: seq<T>, span: Span)
    requires span.prefix <= span.oldEnd <= |before| && span.prefix <= span.newEnd <= |after|
    ensures IsDiff(before, after, span, DiffLines(before, after, span))
  {
    FourParts(Marked(Context, Before(before, span)), Marked(Removed, before[span.prefix..span.oldEnd]),
              Marked(Inserted, after[span.prefix..span.newEnd]), Marked(Context, After(before, span)));
  }

  /** Emits the span as diff lines, with one line of context either side. */
  method ForEachDiffLine<T>(before: seq<T>, after: seq<T>, span: Span) returns (lines: seq<Line<T>>)
    requires span.prefix <= span.oldEnd <= |before| && span.prefix <= span.newEnd <= |after|
    ensures lines == DiffLines(before, after, span)
    ensures IsDiff(before, after, span, lines)
  {
    lines := [];
    if span.prefix > 0 {
      lines := lines + [Line(Context, before[span.prefix - 1])];
    }
    assert lines == [] + Marked(Context, Before(before, span));
    lines := EmitAll(lines, Removed, before, span.prefix, span.oldEnd);
    lines := EmitAll(lines, Inserted, after, span.prefix, span.newEnd);
    lines := EmitAfter(lines, before, span);
    DiffPositions(before, after, span);
  }

  method EmitAfter<T>(emitted: seq<Line<T>>, before: seq<T>, span: Span) returns (lines: seq<Line<T>>)
    requires span.oldEnd <= |before|
    ensures lines == emitted + Marked(Context, After(before, span))
  {
    lines := emitted;
    if span.oldEnd < |before| {
      lines := lines + [Line(Context, before[span.oldEnd])];
    }
  }

  method EmitAll<T>(emitted: seq<Line<T>>, mark: Mark, texts: seq<T>, from: nat, to: nat) returns (lines: seq<Line<T>>)
    requires from <= to <= |texts|
    ensures lines == emitted + Marked(mark, texts[from..to])
  {
    lines := emitted;
    for i := from to to
      invariant lines == emitted + Marked(mark, texts[from..i])
    {
      lines := lines + [Line(mark, texts[i])];
    }
  }

  function Marked<T>(mark: Mark, texts: seq<T>): (lines: seq<Line<T>>)
    ensures |lines| == |texts|
  {
    seq(|texts|, k requires 0 <= k < |texts| => Line(mark, texts[k]))
  }

  /** The line of context before the span, and the one after it. */
  function Before<T>(before: seq<T>, span: Span): seq<T>
    requires span.prefix <= |before|
  {
    if span.prefix > 0 then [before[span.prefix - 1]] else []
  }

  function After<T>(before: seq<T>, span: Span): seq<T>
    requires span.oldEnd <= |before|
  {
    if span.oldEnd < |before| then [before[span.oldEnd]] else []
  }

  function DiffLines<T>(before: seq<T>, after: seq<T>, span: Span): seq<Line<T>>
    requires span.prefix <= span.oldEnd <= |before| && span.prefix <= span.newEnd <= |after|
  {
    [] + Marked(Context, Before(before, span))
    + Marked(Removed, before[span.prefix..span.oldEnd])
    + Marked(Inserted, after[span.prefix..span.newEnd])
    + Marked(Context, After(before, span))
  }

  /** The texts of the lines with one mark, in order. */
  function Texts<T>(lines: seq<Line<T>>, mark: Mark): seq<T> {
    if lines == [] then []
    else
      var last := lines[|lines| - 1];
      Texts(lines[..|lines| - 1], mark) + if last.mark == mark then [last.text] else []
  }

  lemma {:induction false} TextsOfMarked<T>(lines: seq<Line<T>>, mark: Mark, texts: seq<T>, wanted: Mark)
    ensures Texts(lines + Marked(mark, texts), wanted) == Texts(lines, wanted) + if mark == wanted then texts else []
  {
    var all := lines + Marked(mark, texts);
    if texts == [] {
      assert all == lines;
    } else {
      var n := |texts| - 1;
      assert Marked(mark, texts) == Marked(mark, texts[..n]) + [Line(mark, texts[n])];
      assert all[..|all| - 1] == lines + Marked(mark, texts[..n]);
      assert texts == texts[..n] + [texts[n]];
      TextsOfMarked(lines, mark, texts[..n], wanted);
    }
  }

  lemma TextsOfDiff<T>(before: seq<T>, after: seq<T>, span: Span, wanted: Mark)
    requires span.prefix <= span.oldEnd <= |before| && span.prefix <= span.newEnd <= |after| && wanted != Context
    ensures Texts(DiffLines(before, after, span), wanted)
            == if wanted == Removed then before[span.prefix..span.oldEnd] else after[span.prefix..span.newEnd]
  {
    var removed, inserted := before[span.prefix..span.oldEnd], after[span.prefix..span.newEnd];
    var first := [] + Marked(Context, Before(before, span));
    var second := first + Marked(Removed, removed);
    var third := second + Marked(Inserted, inserted);
    TextsOfMarked([], Context, Before(before, span), wanted);
    TextsOfMarked(first, Removed, removed, wanted);
    TextsOfMarked(second, Inserted, inserted, wanted);
    TextsOfMarked(third, Context, After(before, span), wanted);
  }

  /** Both texts come back from the diff and the lines they share: the '-' lines between the shared
      ends rebuild the old one, the '+' lines the new one. */
  lemma DiffRoundTrips<T>(before: seq<T>, after: seq<T>, span: Span)
    requires Fits(before, after, span)
    ensures var lines := DiffLines(before, after, span);
            && before[..span.prefix] + Texts(lines, Removed) + before[span.oldEnd..] == before
            && before[..span.prefix] + Texts(lines, Inserted) + before[span.oldEnd..] == after
  {
    TextsOfDiff(before, after, span, Removed);
    TextsOfDiff(before, after, span, Inserted);
    Rejoin(before, span.prefix, span.oldEnd);
    Rejoin(after, span.prefix, span.newEnd);
  }

  lemma Rejoin<T>(lines: seq<T>, from: nat, to: nat)
    requires from <= to <= |lines|
    ensures lines[..from] + lines[from..to] + lines[to..] == lines
  {
  }
}

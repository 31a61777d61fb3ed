/** Bounded process output: a stable start, the newest end, and a marker that
    counts what was cut between them. */
module OutputBuffer {
  import Decimal
  import Utf8

  function MarkerWidth(bytes: nat): nat {
    26 + |Decimal.Text(bytes)|
  }

  function OmittedMarker(bytes: nat): (m: string)
    ensures |m| == MarkerWidth(bytes)
  {
    "\n... [" + Decimal.Text(bytes) + " bytes omitted] ...\n"
  }

  lemma {:induction false} AsciiIsValid(s: string)
    requires forall k | 0 <= k < |s| :: s[k] as int < 0x80
    ensures Utf8.Valid(s)
  {
    if s != "" {
      AsciiIsValid(s[1..]);
    }
  }

  lemma MarkerIsValid(n: nat)
    ensures Utf8.Valid(OmittedMarker(n)) && !Utf8.Continuation(OmittedMarker(n)[0])
  {
    var digits := Decimal.Text(n);
    Decimal.TextReadsBack(n);
    AsciiIsValid(digits);
    AsciiIsValid("\n... [");
    AsciiIsValid(" bytes omitted] ...\n");
    Utf8.ConcatIsValid("\n... [", digits);
    Utf8.ConcatIsValid("\n... [" + digits, " bytes omitted] ...\n");
  }

  /** What is kept either side of a cut, around the marker that counts it. */
  function Around(before: string, bytes: nat, after: string): (r: string)
    ensures |r| == |before| + MarkerWidth(bytes) + |after|
  {
    before + OmittedMarker(bytes) + after
  }

  /** `text` with its middle, from `headEnd` to `tailStart`, marked as cut. */
  function Marked(text: string, headEnd: nat, tailStart: nat): (r: string)
    requires headEnd <= tailStart <= |text|
    ensures |r| == headEnd + MarkerWidth(tailStart - headEnd) + (|text| - tailStart)
  {
    Around(text[..headEnd], tailStart - headEnd, text[tailStart..])
  }

  /** Replacing a middle by text that starts on a boundary keeps well-formed text well-formed
      exactly when what is kept before it ends on a boundary. */
  lemma GlueIsValid(text: string, headEnd: nat, middle: string, tailStart: nat)
    requires headEnd <= tailStart <= |text|
    requires Utf8.Valid(text) && Utf8.Boundary(text, tailStart)
    requires middle != "" && Utf8.Valid(middle) && !Utf8.Continuation(middle[0])
    ensures Utf8.Valid(text[..headEnd] + middle + text[tailStart..]) <==> Utf8.Boundary(text, headEnd)
  {
    var whole := text[..headEnd] + middle + text[tailStart..];
    Utf8.SplitIsValid(text, tailStart);
    if Utf8.Boundary(text, headEnd) {
      Utf8.SplitIsValid(text, headEnd);
      Utf8.ConcatIsValid(text[..headEnd], middle);
      Utf8.ConcatIsValid(text[..headEnd] + middle, text[tailStart..]);
    }
    if Utf8.Valid(whole) {
      assert whole[headEnd] == middle[0];
      Utf8.SplitIsValid(whole, headEnd);
      assert whole[..headEnd] == text[..headEnd];
      Utf8.ValidPrefixEndsOnBoundary(text, headEnd);
    }
  }

  lemma MarkedIsValid(text: string, headEnd: nat, tailStart: nat)
    requires headEnd <= tailStart <= |text|
    requires Utf8.Valid(text) && Utf8.Boundary(text, tailStart)
    ensures Utf8.Valid(Marked(text, headEnd, tailStart)) <==> Utf8.Boundary(text, headEnd)
  {
    var marker := OmittedMarker(tailStart - headEnd);
    MarkerIsValid(tailStart - headEnd);
    GlueIsValid(text, headEnd, marker, tailStart);
    assert Marked(text, headEnd, tailStart) == text[..headEnd] + marker + text[tailStart..];
  }

  // ---------------------------------------------------------------- HeadTailBuffer

  /** What a buffer of these budgets shows of a whole stream. */
  function SnapshotOf(stream: string, headBudget: nat, tailBudget: nat): (r: string)
  {
    if |stream| <= headBudget + tailBudget then stream
    else Marked(stream, headBudget, Utf8.BoundaryAfter(stream, |stream| - tailBudget))
  }

  /** A snapshot of well-formed output is well-formed exactly when nothing was cut or the head
      budget falls between two codepoints: the head is never trimmed back to a boundary. */
  lemma SnapshotValidity(stream: string, headBudget: nat, tailBudget: nat)
    requires Utf8.Valid(stream)
    ensures Utf8.Valid(SnapshotOf(stream, headBudget, tailBudget))
       <==> |stream| <= headBudget + tailBudget || Utf8.Boundary(stream, headBudget)
  {
    if |stream| > headBudget + tailBudget {
      MarkedIsValid(stream, headBudget, Utf8.BoundaryAfter(stream, |stream| - tailBudget));
    }
  }

  /** Two two-byte characters through a two-byte buffer: the cut splits the first. */
  lemma SnapshotCanSplitCodepoint()
    ensures var stream := "\U{C3}\U{A9}\U{C3}\U{A9}";
            Utf8.Valid(stream) && !Utf8.Valid(SnapshotOf(stream, 1, 1))
  {
    var e := "\U{C3}\U{A9}";
    assert Utf8.Valid(e);
    Utf8.ConcatIsValid(e, e);
    assert e + e == "\U{C3}\U{A9}\U{C3}\U{A9}";
    SnapshotValidity(e + e, 1, 1);
  }

  /** A start, a marker for the `hidden` bytes after it, and the rest. */
  predicate HidesFrom(stream: string, headEnd: nat, hidden: nat, r: string) {
    && headEnd + hidden <= |stream|
    && r == stream[..headEnd] + OmittedMarker(hidden) + stream[headEnd + hidden..]
  }

  lemma MarkedHides(stream: string, headEnd: nat, tailStart: nat, hidden: nat)
    requires headEnd <= tailStart <= |stream| && hidden == tailStart - headEnd
    ensures HidesFrom(stream, headEnd, hidden, Marked(stream, headEnd, tailStart))
  {
    assert headEnd + hidden == tailStart;
  }

  /** What a snapshot promises of any stream: a start, the newest end, the exact count between. */
  lemma SnapshotShape(stream: string, headBudget: nat, tailBudget: nat)
    requires |stream| > headBudget + tailBudget
    ensures exists hidden: nat ::
              && HidesFrom(stream, headBudget, hidden, SnapshotOf(stream, headBudget, tailBudget))
              && |stream| - tailBudget <= headBudget + hidden
              && (forall k :: |stream| - tailBudget <= k < headBudget + hidden ==> Utf8.Continuation(stream[k]))
  {
    var t := Utf8.BoundaryAfter(stream, |stream| - tailBudget);
    Utf8.NearestAfter(stream, |stream| - tailBudget);
    CutSnapshot(stream, headBudget, tailBudget, t);
    MarkedHides(stream, headBudget, t, t - headBudget);
  }

  /** Bytes cut from the front of the tail join those already lost. */
  lemma MoveCut(head: string, lost: string, tail: string, cut: nat)
    requires cut <= |tail|
    ensures head + lost + tail == head + (lost + tail[..cut]) + tail[cut..]
  {
    assert tail == tail[..cut] + tail[cut..];
  }

  lemma ReplaceCut(head: string, lost: string, tail: string, rest: string, cut: nat)
    requires cut <= |rest|
    ensures head + lost + tail + rest == head + (lost + tail + rest[..cut]) + rest[cut..]
  {
    assert rest == rest[..cut] + rest[cut..];
  }

  lemma PartsOf(stream: string, head: string, lost: string, tail: string)
    requires stream == head + lost + tail
    ensures |stream| == |head| + |lost| + |tail|
    ensures stream[..|head|] == head && stream[|head| + |lost|..] == tail
  {
  }

  /** The cut in the buffered tail, which starts at `from`, is the cut in the whole stream. */
  lemma CutInTail(stream: string, from: nat, tail: string, offset: nat) returns (cut: nat)
    requires from <= |stream| && tail == stream[from..] && offset <= |tail|
    ensures cut == from + Utf8.BoundaryAfter(tail, offset) <= |stream|
    ensures cut == Utf8.BoundaryAfter(stream, from + offset)
    ensures stream[cut..] == tail[Utf8.BoundaryAfter(tail, offset)..]
  {
    Utf8.BoundaryAfterInSuffix(stream, from, offset);
    cut := from + Utf8.BoundaryAfter(tail, offset);
  }

  lemma WholeSnapshot(stream: string, headBudget: nat, tailBudget: nat)
    requires |stream| <= headBudget + tailBudget
    ensures SnapshotOf(stream, headBudget, tailBudget) == stream
  {
  }

  lemma MarkedIs(text: string, headEnd: nat, tailStart: nat, hidden: nat, after: string)
    requires headEnd <= tailStart <= |text| && hidden == tailStart - headEnd && after == text[tailStart..]
    ensures Marked(text, headEnd, tailStart) == Around(text[..headEnd], hidden, after)
  {
  }

  lemma CutSnapshot(stream: string, headBudget: nat, tailBudget: nat, cut: nat)
    requires |stream| > headBudget + tailBudget && cut == Utf8.BoundaryAfter(stream, |stream| - tailBudget)
    ensures headBudget <= cut <= |stream| && SnapshotOf(stream, headBudget, tailBudget) == Marked(stream, headBudget, cut)
  {
  }

  /** A snapshot put together from a head and a tail that starts at `from`. */
  lemma SnapshotIs(stream: string, head: string, from: nat, tail: string, tailBudget: nat, t: nat, hidden: nat)
    requires |head| <= from <= |stream| && head == stream[..|head|] && tail == stream[from..]
    requires tailBudget <= |tail| && |head| + tailBudget < |stream|
    requires t == Utf8.BoundaryAfter(tail, |tail| - tailBudget) && hidden == from - |head| + t
    ensures SnapshotOf(stream, |head|, tailBudget) == Around(head, hidden, tail[t..])
  {
    var cut := CutInTail(stream, from, tail, |tail| - tailBudget);
    CutSnapshot(stream, |head|, tailBudget, cut);
    MarkedIs(stream, |head|, cut, hidden, tail[t..]);
  }

  lemma NothingCut(stream: string, head: string, lost: string, tail: string)
    requires stream == head + lost + tail && |lost| == 0
    ensures stream == head + tail && (head == "" && tail == "" ==> stream == "")
  {
    assert head + lost == head;
  }

  lemma SnapshotFromParts(stream: string, head: string, lost: string, tail: string, tailBudget: nat, t: nat, hidden: nat)
    requires stream == head + lost + tail && tailBudget <= |tail| && |head| + tailBudget < |stream|
    requires t == Utf8.BoundaryAfter(tail, |tail| - tailBudget) && hidden == |lost| + t
    ensures SnapshotOf(stream, |head|, tailBudget) == Around(head, hidden, tail[t..])
  {
    PartsOf(stream, head, lost, tail);
    SnapshotIs(stream, head, |head| + |lost|, tail, tailBudget, t, hidden);
  }

  class HeadTailBuffer {
    const headBudget: nat
    const tailBudget: nat
    var head: string
    var tail: string
    var omitted: nat
    /** Everything pushed since the last drain, and the part of it that was cut. */
    ghost var stream: string
    ghost var lost: string
    /** Bytes ever pushed, and bytes ever moved down by a trim of the tail. */
    ghost var pushed: nat
    ghost var moved: nat

    ghost predicate Valid()
      reads this
    {
      && stream == head + lost + tail
      && omitted == |lost|
      && |head| <= headBudget
      && (|head| < headBudget ==> omitted + |tail| == 0)
      && |tail| <= 2 * tailBudget
      && (omitted > 0 ==> |tail| >= tailBudget)
      && moved + Slack(|tail|) <= pushed
    }

    /** The potential that pays for the next trim. */
    ghost function Slack(length: nat): nat {
      if length > tailBudget then length - tailBudget else 0
    }

    constructor (maxBytes: nat)
      ensures Valid() && stream == "" && headBudget == maxBytes / 2 && headBudget + tailBudget == maxBytes
      ensures pushed == moved == 0
    {
      headBudget := maxBytes / 2;
      tailBudget := maxBytes - maxBytes / 2;
      head, tail, omitted := "", "", 0;
      stream, lost, pushed, moved := "", "", 0, 0;
    }

    /** The tail never exceeds twice its budget (part of Valid), and all trims together move no
        more bytes than were pushed. */
    method Push(bytes: string)
      requires Valid()
      modifies this
      ensures Valid() && stream == old(stream) + bytes
      ensures pushed == old(pushed) + |bytes| && moved <= pushed
    {
      var room := headBudget - |head|;
      var taken := if room < |bytes| then room else |bytes|;
      var rest := bytes[taken..];
      if rest == "" {
        head, stream, pushed := head + bytes, stream + bytes, pushed + |bytes|;
        return;
      }
      head, stream, pushed := head + bytes[..taken], stream + bytes[..taken], pushed + taken;
      PushTail(rest);
    }

    /** The part of Push after the head is full. */
    method PushTail(rest: string)
      requires Valid() && |head| == headBudget && rest != ""
      modifies this
      ensures Valid() && stream == old(stream) + rest
      ensures pushed == old(pushed) + |rest|
    {
      if tailBudget == 0 {
        stream, pushed := stream + rest, pushed + |rest|;
        omitted := omitted + |rest|;
        lost := lost + rest;
      } else if |rest| >= tailBudget {
        var cut := |rest| - tailBudget;
        ReplaceCut(head, lost, tail, rest, cut);
        stream, pushed := stream + rest, pushed + |rest|;
        omitted := omitted + (|tail| + |rest| - tailBudget);
        lost := lost + tail + rest[..cut];
        tail := rest[cut..];
      } else {
        AppendTail(rest);
      }
    }

    /** A trim waits until the tail has doubled, which is what pays for the bytes it moves. */
    method AppendTail(rest: string)
      requires Valid() && |head| == headBudget && 0 < |rest| < tailBudget
      modifies this
      ensures Valid() && stream == old(stream) + rest
      ensures pushed == old(pushed) + |rest|
    {
      stream, pushed := stream + rest, pushed + |rest|;
      tail := tail + rest;
      if |tail| > 2 * tailBudget {
        var excess := |tail| - tailBudget;
        MoveCut(head, lost, tail, excess);
        lost := lost + tail[..excess];
        tail := tail[excess..];
        omitted := omitted + excess;
        moved := moved + tailBudget;
      }
    }

    /** The newest `tailBudget` bytes. */
    function Tail(): string
      reads this
    {
      tail[if |tail| > tailBudget then |tail| - tailBudget else 0..]
    }

    /** Whatever the chunks were, the snapshot depends on their concatenation alone. */
    method Snapshot() returns (r: string)
      requires Valid()
      ensures r == SnapshotOf(stream, headBudget, tailBudget)
    {
      var newest := Tail();
      var hidden := omitted + |tail| - |newest|;
      if hidden == 0 {
        NothingCut(stream, head, lost, tail);
        WholeSnapshot(stream, headBudget, tailBudget);
        return head + newest;
      }
      r := MarkedSnapshot(hidden);
    }

    /** The part of Snapshot for a buffer that has cut something. */
    method MarkedSnapshot(excess: nat) returns (r: string)
      requires Valid() && |stream| > headBudget + tailBudget && excess == omitted + |tail| - tailBudget
      ensures r == SnapshotOf(stream, headBudget, tailBudget)
    {
      var headEnd := Utf8.SeekBoundaryBefore(head, |head|);
      var tailStart := Utf8.SeekBoundaryAfter(tail, |tail| - tailBudget);
      var hidden := excess + (|head| - headEnd + tailStart - (|tail| - tailBudget));
      SnapshotFromParts(stream, head, lost, tail, tailBudget, tailStart, hidden);
      assert head[..headEnd] == head;
      return Around(head[..headEnd], hidden, tail[tailStart..]);
    }

    method Drain() returns (output: string)
      requires Valid()
      modifies this
      ensures Valid() && stream == ""
      ensures output == SnapshotOf(old(stream), headBudget, tailBudget)
      ensures pushed == old(pushed) && moved == old(moved)
    {
      output := Snapshot();
      head, tail, omitted := "", "", 0;
      stream, lost := "", "";
    }
  }

  // ---------------------------------------------------------------- HeadTail

  function HeadEnd(text: string, keep: nat): (h: nat)
    ensures h <= keep / 2 && h <= |text|
  {
    Utf8.BoundaryBefore(text, keep / 2)
  }

  function TailStart(text: string, keep: nat): (t: nat)
    requires keep <= |text|
    ensures HeadEnd(text, keep) <= t <= |text| && |text| - (keep - keep / 2) <= t
    ensures Utf8.Boundary(text, t)
  {
    Utf8.BoundaryAfter(text, |text| - (keep - keep / 2))
  }

  /** Bytes a cut to `cap` hides when its marker is as wide as that of `omitted`. */
  function Hidden(text: string, cap: nat, omitted: nat): nat
    requires MarkerWidth(omitted) < cap < |text|
  {
    var keep := cap - MarkerWidth(omitted);
    TailStart(text, keep) - HeadEnd(text, keep)
  }

  function Unmarked(text: string, cap: nat): (r: string)
    requires 3 < cap
    ensures |r| <= cap
  {
    Utf8.Prefix(text, cap - 3) + "..."
  }

  /** A pass settles on a count of hidden bytes that its own marker agrees with. */
  predicate Settled(text: string, cap: nat, omitted: nat)
    requires cap < |text|
  {
    MarkerWidth(omitted) < cap && Hidden(text, cap, omitted) == omitted
  }

  const PASSES: nat := 3

  datatype Outcome = Count(omitted: nat) | Never

  /** The passes that look for such a count. */
  function Settle(text: string, cap: nat, omitted: nat, passes: nat): (r: Outcome)
    requires cap < |text|
    ensures r.Count? ==> Settled(text, cap, r.omitted)
    decreases passes
  {
    if passes == 0 || MarkerWidth(omitted) >= cap then Never
    else if Hidden(text, cap, omitted) == omitted then Count(omitted)
    else Settle(text, cap, Hidden(text, cap, omitted), passes - 1)
  }

  function CutAround(text: string, cap: nat, omitted: nat): (r: string)
    requires cap < |text| && Settled(text, cap, omitted)
    ensures |r| <= cap
  {
    var keep := cap - MarkerWidth(omitted);
    Marked(text, HeadEnd(text, keep), TailStart(text, keep))
  }

  function Dots(n: nat): string {
    seq(n, _ => '.')
  }

  /** What HeadTail returns: never more than `cap` bytes. */
  function HeadTailOf(text: string, cap: nat): (r: string)
    ensures |r| <= cap
    ensures |text| <= cap ==> r == text
  {
    if |text| <= cap then text
    else if cap <= 3 then Dots(cap)
    else
      match Settle(text, cap, |text| - cap, PASSES)
      case Count(omitted) => CutAround(text, cap, omitted)
      case Never => Unmarked(text, cap)
  }

  /** The ends of a cut that keeps about `keep` bytes. */
  method SeekCut(text: string, keep: nat) returns (headEnd: nat, tailStart: nat)
    requires keep <= |text|
    ensures headEnd == HeadEnd(text, keep) && tailStart == TailStart(text, keep)
  {
    headEnd := Utf8.SeekBoundaryBefore(text, keep / 2);
    tailStart := Utf8.SeekBoundaryAfter(text, |text| - (keep - keep / 2));
    tailStart := if headEnd < tailStart then tailStart else headEnd;
  }

  /** What the remaining passes make of `omitted` is `outcome`. */
  ghost predicate Leads(text: string, cap: nat, omitted: nat, passes: nat, outcome: Outcome)
    requires cap < |text|
  {
    outcome == Settle(text, cap, omitted, passes)
  }

  lemma PassLeads(text: string, cap: nat, omitted: nat, passes: nat, hidden: nat, outcome: Outcome)
    requires passes > 0 && MarkerWidth(omitted) < cap < |text|
    requires hidden == Hidden(text, cap, omitted) && Leads(text, cap, omitted, passes, outcome)
    ensures hidden == omitted ==> outcome == Count(omitted)
    ensures hidden != omitted ==> Leads(text, cap, hidden, passes - 1, outcome)
  {
  }

  lemma LeadsNowhere(text: string, cap: nat, omitted: nat, passes: nat, outcome: Outcome)
    requires cap < |text| && Leads(text, cap, omitted, passes, outcome)
    requires passes == 0 || MarkerWidth(omitted) >= cap
    ensures outcome == Never
  {
  }

  /** One pass: whether the marker of `omitted` fits, and the cut it asks for. */
  method TryPass(text: string, cap: nat, omitted: nat) returns (fits: bool, headEnd: nat, tailStart: nat)
    requires cap < |text|
    ensures fits <==> MarkerWidth(omitted) < cap
    ensures fits ==> IsCutOf(text, cap, omitted, headEnd, tailStart) && tailStart - headEnd == Hidden(text, cap, omitted)
  {
    var width := MarkerWidth(omitted);
    if width >= cap {
      return false, 0, 0;
    }
    headEnd, tailStart := SeekCut(text, cap - width);
    fits := true;
  }

  predicate IsCutOf(text: string, cap: nat, omitted: nat, headEnd: nat, tailStart: nat)
    requires MarkerWidth(omitted) < cap < |text|
  {
    var keep := cap - MarkerWidth(omitted);
    headEnd == HeadEnd(text, keep) && tailStart == TailStart(text, keep)
  }

  /** The passes of HeadTail: where to cut, when one of them settles. */
  method SettleCut(text: string, cap: nat, passes: nat) returns (found: bool, headEnd: nat, tailStart: nat)
    requires cap < |text|
    ensures var outcome := Settle(text, cap, |text| - cap, passes);
            found == outcome.Count? && (found ==> IsCutOf(text, cap, outcome.omitted, headEnd, tailStart))
  {
    var omitted: nat := |text| - cap;
    ghost var outcome := Settle(text, cap, omitted, passes);
    headEnd, tailStart := 0, 0;
    var left := passes;
    while left > 0
      invariant Leads(text, cap, omitted, left, outcome)
    {
      var fits;
      fits, headEnd, tailStart := TryPass(text, cap, omitted);
      if !fits {
        break;
      }
      var hidden := tailStart - headEnd;
      PassLeads(text, cap, omitted, left, hidden, outcome);
      if hidden == omitted {
        return true, headEnd, tailStart;
      }
      omitted := hidden;
      left := left - 1;
    }
    LeadsNowhere(text, cap, omitted, left, outcome);
    return false, headEnd, tailStart;
  }

  method HeadTail(text: string, cap: nat) returns (r: string)
    ensures r == HeadTailOf(text, cap)
  {
    if |text| <= cap {
      return text;
    }
    if cap <= 3 {
      return Dots(cap);
    }
    var found, headEnd, tailStart := SettleCut(text, cap, 3);
    if found {
      return Marked(text, headEnd, tailStart);
    }
    return Unmarked(text, cap);
  }

  /** A start, a marker naming exactly the bytes hidden, and an end, both cuts at boundaries. */
  ghost predicate IsMarked(text: string, r: string) {
    exists h: nat, t: nat :: IsCut(text, h, t) && r == Marked(text, h, t)
  }

  predicate IsCut(text: string, h: nat, t: nat) {
    h <= t <= |text| && (h == 0 || Utf8.Boundary(text, h)) && Utf8.Boundary(text, t)
  }

  lemma CutAroundIsMarked(text: string, cap: nat, omitted: nat)
    requires cap < |text| && Settled(text, cap, omitted)
    ensures IsMarked(text, CutAround(text, cap, omitted))
  {
    var keep := cap - MarkerWidth(omitted);
    assert IsCut(text, HeadEnd(text, keep), TailStart(text, keep));
  }

  lemma MarkedKeepsUtf8(text: string, r: string)
    requires Utf8.Valid(text) && IsMarked(text, r)
    ensures Utf8.Valid(r)
  {
    var h: nat, t: nat :| IsCut(text, h, t) && r == Marked(text, h, t);
    assert Utf8.Boundary(text, h);
    MarkedIsValid(text, h, t);
  }

  lemma UnmarkedKeepsUtf8(text: string, cap: nat)
    requires Utf8.Valid(text) && 3 < cap
    ensures Utf8.Valid(Unmarked(text, cap))
  {
    Utf8.PrefixIsValid(text, cap - 3);
    AsciiIsValid("...");
    Utf8.ConcatIsValid(Utf8.Prefix(text, cap - 3), "...");
  }

  /** Whatever the cap, well-formed text stays well-formed. */
  lemma HeadTailKeepsUtf8(text: string, cap: nat)
    requires Utf8.Valid(text)
    ensures Utf8.Valid(HeadTailOf(text, cap))
  {
    if |text| <= cap {
    } else if cap <= 3 {
      AsciiIsValid(Dots(cap));
    } else {
      var outcome := Settle(text, cap, |text| - cap, PASSES);
      match outcome
      case Count(omitted) =>
        CutAroundIsMarked(text, cap, omitted);
        MarkedKeepsUtf8(text, CutAround(text, cap, omitted));
      case Never =>
        UnmarkedKeepsUtf8(text, cap);
    }
  }

  lemma HiddenIs(text: string, cap: nat, omitted: nat, keep: nat)
    requires MarkerWidth(omitted) < cap < |text| && keep == cap - MarkerWidth(omitted)
    ensures Hidden(text, cap, omitted) == TailStart(text, keep) - HeadEnd(text, keep)
  {
  }

  /** In well-formed text the boundaries cost a cut at most six bytes. */
  lemma HiddenBounds(text: string, cap: nat, omitted: nat)
    requires Utf8.Valid(text) && MarkerWidth(omitted) < cap < |text|
    ensures var least := |text| - cap + MarkerWidth(omitted);
            least <= Hidden(text, cap, omitted) <= least + 6
  {
    var keep := cap - MarkerWidth(omitted);
    KeptBounds(text, keep);
    HiddenIs(text, cap, omitted, keep);
  }

  lemma HeadEndIsNear(text: string, keep: nat)
    requires Utf8.Valid(text) && keep < |text|
    ensures keep / 2 <= HeadEnd(text, keep) + 3
  {
    Utf8.BoundariesAreNear(text, keep / 2);
  }

  lemma TailStartIsNear(text: string, keep: nat)
    requires Utf8.Valid(text) && keep < |text|
    ensures TailStart(text, keep) <= |text| - (keep - keep / 2) + 3
  {
    if keep > 0 {
      Utf8.BoundariesAreNear(text, |text| - (keep - keep / 2));
    }
  }

  lemma KeptBounds(text: string, keep: nat)
    requires Utf8.Valid(text) && keep < |text|
    ensures |text| - keep <= TailStart(text, keep) - HeadEnd(text, keep) <= |text| - keep + 6
  {
    HeadEndIsNear(text, keep);
    TailStartIsNear(text, keep);
  }

  /** Only the width of the marker matters to what a cut hides. */
  lemma HiddenByWidth(text: string, cap: nat, a: nat, b: nat)
    requires MarkerWidth(a) == MarkerWidth(b) < cap < |text|
    ensures Hidden(text, cap, a) == Hidden(text, cap, b)
  {
  }

  lemma KeptIsMonotone(text: string, less: nat, more: nat)
    requires less <= more <= |text|
    ensures TailStart(text, more) - HeadEnd(text, more) <= TailStart(text, less) - HeadEnd(text, less)
  {
    assert less / 2 <= more / 2 && less - less / 2 <= more - more / 2;
    Utf8.BoundariesAreMonotone(text, less / 2, more / 2);
    Utf8.BoundariesAreMonotone(text, |text| - (more - more / 2), |text| - (less - less / 2));
  }

  /** A wider marker hides no less. */
  lemma HiddenIsMonotone(text: string, cap: nat, a: nat, b: nat)
    requires MarkerWidth(a) <= MarkerWidth(b) < cap < |text|
    ensures Hidden(text, cap, a) <= Hidden(text, cap, b)
  {
    var more := cap - MarkerWidth(a);
    var less := cap - MarkerWidth(b);
    KeptIsMonotone(text, less, more);
    HiddenIs(text, cap, a, more);
    HiddenIs(text, cap, b, less);
  }

  /** A count grown by a marker and some boundary bytes is at most one digit wider. */
  lemma WidthsAgree(start: nat, first: nat, second: nat)
    requires start <= first <= start + 33 + |Decimal.Text(start)|
    requires first <= second <= start + 32 + |Decimal.Text(first)|
    requires |Decimal.Text(first)| != |Decimal.Text(start)|
    ensures |Decimal.Text(second)| == |Decimal.Text(first)|
  {
    var width := |Decimal.Text(start)|;
    Decimal.WidthBound(start, width);
    Decimal.RoomForOneMoreDigit(width);
    Decimal.WidthBound(first, width + 1);
    Decimal.WidthBound(second, width + 1);
    Decimal.WidthIsMonotone(start, first);
    Decimal.WidthIsMonotone(first, second);
  }

  lemma PassBounds(text: string, cap: nat, first: nat, second: nat)
    requires Utf8.Valid(text) && cap < |text|
    requires MarkerWidth(|text| - cap) < cap && first == Hidden(text, cap, |text| - cap)
    requires MarkerWidth(first) < cap && second == Hidden(text, cap, first)
    ensures var start := |text| - cap;
            && start <= first <= start + 33 + |Decimal.Text(start)|
            && first <= second <= start + 32 + |Decimal.Text(first)|
  {
    var start := |text| - cap;
    HiddenBounds(text, cap, start);
    HiddenBounds(text, cap, first);
    Decimal.WidthIsMonotone(start, first);
    HiddenIsMonotone(text, cap, start, first);
  }

  lemma SameWidthSettles(text: string, cap: nat, guess: nat, count: nat)
    requires MarkerWidth(guess) == MarkerWidth(count) < cap < |text| && count == Hidden(text, cap, guess)
    ensures Settled(text, cap, count) && Hidden(text, cap, count) == count
  {
    HiddenByWidth(text, cap, guess, count);
  }

  /** Over well-formed text the count of the second pass or of the third repeats. */
  lemma CountRepeats(text: string, cap: nat, first: nat, second: nat)
    requires Utf8.Valid(text) && cap < |text|
    requires MarkerWidth(|text| - cap) < cap && first == Hidden(text, cap, |text| - cap)
    requires MarkerWidth(first) < cap && second == Hidden(text, cap, first)
    ensures Settled(text, cap, second)
  {
    var start := |text| - cap;
    PassBounds(text, cap, first, second);
    if |Decimal.Text(first)| != |Decimal.Text(start)| {
      WidthsAgree(start, first, second);
      SameWidthSettles(text, cap, first, second);
    } else {
      SameWidthSettles(text, cap, start, first);
    }
  }

  lemma FromSecondPass(text: string, cap: nat, first: nat, passes: nat)
    requires Utf8.Valid(text) && cap < |text| && passes >= 2
    requires MarkerWidth(|text| - cap) < cap && first == Hidden(text, cap, |text| - cap)
    ensures Settle(text, cap, first, passes).Count? <==> MarkerWidth(first) < cap
  {
    if MarkerWidth(first) < cap {
      CountRepeats(text, cap, first, Hidden(text, cap, first));
    }
  }

  /** The cap leaves room for the marker of the first count and of the one it leads to. */
  predicate MarkerFits(text: string, cap: nat)
    requires cap < |text|
  {
    && MarkerWidth(|text| - cap) < cap
    && MarkerWidth(Hidden(text, cap, |text| - cap)) < cap
  }

  lemma FitsWhenSettled(text: string, cap: nat)
    requires Utf8.Valid(text) && 3 < cap < |text|
    ensures Settle(text, cap, |text| - cap, PASSES).Count? <==> MarkerFits(text, cap)
  {
    var start := |text| - cap;
    if MarkerWidth(start) < cap {
      HiddenBounds(text, cap, start);
      FromSecondPass(text, cap, Hidden(text, cap, start), PASSES - 1);
    }
  }

  /** Three passes are always enough: over-long well-formed text is cut around a marker that counts
      what it hides exactly when the marker fits the cap, and ends in an ellipsis otherwise. */
  lemma ThreePassesSettle(text: string, cap: nat)
    requires Utf8.Valid(text) && 3 < cap < |text|
    ensures Settle(text, cap, |text| - cap, PASSES).Count? <==> MarkerFits(text, cap)
    ensures MarkerFits(text, cap) ==> IsMarked(text, HeadTailOf(text, cap))
    ensures !MarkerFits(text, cap) ==> HeadTailOf(text, cap) == Unmarked(text, cap)
  {
    FitsWhenSettled(text, cap);
    var outcome := Settle(text, cap, |text| - cap, PASSES);
    if outcome.Count? {
      CutAroundIsMarked(text, cap, outcome.omitted);
    }
  }
}

/** Model-facing tool results: one byte budget shared by the results of a batch. */
module Dispatch {
  import opened Checked
  import OutputBuffer
  import Recut
  import Utf8

  /** `artifactHint` is the text that locates a captured log, empty without one. */
  datatype ToolResult = ToolResult(output: string, hint: string, artifactHint: string)

  /** `resultChars` and `toolChars` are negative when the call or its tool sets no limit. */
  datatype CallTask = CallTask(result: ToolResult, resultChars: int64, toolChars: int64)

  /** The configured caps on one result and on a batch; 0 or less is unlimited. */
  datatype Caps = Caps(result: int64, batch: int64)

  function ResultCharLimit(task: CallTask): int64 {
    if task.resultChars >= 0 then task.resultChars else task.toolChars
  }

  function ModelHint(result: ToolResult): string {
    var hint := (if result.hint == "" then "" else "\n" + result.hint) + result.artifactHint;
    if result.output == "" && hint != "" then hint[1..] else hint
  }

  function LimitOutput(text: string, cap: int): (r: string)
    ensures cap > 0 ==> |r| <= cap
    ensures cap <= 0 || |text| <= cap ==> r == text
  {
    if cap <= 0 then text else OutputBuffer.HeadTailOf(text, cap)
  }

  /** A result as the model reads it. A positive cap bounds it, hints included, and a text that
      fits comes back whole. */
  function ModelResultText(result: ToolResult, cap: int64, caps: Caps): (r: string)
    ensures cap > 0 ==> |r| <= cap
    ensures cap > 0 && |result.output + ModelHint(result)| <= cap ==> r == result.output + ModelHint(result)
  {
    var limit := if cap < 0 then caps.result else cap;
    var hint := ModelHint(result);
    if hint == "" then
      assert result.output + hint == result.output;
      LimitOutput(result.output, limit)
    else if limit <= 0 then result.output + hint
    else if |hint| >= limit then Utf8.Prefix(hint, limit)
    else LimitOutput(result.output, limit - |hint|) + hint
  }

  /** The hint of a result, then where its log is: on a line of its own after the output, and at the start
      of the text without any. */
  lemma ModelHintIs(result: ToolResult)
    ensures result.output != "" && result.hint != "" ==>
              ModelHint(result) == "\n" + (result.hint + result.artifactHint)
    ensures result.output == "" && result.hint != "" ==> ModelHint(result) == result.hint + result.artifactHint
    ensures result.output != "" && result.hint == "" ==> ModelHint(result) == result.artifactHint
    ensures result.output == "" && result.hint == "" && result.artifactHint != "" ==>
              ModelHint(result) == result.artifactHint[1..]
  {
    if result.hint == "" {
      assert "" + result.artifactHint == result.artifactHint;
    } else {
      var hint := ("\n" + result.hint) + result.artifactHint;
      assert hint == "\n" + (result.hint + result.artifactHint);
      assert hint[1..] == result.hint + result.artifactHint;
    }
  }

  /** Whatever is cut from a result, all of its hint is at the end, as long as the limit leaves room for it. */
  lemma HintSurvives(result: ToolResult, cap: int64, caps: Caps)
    requires var limit := if cap < 0 then caps.result else cap; limit <= 0 || |ModelHint(result)| < limit
    ensures var text, hint := ModelResultText(result, cap, caps), ModelHint(result);
            |text| >= |hint| && text[|text| - |hint|..] == hint
  {
    if ModelHint(result) == "" {
      assert ModelResultText(result, cap, caps)[|ModelResultText(result, cap, caps)|..] == "";
    }
  }

  /** Cutting never breaks UTF-8: well-formed output and hints stay well-formed under every cap. */
  lemma ModelResultTextKeepsUtf8(result: ToolResult, cap: int64, caps: Caps)
    requires Utf8.Valid(result.output) && Utf8.Valid(ModelHint(result))
    ensures Utf8.Valid(ModelResultText(result, cap, caps))
  {
    var limit := if cap < 0 then caps.result else cap;
    var hint := ModelHint(result);
    if limit <= 0 {
      Utf8.ConcatIsValid(result.output, hint);
    } else if hint == "" {
      OutputBuffer.HeadTailKeepsUtf8(result.output, limit);
    } else if |hint| >= limit {
      Utf8.PrefixIsValid(hint, limit);
    } else {
      OutputBuffer.HeadTailKeepsUtf8(result.output, limit - |hint|);
      Utf8.ConcatIsValid(LimitOutput(result.output, limit - |hint|), hint);
    }
  }

  /** The limit in force for a result: its own or the configured one. */
  function Limit(cap: int64, caps: Caps): int64 {
    if cap < 0 then caps.result else cap
  }

  /** What a limit leaves for the output ahead of the hint. */
  function Room(result: ToolResult, limit: int64): int {
    limit - |ModelHint(result)|
  }

  /** Whether what a limit leaves of a result is what its own size leaves: always for a result that was
      not cut and for one of which only the hint is shown, and otherwise as the cut of the output tells. */
  predicate KeepsItself(result: ToolResult, cap: int64, caps: Caps) {
    Limit(cap, caps) <= 0 || Room(result, Limit(cap, caps)) <= 0
    || Recut.Recurs(result.output, Room(result, Limit(cap, caps)))
  }

  /** What a share of its own size leaves of a text. */
  function OwnShare(result: ToolResult, text: string, caps: Caps): string
    requires |text| <= INT64_MAX
  {
    if |text| == 0 then "" else ModelResultText(result, |text|, caps)
  }

  /** Whether the share of its own size leaves a text as it is. */
  predicate IsPreserved(result: ToolResult, text: string, caps: Caps)
    requires |text| <= INT64_MAX
  {
    OwnShare(result, text, caps) == text
  }

  lemma HintKeepsItself(result: ToolResult, cap: int64, caps: Caps, text: string)
    requires |ModelHint(result)| >= Limit(cap, caps) > 0
    requires text == ModelResultText(result, cap, caps) && |text| <= INT64_MAX
    ensures IsPreserved(result, text, caps) && KeepsItself(result, cap, caps)
  {
    var hint, limit := ModelHint(result), Limit(cap, caps);
    Recut.PrefixAgain(hint, limit);
    assert text == Utf8.Prefix(hint, limit);
  }

  lemma WholeKeepsItself(result: ToolResult, text: string, caps: Caps)
    requires text == result.output + ModelHint(result) && |text| <= INT64_MAX
    ensures IsPreserved(result, text, caps)
  {
  }

  lemma SameEnding(a: string, b: string, end: string)
    ensures a + end == b + end <==> a == b
  {
    assert (a + end)[..|a|] == a;
    assert (b + end)[..|b|] == b;
    assert a + end == b + end ==> |a| == |b|;
  }

  lemma OwnShareIs(result: ToolResult, cut: string, text: string, caps: Caps)
    requires text == cut + ModelHint(result) && cut != "" && |text| <= INT64_MAX
    ensures OwnShare(result, text, caps) == LimitOutput(result.output, |cut|) + ModelHint(result)
  {
  }

  lemma NothingToAdd(text: string, hint: string)
    ensures hint == "" ==> text + hint == text
  {
  }

  /** A text whose output was not cut. */
  lemma WholeText(result: ToolResult, cap: int64, caps: Caps, text: string)
    requires text == ModelResultText(result, cap, caps)
    requires var limit := Limit(cap, caps); limit <= 0 || |result.output| + |ModelHint(result)| <= limit
    ensures text == result.output + ModelHint(result)
  {
    NothingToAdd(result.output, ModelHint(result));
  }

  /** And one whose output was cut ahead of its hint. */
  lemma CutText(result: ToolResult, cap: int64, caps: Caps, text: string, cut: string)
    requires text == ModelResultText(result, cap, caps) && |ModelHint(result)| < Limit(cap, caps)
    requires cut == OutputBuffer.HeadTailOf(result.output, Room(result, Limit(cap, caps)))
    ensures text == cut + ModelHint(result)
  {
    NothingToAdd(cut, ModelHint(result));
  }

  /** Its own share of a result whose output was cut to `room` ahead of its hint. */
  lemma CutOwnShare(result: ToolResult, room: nat, cut: string, text: string, caps: Caps)
    requires Utf8.Valid(result.output) && 0 < room < |result.output|
    requires cut == OutputBuffer.HeadTailOf(result.output, room)
    requires text == cut + ModelHint(result) && |text| <= INT64_MAX
    ensures IsPreserved(result, text, caps) <==> Recut.Recurs(result.output, room)
  {
    Recut.CutLeavesSomething(result.output, room);
    OwnShareIs(result, cut, text, caps);
    SameEnding(LimitOutput(result.output, |cut|), cut, ModelHint(result));
    Recut.RecutIsSame(result.output, room);
  }

  lemma CutKeepsItself(result: ToolResult, cap: int64, caps: Caps, text: string, cut: string)
    requires Utf8.Valid(result.output) && text == cut + ModelHint(result) && |text| <= INT64_MAX
    requires 0 < Room(result, Limit(cap, caps)) < |result.output|
    requires cut == OutputBuffer.HeadTailOf(result.output, Room(result, Limit(cap, caps)))
    ensures IsPreserved(result, text, caps) <==> KeepsItself(result, cap, caps)
  {
    CutOwnShare(result, Room(result, Limit(cap, caps)), cut, text, caps);
  }

  lemma UncutKeepsItself(result: ToolResult, cap: int64, caps: Caps, text: string)
    requires text == ModelResultText(result, cap, caps) && |text| <= INT64_MAX
    requires var limit := Limit(cap, caps); limit <= 0 || |result.output| + |ModelHint(result)| <= limit
    ensures IsPreserved(result, text, caps) && KeepsItself(result, cap, caps)
  {
    WholeText(result, cap, caps, text);
    WholeKeepsItself(result, text, caps);
  }

  /** Under a share of its own size a result comes back byte for byte exactly when it keeps itself. */
  lemma OwnSizeKeeps(result: ToolResult, cap: int64, caps: Caps, text: string)
    requires Utf8.Valid(result.output) && text == ModelResultText(result, cap, caps) && |text| <= INT64_MAX
    ensures IsPreserved(result, text, caps) <==> KeepsItself(result, cap, caps)
  {
    var limit, size := Limit(cap, caps), |ModelHint(result)|;
    if limit <= 0 || |result.output| + size <= limit {
      UncutKeepsItself(result, cap, caps, text);
    } else if size >= limit {
      HintKeepsItself(result, cap, caps, text);
    } else {
      var cut := OutputBuffer.HeadTailOf(result.output, Room(result, limit));
      CutText(result, cap, caps, text, cut);
      CutKeepsItself(result, cap, caps, text, cut);
    }
  }

  /** Whatever its bytes, it does when it filled its limit. */
  lemma FullKeepsItself(result: ToolResult, cap: int64, caps: Caps)
    requires |ModelResultText(result, cap, caps)| == Limit(cap, caps) > 0
    ensures OwnShare(result, ModelResultText(result, cap, caps), caps) == ModelResultText(result, cap, caps)
  {
  }

  /** As single-byte characters do. */
  lemma SingleBytesKeepThemselves(result: ToolResult, cap: int64, caps: Caps)
    requires Recut.SingleBytes(result.output) && |ModelHint(result)| < Limit(cap, caps)
    requires |result.output| + |ModelHint(result)| > Limit(cap, caps)
    ensures |ModelResultText(result, cap, caps)| == Limit(cap, caps)
  {
    Recut.SingleBytesFillCap(result.output, Limit(cap, caps) - |ModelHint(result)|);
  }

  // ---------------------------------------------------------------- sums

  function Sum(s: seq<nat>): nat {
    if s == [] then 0 else Sum(s[..|s| - 1]) + s[|s| - 1]
  }

  lemma {:induction false} SumUpdate(s: seq<nat>, i: nat, v: nat)
    requires i < |s|
    ensures Sum(s[i := v]) == Sum(s) - s[i] + v
  {
    var last := |s| - 1;
    if i == last {
      assert s[i := v][..last] == s[..last];
    } else {
      assert s[i := v][..last] == s[..last][i := v];
      SumUpdate(s[..last], i, v);
    }
  }

  lemma {:induction false} SumIsMonotone(s: seq<nat>, t: seq<nat>)
    requires |s| == |t| && forall i | 0 <= i < |s| :: s[i] <= t[i]
    ensures Sum(s) <= Sum(t)
  {
    if s != [] {
      SumIsMonotone(s[..|s| - 1], t[..|t| - 1]);
    }
  }

  lemma {:induction false} SumIsStrict(s: seq<nat>, t: seq<nat>, i: nat)
    requires |s| == |t| && forall k | 0 <= k < |s| :: s[k] <= t[k]
    requires i < |s| && s[i] < t[i]
    ensures Sum(s) < Sum(t)
  {
    SumUpdate(s, i, t[i]);
    SumIsMonotone(s[i := t[i]], t);
  }

  lemma {:induction false} SumOfZeros(s: seq<nat>)
    requires forall i | 0 <= i < |s| :: s[i] == 0
    ensures Sum(s) == 0
  {
    if s != [] {
      SumOfZeros(s[..|s| - 1]);
    }
  }

  // ---------------------------------------------------------------- the split of a budget

  /** The order shares are given out in: by size, then by position. */
  predicate Before(sizes: seq<nat>, i: nat, j: nat)
    requires i < |sizes| && j < |sizes|
  {
    sizes[i] < sizes[j] || (sizes[i] == sizes[j] && i < j)
  }

  /** A share that was cut is at least every other share minus one, and at least every later one. */
  predicate Fair(sizes: seq<nat>, shares: seq<nat>)
    requires |shares| == |sizes|
  {
    forall i, j | 0 <= i < |sizes| && 0 <= j < |sizes| && shares[i] < sizes[i] ::
      shares[j] <= shares[i] + 1 && (Before(sizes, i, j) ==> shares[j] <= shares[i])
  }

  predicate FairSplit(sizes: seq<nat>, budget: nat, shares: seq<nat>) {
    && |shares| == |sizes|
    && Sum(shares) == budget
    && (forall i | 0 <= i < |sizes| :: shares[i] <= sizes[i])
    && Fair(sizes, shares)
  }

  lemma NoneSmaller(sizes: seq<nat>, budget: nat, a: seq<nat>, b: seq<nat>)
    requires FairSplit(sizes, budget, a) && FairSplit(sizes, budget, b)
    ensures forall i | 0 <= i < |sizes| :: a[i] >= b[i]
  {
    forall i | 0 <= i < |sizes|
      ensures a[i] >= b[i]
    {
      if a[i] < b[i] {
        if forall j | 0 <= j < |a| :: a[j] <= b[j] {
          SumIsStrict(a, b, i);
        }
      }
    }
  }

  /** There is one such split: the properties above determine every share. */
  lemma FairSplitIsUnique(sizes: seq<nat>, budget: nat, a: seq<nat>, b: seq<nat>)
    requires FairSplit(sizes, budget, a) && FairSplit(sizes, budget, b)
    ensures a == b
  {
    NoneSmaller(sizes, budget, a, b);
    NoneSmaller(sizes, budget, b, a);
  }

  ghost predicate Ranking(order: seq<nat>, rank: seq<nat>) {
    && |rank| == |order|
    && (forall k | 0 <= k < |order| :: order[k] < |order| && rank[order[k]] == k)
    && (forall i | 0 <= i < |rank| :: rank[i] < |order| && order[rank[i]] == i)
  }

  predicate SortedUpTo(sizes: seq<nat>, order: seq<nat>, end: nat, loose: nat)
    requires end <= |order| && forall k | 0 <= k < |order| :: order[k] < |sizes|
  {
    forall p, q | 0 <= p < q < end && q != loose :: Before(sizes, order[p], order[q])
  }

  /** One step of an insertion: the loose position moves down past a later one. */
  lemma SwapKeepsSorted(sizes: seq<nat>, order: seq<nat>, rank: seq<nat>, end: nat, j: nat)
    requires |order| == |sizes| && 0 < j < end <= |order| && Ranking(order, rank)
    requires SortedUpTo(sizes, order, end, j) && Before(sizes, order[j], order[j - 1])
    ensures var swapped := order[j := order[j - 1]][j - 1 := order[j]];
            && Ranking(swapped, rank[order[j] := j - 1][order[j - 1] := j])
            && SortedUpTo(sizes, swapped, end, j - 1)
  {
    assert rank[order[j]] == j && rank[order[j - 1]] == j - 1;
  }

  /** Sorts the positions in place by size; `rank` witnesses that none is lost or repeated. */
  method SortBySize(order: array<nat>, sizes: seq<nat>) returns (ghost rank: seq<nat>)
    requires order.Length == |sizes|
    requires forall k | 0 <= k < order.Length :: order[k] == k
    modifies order
    ensures Ranking(order[..], rank)
    ensures SortedUpTo(sizes, order[..], order.Length, order.Length)
  {
    rank := order[..];
    var i := 0;
    while i < order.Length
      invariant 0 <= i <= order.Length
      invariant Ranking(order[..], rank)
      invariant SortedUpTo(sizes, order[..], i, i)
    {
      var j := i;
      while j > 0 && Before(sizes, order[j], order[j - 1])
        invariant 0 <= j <= i
        invariant Ranking(order[..], rank)
        invariant SortedUpTo(sizes, order[..], i + 1, j)
      {
        SwapKeepsSorted(sizes, order[..], rank, i + 1, j);
        ghost var swapped := order[..][j := order[j - 1]][j - 1 := order[j]];
        rank := rank[order[j] := j - 1][order[j - 1] := j];
        order[j], order[j - 1] := order[j - 1], order[j];
        assert order[..] == swapped;
        j := j - 1;
      }
      Inserted(sizes, order[..], rank, i + 1, j);
      i := i + 1;
    }
  }

  /** A loose position that is not before its neighbour is in place. */
  lemma Inserted(sizes: seq<nat>, order: seq<nat>, rank: seq<nat>, end: nat, j: nat)
    requires |order| == |sizes| && j < end <= |order| && Ranking(order, rank)
    requires SortedUpTo(sizes, order, end, j)
    requires j == 0 || !Before(sizes, order[j], order[j - 1])
    ensures SortedUpTo(sizes, order, end, end)
  {
    if j > 0 {
      assert rank[order[j]] == j && rank[order[j - 1]] == j - 1;
      assert Before(sizes, order[j - 1], order[j]);
      assert forall p | 0 <= p < j - 1 :: Before(sizes, order[p], order[j - 1]);
    }
  }

  // ---------------------------------------------------------------- water-filling

  lemma MulIsMonotone(a: int, b: int, d: nat)
    ensures a <= b ==> a * d <= b * d
  {
    assert a <= b ==> (b - a) * d >= 0;
    assert b * d == a * d + (b - a) * d;
  }

  lemma QuotientBounds(x: nat, d: nat, level: nat)
    requires d > 0 && level * d <= x
    ensures level <= x / d && x / d * d + x % d == x
  {
    MulIsMonotone(x / d + 1, level, d);
  }

  /** The share of the result at `p` once those before `start` kept their size. */
  function EvenShare(p: int, start: int, share: nat, extra: nat): nat {
    if p - start < extra then share + 1 else share
  }

  /** Kept sizes up to the share, then the share and one extra for the first few: that is fair. */
  lemma TwoPhasesAreFair(sizes: seq<nat>, order: seq<nat>, rank: seq<nat>, shares: seq<nat>,
                         start: nat, share: nat, extra: nat)
    requires |order| == |sizes| == |shares| && Ranking(order, rank)
    requires SortedUpTo(sizes, order, |order|, |order|) && start <= |order|
    requires forall p | 0 <= p < start :: shares[order[p]] == sizes[order[p]] <= share
    requires forall p | start <= p < |order| :: sizes[order[p]] > share
    requires forall p | start <= p < |order| :: shares[order[p]] == EvenShare(p, start, share, extra)
    ensures (forall i | 0 <= i < |sizes| :: shares[i] <= sizes[i]) && Fair(sizes, shares)
  {
    forall i | 0 <= i < |sizes|
      ensures shares[i] <= sizes[i]
    {
      assert order[rank[i]] == i;
    }
    forall i, j | 0 <= i < |sizes| && 0 <= j < |sizes| && shares[i] < sizes[i]
      ensures shares[j] <= shares[i] + 1 && (Before(sizes, i, j) ==> shares[j] <= shares[i])
    {
      var p, q := rank[i], rank[j];
      assert order[p] == i && order[q] == j;
      if q < p {
        assert Before(sizes, order[q], order[p]);
      }
    }
  }

  /** The results before `start` kept their size, at most `level`; those from `end` on have no
      share yet; the ones between were given an even share. */
  ghost predicate Given(sizes: seq<nat>, order: seq<nat>, shares: seq<nat>,
                        start: nat, end: nat, level: nat, extra: nat)
    requires |order| == |sizes| == |shares| && start <= end <= |order|
    requires forall p | 0 <= p < |order| :: order[p] < |order|
  {
    && (forall p | 0 <= p < start :: shares[order[p]] == sizes[order[p]] <= level)
    && (forall p | start <= p < end :: shares[order[p]] == EvenShare(p, start, level, extra))
    && (forall p | end <= p < |order| :: shares[order[p]] == 0)
  }

  /** Giving the next result its size. */
  lemma GiveSize(sizes: seq<nat>, order: seq<nat>, rank: seq<nat>, shares: seq<nat>, end: nat, level: nat)
    requires |order| == |sizes| == |shares| && end < |order| && Ranking(order, rank)
    requires Given(sizes, order, shares, end, end, level, 0)
    ensures var size := sizes[order[end]]; var given := shares[order[end] := size];
            && Sum(given) == Sum(shares) + size
            && Given(sizes, order, given, end + 1, end + 1, if level < size then size else level, 0)
  {
    assert rank[order[end]] == end;
    SumUpdate(shares, order[end], sizes[order[end]]);
  }

  /** Giving the next result an even share. */
  lemma GiveShare(sizes: seq<nat>, order: seq<nat>, rank: seq<nat>, shares: seq<nat>,
                  start: nat, end: nat, level: nat, extra: nat)
    requires |order| == |sizes| == |shares| && start <= end < |order| && Ranking(order, rank)
    requires Given(sizes, order, shares, start, end, level, extra)
    ensures var share := EvenShare(end, start, level, extra); var given := shares[order[end] := share];
            && Sum(given) == Sum(shares) + share
            && Given(sizes, order, given, start, end + 1, level, extra)
  {
    assert rank[order[end]] == end;
    SumUpdate(shares, order[end], EvenShare(end, start, level, extra));
  }

  /** What `count` results are given when the first `extra` of them get one more than the share. */
  function EvenTotal(count: nat, share: nat, extra: nat): nat {
    if count == 0 then 0
    else if extra > 0 then share + 1 + EvenTotal(count - 1, share, extra - 1)
    else share + EvenTotal(count - 1, share, 0)
  }

  lemma {:induction false} EvenTotalIs(count: nat, share: nat, extra: nat)
    requires extra <= count
    ensures EvenTotal(count, share, extra) == share * count + extra
  {
    if count > 0 {
      EvenTotalIs(count - 1, share, if extra > 0 then extra - 1 else 0);
      assert share * count == share * (count - 1) + share;
    }
  }

  /** An even share of what remains, remainder included, uses it up. */
  lemma EvenSharesUseUp(remaining: nat, count: nat)
    requires count > 0
    ensures EvenTotal(count, remaining / count, remaining % count) == remaining
  {
    EvenTotalIs(count, remaining / count, remaining % count);
    QuotientBounds(remaining, count, 0);
  }

  /** Gives each result from `start` on the share, and one more to the first few of them. */
  method FillEvenly(sizes: seq<nat>, order: seq<nat>, ghost rank: seq<nat>, before: seq<nat>,
                    start: nat, remaining: nat) returns (shares: seq<nat>)
    requires |order| == |sizes| == |before| && start < |sizes|
    requires Ranking(order, rank) && SortedUpTo(sizes, order, |order|, |order|)
    requires Given(sizes, order, before, start, start, remaining / (|sizes| - start), 0)
    requires sizes[order[start]] > remaining / (|sizes| - start)
    ensures FairSplit(sizes, Sum(before) + remaining, shares)
  {
    shares := before;
    var share: nat, extra: nat := remaining / (|sizes| - start), remaining % (|sizes| - start);
    ghost var remainder := extra;
    EvenSharesUseUp(remaining, |sizes| - start);
    var position := start;
    while position < |order|
      invariant start <= position <= |order| && |shares| == |order|
      invariant extra == if position - start < remainder then remainder - (position - start) else 0
      invariant Sum(shares) + EvenTotal(|order| - position, share, extra) == Sum(before) + remaining
      invariant Given(sizes, order, shares, start, position, share, remainder)
    {
      GiveShare(sizes, order, rank, shares, start, position, share, remainder);
      var given := share;
      if extra > 0 {
        given := given + 1;
        extra := extra - 1;
      }
      shares := shares[order[position] := given];
      position := position + 1;
    }
    assert forall p | start < p < |order| :: Before(sizes, order[start], order[p]);
    TwoPhasesAreFair(sizes, order, rank, shares, start, share, remainder);
  }

  /** Divides a budget smaller than the total: small results keep their size, the rest share evenly. */
  method Divide(sizes: seq<nat>, budget: nat) returns (shares: seq<nat>)
    requires Sum(sizes) > budget
    ensures FairSplit(sizes, budget, shares)
  {
    var positions := new nat[|sizes|](i => i);
    ghost var rank := SortBySize(positions, sizes);
    var order := positions[..];
    shares := seq(|sizes|, _ => 0);
    SumOfZeros(shares);
    var remaining: nat, position := budget, 0;
    ghost var level: nat := 0;
    while position < |order|
      invariant 0 <= position <= |order| == |shares|
      invariant Sum(shares) + remaining == budget
      invariant Given(sizes, order, shares, position, position, level, 0)
      invariant level * (|order| - position) <= remaining
    {
      var count := |order| - position;
      var share := remaining / count;
      QuotientBounds(remaining, count, level);
      var size := sizes[order[position]];
      if size > share {
        shares := FillEvenly(sizes, order, rank, shares, position, remaining);
        return;
      }
      GiveSize(sizes, order, rank, shares, position, level);
      shares := shares[order[position] := size];
      level := if level < size then size else level;
      LevelStaysBelow(level, share, count, remaining, size);
      remaining := remaining - size;
      position := position + 1;
    }
    AllKept(sizes, order, rank, shares, level);
    assert false;
  }

  lemma LevelStaysBelow(level: nat, share: nat, count: nat, remaining: nat, size: nat)
    requires count > 0 && share * count <= remaining && size <= level <= share
    ensures size <= remaining && level * (count - 1) <= remaining - size
  {
    MulIsMonotone(level, share, count - 1);
    assert share * count == share * (count - 1) + share;
    assert share * (count - 1) >= 0;
  }

  lemma AllKept(sizes: seq<nat>, order: seq<nat>, rank: seq<nat>, shares: seq<nat>, level: nat)
    requires |order| == |sizes| == |shares| && Ranking(order, rank)
    requires Given(sizes, order, shares, |order|, |order|, level, 0)
    ensures shares == sizes
  {
    forall i | 0 <= i < |sizes|
      ensures shares[i] == sizes[i]
    {
      assert order[rank[i]] == i;
    }
  }

  // ---------------------------------------------------------------- a batch

  /** Every result under its own limit only. */
  function Uncut(tasks: seq<CallTask>, caps: Caps): (texts: seq<string>)
    ensures |texts| == |tasks|
  {
    seq(|tasks|, i requires 0 <= i < |tasks| =>
      ModelResultText(tasks[i].result, ResultCharLimit(tasks[i]), caps))
  }

  function Sizes(texts: seq<string>): (sizes: seq<nat>)
    ensures |sizes| == |texts| && forall i | 0 <= i < |texts| :: sizes[i] == |texts[i]|
  {
    seq(|texts|, i requires 0 <= i < |texts| => |texts[i]|)
  }

  /** A window wider than the batch's own raises it. */
  function WidestWindow(tasks: seq<CallTask>, budget: int64): (b: int64)
    ensures b >= budget && forall k | 0 <= k < |tasks| :: b >= ResultCharLimit(tasks[k])
    ensures b == budget || exists k :: 0 <= k < |tasks| && b == ResultCharLimit(tasks[k])
  {
    if tasks == [] then budget
    else
      var rest := WidestWindow(tasks[..|tasks| - 1], budget);
      var limit := ResultCharLimit(tasks[|tasks| - 1]);
      if rest < limit then limit else rest
  }

  /** The budget of a batch: the caller's, or the configured one widened by any larger window. */
  function BatchBudget(tasks: seq<CallTask>, budget: int64, caps: Caps): int64 {
    if budget >= 0 then budget
    else if caps.batch > 0 then WidestWindow(tasks, caps.batch)
    else caps.batch
  }

  /** A call's own limit comes before its tool's, and that before the configured one. */
  lemma LimitInForce(task: CallTask, caps: Caps)
    ensures Limit(ResultCharLimit(task), caps)
            == if task.resultChars >= 0 then task.resultChars else if task.toolChars >= 0 then task.toolChars else caps.result
  {
  }

  /** A batch has the budget it is given. Without one it has the configured one, or the largest limit of
      its calls when that is larger; a configured one of nothing is no bound. */
  lemma BatchBudgetIs(tasks: seq<CallTask>, requested: int64, caps: Caps)
    ensures var b := BatchBudget(tasks, requested, caps);
            && (requested >= 0 ==> b == requested)
            && (requested < 0 && caps.batch <= 0 ==> b == caps.batch)
            && (requested < 0 && caps.batch > 0 ==>
                  && b >= caps.batch && (forall k | 0 <= k < |tasks| :: b >= ResultCharLimit(tasks[k]))
                  && (b == caps.batch || exists k :: 0 <= k < |tasks| && b == ResultCharLimit(tasks[k])))
  {
  }

  /** What its share leaves of a result: never more bytes, and all of it when it fits. */
  function ShareText(task: CallTask, share: nat, caps: Caps): (text: string)
    requires share <= INT64_MAX
    ensures |text| <= share && (share > 0 ==> text == ModelResultText(task.result, share, caps))
    ensures |task.result.output + ModelHint(task.result)| <= share ==>
              text == task.result.output + ModelHint(task.result)
  {
    if share == 0 then "" else ModelResultText(task.result, share, caps)
  }

  lemma {:induction false} PartOfSum(s: seq<nat>, i: nat)
    requires i < |s|
    ensures s[i] <= Sum(s)
  {
    if i < |s| - 1 {
      PartOfSum(s[..|s| - 1], i);
    }
  }

  /** What becomes of a small result, one whose share is its size: it comes back byte for byte when it
      is whole or filled the limit in force, and over well-formed output exactly when it keeps itself. */
  predicate PreservesSmall(task: CallTask, uncut: string, text: string, caps: Caps) {
    var cap := ResultCharLimit(task);
    && (uncut == task.result.output + ModelHint(task.result) || |uncut| == Limit(cap, caps) ==> text == uncut)
    && (Utf8.Valid(task.result.output) ==> (text == uncut <==> KeepsItself(task.result, cap, caps)))
  }

  lemma SmallIsPreserved(task: CallTask, share: nat, caps: Caps)
    requires share <= INT64_MAX && share == |ModelResultText(task.result, ResultCharLimit(task), caps)|
    ensures PreservesSmall(task, ModelResultText(task.result, ResultCharLimit(task), caps),
                           ShareText(task, share, caps), caps)
  {
    var cap := ResultCharLimit(task);
    var uncut := ModelResultText(task.result, cap, caps);
    assert ShareText(task, share, caps) == OwnShare(task.result, uncut, caps);
    if share == Limit(cap, caps) && share > 0 {
      FullKeepsItself(task.result, cap, caps);
    }
    if uncut == task.result.output + ModelHint(task.result) {
      WholeKeepsItself(task.result, uncut, caps);
    }
    if Utf8.Valid(task.result.output) {
      OwnSizeKeeps(task.result, cap, caps, uncut);
    }
  }

  method ChooseBudget(tasks: seq<CallTask>, requested: int64, caps: Caps) returns (budget: int64)
    ensures budget == BatchBudget(tasks, requested, caps)
  {
    budget := requested;
    if budget < 0 {
      budget := caps.batch;
      if budget > 0 {
        for k := 0 to |tasks|
          invariant budget == WidestWindow(tasks[..k], caps.batch)
        {
          assert tasks[..k + 1][..k] == tasks[..k];
          var limit := ResultCharLimit(tasks[k]);
          budget := if budget < limit then limit else budget;
        }
        assert tasks[..|tasks|] == tasks;
      }
    }
  }

  /** The texts a batch hands to the model total at most its budget, hints included. When the
      results are over it, each is cut to its share of the one fair split. */
  method ModelFacingToolResults(tasks: seq<CallTask>, requested: int64, caps: Caps)
    returns (results: seq<string>, ghost shares: seq<nat>)
    ensures |results| == |tasks|
    ensures var budget := BatchBudget(tasks, requested, caps);
            && (budget > 0 ==> Sum(Sizes(results)) <= budget)
            && (budget <= 0 || Sum(Sizes(Uncut(tasks, caps))) <= budget ==> results == Uncut(tasks, caps))
            && (forall i | 0 <= i < |tasks| ::
                  Uncut(tasks, caps)[i] == ModelResultText(tasks[i].result, ResultCharLimit(tasks[i]), caps))
            && (0 < budget < Sum(Sizes(Uncut(tasks, caps))) ==>
                  && FairSplit(Sizes(Uncut(tasks, caps)), budget, shares)
                  && forall i | 0 <= i < |tasks| ::
                       shares[i] <= INT64_MAX && results[i] == ShareText(tasks[i], shares[i], caps))
            && (0 < budget < Sum(Sizes(Uncut(tasks, caps))) ==>
                  forall i | 0 <= i < |tasks| && shares[i] == |Uncut(tasks, caps)[i]| ::
                    PreservesSmall(tasks[i], Uncut(tasks, caps)[i], results[i], caps))
  {
    shares := [];
    var budget := ChooseBudget(tasks, requested, caps);
    results := Uncut(tasks, caps);
    var sizes := Sizes(results);
    var total := TotalSize(sizes);
    if budget <= 0 || total <= budget {
      return;
    }
    var cut := Divide(sizes, budget);
    shares := cut;
    forall i | 0 <= i < |cut|
      ensures cut[i] <= INT64_MAX
    {
      PartOfSum(cut, i);
    }
    results := seq(|tasks|, i requires 0 <= i < |tasks| => ShareText(tasks[i], cut[i], caps));
    SumIsMonotone(Sizes(results), cut);
    forall i | 0 <= i < |tasks| && cut[i] == |Uncut(tasks, caps)[i]|
      ensures PreservesSmall(tasks[i], Uncut(tasks, caps)[i], results[i], caps)
    {
      SmallIsPreserved(tasks[i], cut[i], caps);
    }
  }

  /** The saturated total decides like the exact one against any 63-bit budget. */
  method TotalSize(sizes: seq<nat>) returns (total: nat)
    ensures total == if Sum(sizes) <= SIZE_MAX then Sum(sizes) else SIZE_MAX
  {
    total := 0;
    for k := 0 to |sizes|
      invariant total == if Sum(sizes[..k]) <= SIZE_MAX then Sum(sizes[..k]) else SIZE_MAX
    {
      assert sizes[..k + 1][..k] == sizes[..k];
      total := SaturatingAdd(total, sizes[k]);
    }
    assert sizes[..|sizes|] == sizes;
  }
}

/** Interleaved reasoning parts spliced into one text, with a span per part. */
module ReasoningStream {

  datatype Fragment = Fragment(part: string, text: string, complete: bool, snapshot: bool)

  /** `offset` may only leave the text after an unsafe replacement; a size would wrap there. */
  datatype Span = Span(offset: int, bytes: nat, complete: bool)

  datatype Reasoning = Reasoning(text: string, parts: map<string, Span>)

  /** What a client replays: text to append at `offset`, or the whole text anew. */
  datatype Patch = Patch(reset: bool, offset: int, text: string)

  predicate SpanInBounds(text: string, span: Span) {
    0 <= span.offset && span.offset + span.bytes <= |text|
  }

  predicate InBounds(s: Reasoning) {
    forall k | k in s.parts :: SpanInBounds(s.text, s.parts[k])
  }

  function Slice(text: string, span: Span): string
    requires SpanInBounds(text, span)
  {
    text[span.offset..span.offset + span.bytes]
  }

  /** How a splice at `offset` moves the span of another part. */
  function Shifted(other: Span, offset: int, erase: nat, added: nat): Span {
    if other.offset >= offset then other.(offset := other.offset - erase + added) else other
  }

  /** A change of one part: what it brings and how much it replaces. */
  datatype Change = Change(separator: string, addition: string, erase: nat)

  function ChangeOffset(span: Span, change: Change): int {
    if change.erase > 0 then span.offset else span.offset + span.bytes
  }

  function ChangedText(text: string, offset: int, change: Change): string
    requires 0 <= offset && offset + change.erase <= |text|
  {
    text[..offset] + (change.separator + change.addition) + text[offset + change.erase..]
  }

  function ChangedParts(parts: map<string, Span>, part: string, change: Change, complete: bool): (r: map<string, Span>)
    requires part in parts && change.erase <= parts[part].bytes
    ensures r.Keys == parts.Keys
  {
    var span := parts[part];
    var offset := ChangeOffset(span, change);
    map k | k in parts ::
      if k == part then
        Span(span.offset + |change.separator|, span.bytes - change.erase + |change.addition|, complete)
      else Shifted(parts[k], offset, change.erase, |change.separator| + |change.addition|)
  }

  datatype Decision = Ignore | Apply(change: Change)

  /** Whether a fragment of a known part changes it, and how. */
  function Decide(previous: string, span: Span, f: Fragment): Decision
    requires |previous| == span.bytes
  {
    if span.complete && !f.complete then Ignore
    else if f.snapshot then
      if f.text == previous && span.complete == f.complete then Ignore
      else if previous <= f.text then Apply(Change("", f.text[span.bytes..], 0))
      else Apply(Change("", f.text, span.bytes))
    else if span.complete then Ignore
    else Apply(Change("", f.text, 0))
  }

  function Splice(s: Reasoning, part: string, change: Change, complete: bool): (r: Reasoning)
    requires InBounds(s) && part in s.parts && change.erase <= s.parts[part].bytes
  {
    Reasoning(ChangedText(s.text, ChangeOffset(s.parts[part], change), change),
              ChangedParts(s.parts, part, change, complete))
  }

  function PatchOf(s: Reasoning, part: string, change: Change): Patch
    requires InBounds(s) && part in s.parts && change.erase <= s.parts[part].bytes
  {
    var offset := ChangeOffset(s.parts[part], change);
    if offset != |s.text| || change.erase > 0
    then Patch(true, 0, ChangedText(s.text, offset, change))
    else Patch(false, offset, change.separator + change.addition)
  }

  /** A part enters at the end, after a blank line when anything is there. */
  function Entered(s: Reasoning, part: string): Reasoning {
    s.(parts := s.parts[part := Span(|s.text|, 0, false)])
  }

  function EntryChange(s: Reasoning, f: Fragment): Change {
    Change(if s.text != "" then "\n\n" else "", f.text, 0)
  }

  /** One fragment. */
  function Step(s: Reasoning, f: Fragment): (r: Reasoning)
    requires InBounds(s)
  {
    if f.part !in s.parts then
      if f.text == "" then s
      else Splice(Entered(s, f.part), f.part, EntryChange(s, f), f.complete)
    else
      var span := s.parts[f.part];
      match Decide(Slice(s.text, span), span, f)
      case Ignore => s
      case Apply(change) => Splice(s, f.part, change, f.complete)
  }

  // ---------------------------------------------------------------- each part alone

  datatype Part = Absent | Present(text: string, complete: bool)

  /** What one part's own fragments make of it: append, replace by a snapshot, freeze when complete. */
  function StepPart(p: Part, f: Fragment): Part {
    match p
    case Absent => if f.text == "" then Absent else Present(f.text, f.complete)
    case Present(text, complete) =>
      if complete && !f.complete then p
      else if f.snapshot then Present(f.text, f.complete)
      else if complete then p
      else Present(text + f.text, f.complete)
  }

  /** The part named `part` after a history, its own fragments alone. */
  function PartAfter(history: seq<Fragment>, part: string): Part {
    if history == [] then Absent
    else
      var last := history[|history| - 1];
      var before := PartAfter(history[..|history| - 1], part);
      if last.part == part then StepPart(before, last) else before
  }

  predicate Disjoint(a: Span, b: Span) {
    a.offset + a.bytes <= b.offset || b.offset + b.bytes <= a.offset
  }

  predicate Holds(s: Reasoning, k: string, bytes: string) {
    k in s.parts && SpanInBounds(s.text, s.parts[k]) && Slice(s.text, s.parts[k]) == bytes
  }

  predicate WellPlaced(s: Reasoning) {
    && InBounds(s)
    && forall k, l | k in s.parts && l in s.parts && k != l :: Disjoint(s.parts[k], s.parts[l])
  }

  /** Spans are in bounds and disjoint, and each holds exactly its part. */
  ghost predicate Good(s: Reasoning, history: seq<Fragment>) {
    && WellPlaced(s)
    && forall k :: PartHeld(s, history, k)
  }

  ghost predicate PartHeld(s: Reasoning, history: seq<Fragment>, k: string) {
    match PartAfter(history, k)
    case Absent => k !in s.parts
    case Present(text, complete) => Holds(s, k, text) && s.parts[k].complete == complete
  }

  /** Another part, emptied before, starts where this one does. */
  predicate HasEmptyTwin(s: Reasoning, part: string)
    requires part in s.parts
  {
    exists z :: z in s.parts && z != part && s.parts[z].bytes == 0 && s.parts[z].offset == s.parts[part].offset
  }

  /** Where replacing the part by `length` bytes moves such a twin is outside every other span. */
  predicate TwinLandsOutside(s: Reasoning, part: string, length: nat)
    requires part in s.parts
  {
    var span := s.parts[part];
    var target := span.offset - span.bytes + length;
    && length <= span.bytes && 0 <= target
    && (length < span.bytes ==>
          forall q | q in s.parts && q != part :: !(s.parts[q].offset < target < s.parts[q].offset + s.parts[q].bytes))
  }

  predicate SafeChange(s: Reasoning, part: string, change: Change)
    requires part in s.parts
  {
    change.erase > 0 && HasEmptyTwin(s, part) ==> TwinLandsOutside(s, part, |change.addition|)
  }

  /** The fragment does not replace a part that an emptied one shares its start with, or does so
      harmlessly. A caller can tell before the call. */
  predicate Safe(s: Reasoning, f: Fragment)
    requires InBounds(s)
  {
    f.part in s.parts ==>
      var span := s.parts[f.part];
      match Decide(Slice(s.text, span), span, f)
      case Ignore => true
      case Apply(change) => SafeChange(s, f.part, change)
  }

  /** A change erases all of a part or nothing, and only a part that enters brings a separator. */
  predicate ProperChange(span: Span, change: Change) {
    && (change.erase == 0 || change.erase == span.bytes)
    && (change.separator != "" ==> span.bytes == 0 && change.erase == 0)
  }

  lemma SliceOfPrefix(s: string, n: nat, from: nat, to: nat)
    requires from <= to <= n <= |s|
    ensures s[..n][from..to] == s[from..to]
  {
  }

  lemma SliceOfSuffix(s: string, n: nat, from: nat, to: nat)
    requires n <= from <= to <= |s|
    ensures s[n..][from - n..to - n] == s[from..to]
  {
  }

  lemma SplicedSuffix(head: string, middle: string, rest: string)
    ensures (head + middle + rest)[|head| + |middle|..] == rest
    ensures (head + middle + rest)[..|head|] == head
  {
  }

  /** A span wholly before or wholly after a splice keeps its bytes. */
  lemma OtherKeepsBytes(text: string, offset: nat, change: Change, other: Span)
    requires offset + change.erase <= |text| && SpanInBounds(text, other)
    requires (other.offset < offset && other.offset + other.bytes <= offset) || offset + change.erase <= other.offset
    ensures var moved := Shifted(other, offset, change.erase, |change.separator| + |change.addition|);
            var changed := ChangedText(text, offset, change);
            SpanInBounds(changed, moved) && Slice(changed, moved) == Slice(text, other)
  {
    var middle, changed := change.separator + change.addition, ChangedText(text, offset, change);
    var start, end := other.offset, other.offset + other.bytes;
    SplicedSuffix(text[..offset], middle, text[offset + change.erase..]);
    if start < offset {
      SliceOfPrefix(text, offset, start, end);
      SliceOfPrefix(changed, offset, start, end);
    } else {
      var shift := |middle| - change.erase;
      SliceOfSuffix(text, offset + change.erase, start, end);
      SliceOfSuffix(changed, offset + |middle|, start + shift, end + shift);
    }
  }

  lemma OwnBytes(text: string, span: Span, change: Change)
    requires SpanInBounds(text, span) && ProperChange(span, change)
    ensures var offset := ChangeOffset(span, change);
            var changed := ChangedText(text, offset, change);
            var own := Span(span.offset + |change.separator|, span.bytes - change.erase + |change.addition|, true);
            && SpanInBounds(changed, own)
            && Slice(changed, own) == (if change.erase > 0 then "" else Slice(text, span)) + change.addition
  {
  }

  /** Where the other spans are: clear of the splice, or empty twins of the replaced part. */
  lemma OthersAreClear(s: Reasoning, part: string, change: Change, k: string)
    requires WellPlaced(s) && part in s.parts && ProperChange(s.parts[part], change)
    requires k in s.parts && k != part
    ensures var other, offset := s.parts[k], ChangeOffset(s.parts[part], change);
            || (other.offset < offset && other.offset + other.bytes <= offset)
            || offset + change.erase <= other.offset
            || (change.erase > 0 && other.bytes == 0 && other.offset == offset)
  {
    assert Disjoint(s.parts[k], s.parts[part]);
  }

  lemma OtherKeepsSlice(s: Reasoning, part: string, change: Change, complete: bool, k: string)
    requires WellPlaced(s) && part in s.parts && ProperChange(s.parts[part], change)
    requires SafeChange(s, part, change) && k in s.parts && k != part
    ensures Holds(Splice(s, part, change, complete), k, Slice(s.text, s.parts[k]))
  {
    OthersAreClear(s, part, change, k);
    if change.erase > 0 && s.parts[k].bytes == 0 && s.parts[k].offset == s.parts[part].offset {
      assert HasEmptyTwin(s, part);
    } else {
      OtherKeepsBytes(s.text, ChangeOffset(s.parts[part], change), change, s.parts[k]);
    }
  }

  lemma OwnSlice(s: Reasoning, part: string, change: Change, complete: bool)
    requires WellPlaced(s) && part in s.parts && ProperChange(s.parts[part], change)
    ensures Holds(Splice(s, part, change, complete), part,
                  (if change.erase > 0 then "" else Slice(s.text, s.parts[part])) + change.addition)
  {
    OwnBytes(s.text, s.parts[part], change);
  }

  lemma SpliceKeepsDisjoint(s: Reasoning, part: string, change: Change, complete: bool)
    requires WellPlaced(s) && part in s.parts && ProperChange(s.parts[part], change)
    requires SafeChange(s, part, change)
    ensures var r := Splice(s, part, change, complete);
            forall k, l | k in r.parts && l in r.parts && k != l :: Disjoint(r.parts[k], r.parts[l])
  {
    var r := Splice(s, part, change, complete);
    forall k, l | k in r.parts && l in r.parts && k != l
      ensures Disjoint(r.parts[k], r.parts[l])
    {
      assert Disjoint(s.parts[k], s.parts[l]);
      if k != part {
        OthersAreClear(s, part, change, k);
        if s.parts[k].bytes == 0 && s.parts[k].offset == s.parts[part].offset {
          assert HasEmptyTwin(s, part);
        }
      }
      if l != part {
        OthersAreClear(s, part, change, l);
        if s.parts[l].bytes == 0 && s.parts[l].offset == s.parts[part].offset {
          assert HasEmptyTwin(s, part);
        }
      }
    }
  }

  lemma SpliceIsWellPlaced(s: Reasoning, part: string, change: Change, complete: bool)
    requires WellPlaced(s) && part in s.parts && ProperChange(s.parts[part], change)
    requires SafeChange(s, part, change)
    ensures WellPlaced(Splice(s, part, change, complete))
  {
    SpliceKeepsDisjoint(s, part, change, complete);
    var r := Splice(s, part, change, complete);
    forall k | k in r.parts
      ensures SpanInBounds(r.text, r.parts[k])
    {
      if k == part {
        OwnSlice(s, part, change, complete);
      } else {
        OtherKeepsSlice(s, part, change, complete, k);
      }
    }
  }

  lemma PartAfterMore(history: seq<Fragment>, f: Fragment, k: string)
    ensures PartAfter(history + [f], k)
            == if k == f.part then StepPart(PartAfter(history, k), f) else PartAfter(history, k)
  {
    assert (history + [f])[..|history|] == history;
  }

  lemma SpliceHolds(s: Reasoning, history: seq<Fragment>, f: Fragment, from: Reasoning, change: Change, k: string)
    requires Good(s, history) && WellPlaced(from) && f.part in from.parts
    requires from.text == s.text && from.parts.Keys == s.parts.Keys + {f.part}
    requires forall k | k in s.parts && k != f.part :: from.parts[k] == s.parts[k]
    requires ProperChange(from.parts[f.part], change) && SafeChange(from, f.part, change)
    requires PartAfter(history + [f], f.part)
             == Present((if change.erase > 0 then "" else Slice(from.text, from.parts[f.part])) + change.addition, f.complete)
    ensures PartHeld(Splice(from, f.part, change, f.complete), history + [f], k)
  {
    assert PartHeld(s, history, k);
    PartAfterMore(history, f, k);
    if k == f.part {
      OwnSlice(from, k, change, f.complete);
    } else if k in s.parts {
      OtherKeepsSlice(from, f.part, change, f.complete, k);
    }
  }

  /** A splice that leaves its own part's text keeps the state good. */
  lemma SpliceIsGood(s: Reasoning, history: seq<Fragment>, f: Fragment, from: Reasoning, change: Change)
    requires Good(s, history) && WellPlaced(from) && f.part in from.parts
    requires from.text == s.text && from.parts.Keys == s.parts.Keys + {f.part}
    requires forall k | k in s.parts && k != f.part :: from.parts[k] == s.parts[k]
    requires ProperChange(from.parts[f.part], change) && SafeChange(from, f.part, change)
    requires PartAfter(history + [f], f.part)
             == Present((if change.erase > 0 then "" else Slice(from.text, from.parts[f.part])) + change.addition, f.complete)
    ensures Good(Splice(from, f.part, change, f.complete), history + [f])
  {
    SpliceIsWellPlaced(from, f.part, change, f.complete);
    forall k {
      SpliceHolds(s, history, f, from, change, k);
    }
  }

  /** The text a change leaves in a part is what the part's own fragments make of it. */
  lemma ChangeMakesPart(previous: string, span: Span, f: Fragment)
    requires |previous| == span.bytes && Decide(previous, span, f).Apply?
    ensures var change := Decide(previous, span, f).change;
            StepPart(Present(previous, span.complete), f)
            == Present((if change.erase > 0 then "" else previous) + change.addition, f.complete)
  {
    assert previous <= f.text ==> previous + f.text[|previous|..] == f.text;
    assert "" + f.text == f.text;
  }

  lemma UnchangedIsGood(s: Reasoning, history: seq<Fragment>, f: Fragment)
    requires Good(s, history) && PartAfter(history + [f], f.part) == PartAfter(history, f.part)
    ensures Good(s, history + [f])
  {
    forall k
      ensures PartHeld(s, history + [f], k)
    {
      PartAfterMore(history, f, k);
      assert PartHeld(s, history, k);
    }
  }

  lemma SafeStepIsGood(s: Reasoning, history: seq<Fragment>, f: Fragment)
    requires Good(s, history) && Safe(s, f)
    ensures Good(Step(s, f), history + [f])
  {
    assert PartHeld(s, history, f.part);
    PartAfterMore(history, f, f.part);
    if PartAfter(history + [f], f.part) == PartAfter(history, f.part) {
      UnchangedIsGood(s, history, f);
    }
    if f.part !in s.parts {
      if f.text != "" {
        assert "" + f.text == f.text;
        SpliceIsGood(s, history, f, Entered(s, f.part), EntryChange(s, f));
      }
    } else {
      var span := s.parts[f.part];
      var previous := Slice(s.text, span);
      match Decide(previous, span, f)
      case Ignore =>
      case Apply(change) =>
        ChangeMakesPart(previous, span, f);
        SpliceIsGood(s, history, f, s, change);
    }
  }

  lemma UnsafeStepIsNotWellPlaced(s: Reasoning, f: Fragment)
    requires InBounds(s) && !Safe(s, f)
    ensures !WellPlaced(Step(s, f))
  {
    var r, span := Step(s, f), s.parts[f.part];
    var z :| z in s.parts && z != f.part && s.parts[z].bytes == 0 && s.parts[z].offset == span.offset;
    var target := span.offset - span.bytes + |f.text|;
    assert r.parts[z] == s.parts[z].(offset := target);
    if |f.text| > span.bytes {
      assert !Disjoint(r.parts[z], r.parts[f.part]);
    } else if target >= 0 {
      var q :| q in s.parts && q != f.part && s.parts[q].offset < target < s.parts[q].offset + s.parts[q].bytes;
      assert r.parts[q] == s.parts[q];
      assert !Disjoint(r.parts[z], r.parts[q]);
    }
  }

  /** A fragment keeps every part's own text in place exactly when it is safe. */
  lemma StepIsGoodWhenSafe(s: Reasoning, history: seq<Fragment>, f: Fragment)
    requires Good(s, history)
    ensures Safe(s, f) <==> Good(Step(s, f), history + [f])
  {
    if Safe(s, f) {
      SafeStepIsGood(s, history, f);
    } else {
      UnsafeStepIsNotWellPlaced(s, f);
    }
  }

  // ---------------------------------------------------------------- whole runs

  const EMPTY := Reasoning("", map[])

  /** The state after a history, as long as every access stays in bounds. */
  function Run(history: seq<Fragment>): Reasoning {
    if history == [] then EMPTY
    else
      var before := Run(history[..|history| - 1]);
      if InBounds(before) then Step(before, history[|history| - 1]) else before
  }

  lemma RunMore(history: seq<Fragment>, f: Fragment)
    requires InBounds(Run(history))
    ensures Run(history + [f]) == Step(Run(history), f)
  {
    assert (history + [f])[..|history|] == history;
  }

  /** Fragment `n` is safe in the state before it. */
  ghost predicate SafeAt(history: seq<Fragment>, n: nat)
    requires n < |history|
  {
    InBounds(Run(history[..n])) && Safe(Run(history[..n]), history[n])
  }

  ghost predicate GoodAt(history: seq<Fragment>, n: nat)
    requires n <= |history|
  {
    Good(Run(history[..n]), history[..n])
  }

  lemma GoodNext(history: seq<Fragment>, n: nat)
    requires n < |history| && GoodAt(history, n)
    ensures SafeAt(history, n) <==> GoodAt(history, n + 1)
  {
    var before, f := history[..n], history[n];
    assert history[..n + 1] == before + [f];
    RunMore(before, f);
    StepIsGoodWhenSafe(Run(before), before, f);
  }

  lemma {:induction false} GoodUntil(history: seq<Fragment>, n: nat)
    requires n <= |history| && forall k | 0 <= k < n :: SafeAt(history, k)
    ensures GoodAt(history, n)
  {
    if n > 0 {
      GoodUntil(history, n - 1);
      GoodNext(history, n - 1);
    } else {
      assert history[..0] == [];
    }
  }

  /** Over every run: every part is in place after every fragment exactly when every fragment is safe in
      the state before it. */
  lemma RunIsGoodWhenSafe(history: seq<Fragment>)
    ensures (forall n | 0 <= n <= |history| :: GoodAt(history, n)) <==> forall n | 0 <= n < |history| :: SafeAt(history, n)
  {
    if forall n | 0 <= n < |history| :: SafeAt(history, n) {
      forall n | 0 <= n <= |history|
        ensures GoodAt(history, n)
      {
        GoodUntil(history, n);
      }
    }
    if forall n | 0 <= n <= |history| :: GoodAt(history, n) {
      forall n | 0 <= n < |history|
        ensures SafeAt(history, n)
      {
        assert GoodAt(history, n) && GoodAt(history, n + 1);
        GoodNext(history, n);
      }
    }
  }

  /** Without empty parts every fragment is safe, and without empty snapshots no part becomes empty. */
  lemma NonemptyStep(s: Reasoning, f: Fragment)
    requires InBounds(s) && forall k | k in s.parts :: s.parts[k].bytes > 0
    requires f.snapshot ==> f.text != ""
    ensures Safe(s, f) && forall k | k in Step(s, f).parts :: Step(s, f).parts[k].bytes > 0
  {
  }

  /** Over every run without empty snapshots, however the parts interleave: spans are disjoint and
      in bounds, none is empty, and each holds the fold of its own part's fragments alone. */
  lemma {:induction false} PartsDoNotDisturbEachOther(history: seq<Fragment>)
    requires forall f | f in history && f.snapshot :: f.text != ""
    ensures Good(Run(history), history)
    ensures forall k | k in Run(history).parts :: Run(history).parts[k].bytes > 0
  {
    if history != [] {
      var last, before := history[|history| - 1], history[..|history| - 1];
      assert history == before + [last];
      PartsDoNotDisturbEachOther(before);
      NonemptyStep(Run(before), last);
      SafeStepIsGood(Run(before), before, last);
    }
  }

  // ---------------------------------------------------------------- the whole text

  const GAP := "\n\n"

  /** Texts with a blank line between them. */
  function Joined(texts: seq<string>): string {
    if texts == [] then ""
    else if |texts| == 1 then texts[0]
    else Joined(texts[..|texts| - 1]) + GAP + texts[|texts| - 1]
  }

  /** What is joined before text `i`, and after it. */
  function Pre(texts: seq<string>, i: nat): string
    requires i < |texts|
  {
    if i == 0 then "" else Joined(texts[..i]) + GAP
  }

  function Post(texts: seq<string>, i: nat): string
    requires i < |texts|
  {
    if i == |texts| - 1 then "" else GAP + Joined(texts[i + 1..])
  }

  lemma JoinedMore(texts: seq<string>, last: string)
    ensures Joined(texts + [last]) == if texts == [] then last else Joined(texts) + GAP + last
  {
    assert (texts + [last])[..|texts|] == texts;
  }

  lemma GapsAssociate(a: string, b: string, c: string)
    ensures a + GAP + (b + GAP + c) == a + GAP + b + GAP + c
  {
  }

  lemma {:induction false} JoinedBoth(a: seq<string>, b: seq<string>)
    requires a != [] && b != []
    ensures Joined(a + b) == Joined(a) + GAP + Joined(b)
  {
    var before, last := b[..|b| - 1], b[|b| - 1];
    if before == [] {
      assert a + b == a + [last];
      JoinedMore(a, last);
    } else {
      assert b == before + [last] && a + b == (a + before) + [last];
      JoinedMore(a + before, last);
      JoinedMore(before, last);
      JoinedBoth(a, before);
      GapsAssociate(Joined(a), Joined(before), last);
    }
  }

  lemma SplitAround(texts: seq<string>, i: nat)
    requires i < |texts|
    ensures texts == (texts[..i] + [texts[i]]) + texts[i + 1..]
    ensures i == |texts| - 1 ==> texts == texts[..i] + [texts[i]]
  {
  }

  lemma JoinedUpTo(texts: seq<string>, i: nat)
    requires i < |texts|
    ensures Joined(texts[..i] + [texts[i]]) == Pre(texts, i) + texts[i]
  {
    JoinedMore(texts[..i], texts[i]);
    assert "" + texts[i] == texts[i];
  }

  lemma JoinedAround(texts: seq<string>, i: nat)
    requires i < |texts|
    ensures Joined(texts) == Pre(texts, i) + texts[i] + Post(texts, i)
  {
    SplitAround(texts, i);
    JoinedUpTo(texts, i);
    var first := Pre(texts, i) + texts[i];
    if i == |texts| - 1 {
      assert first + "" == first;
    } else {
      JoinedBoth(texts[..i] + [texts[i]], texts[i + 1..]);
      Associates(first, GAP, Joined(texts[i + 1..]));
    }
  }

  lemma Associates(a: string, b: string, c: string)
    ensures a + b + c == a + (b + c)
  {
  }

  lemma PreStays(texts: seq<string>, i: nat, text: string)
    requires i < |texts|
    ensures Pre(texts[i := text], i) == Pre(texts, i) && Post(texts[i := text], i) == Post(texts, i)
  {
    assert texts[i := text][..i] == texts[..i] && texts[i := text][i + 1..] == texts[i + 1..];
  }

  /** Where text `j` starts once text `i` is replaced. */
  lemma PreAfter(texts: seq<string>, i: nat, text: string, j: nat)
    requires i < |texts| && j < |texts|
    ensures |Pre(texts[i := text], j)| == |Pre(texts, j)| + if j > i then |text| - |texts[i]| else 0
    ensures j > i ==> |Pre(texts, j)| >= |Pre(texts, i)| + |texts[i]| + 2
  {
    var now := texts[i := text];
    if j <= i {
      assert now[..j] == texts[..j];
    } else {
      var before := texts[..j];
      assert now[..j] == before[i := text];
      JoinedAround(before, i);
      JoinedAround(before[i := text], i);
      PreStays(before, i, text);
      assert before[..i] == texts[..i];
    }
  }

  lemma PreOfMore(texts: seq<string>, last: string, j: nat)
    requires j <= |texts|
    ensures j < |texts| ==> Pre(texts + [last], j) == Pre(texts, j)
    ensures j == |texts| ==> Pre(texts + [last], j) == if texts == [] then "" else Joined(texts) + GAP
  {
    assert (texts + [last])[..j] == texts[..j];
    assert j == |texts| ==> texts[..j] == texts;
  }

  /** The parts stand in this order, with these texts and a blank line between them. */
  ghost predicate Laid(s: Reasoning, order: seq<string>, texts: seq<string>) {
    && |order| == |texts| && s.text == Joined(texts)
    && (forall k :: k in s.parts <==> k in order)
    && (forall i, j | 0 <= i < j < |order| :: order[i] != order[j])
    && forall i | 0 <= i < |order| :: LaidAt(s, order, texts, i)
  }

  ghost predicate LaidAt(s: Reasoning, order: seq<string>, texts: seq<string>, i: nat)
    requires |order| == |texts| && i < |order|
  {
    && order[i] in s.parts && texts[i] != ""
    && s.parts[order[i]].offset == |Pre(texts, i)| && s.parts[order[i]].bytes == |texts[i]|
  }

  lemma SliceLaid(s: Reasoning, order: seq<string>, texts: seq<string>, i: nat)
    requires Laid(s, order, texts) && i < |order|
    ensures SpanInBounds(s.text, s.parts[order[i]]) && Slice(s.text, s.parts[order[i]]) == texts[i]
  {
    assert LaidAt(s, order, texts, i);
    JoinedAround(texts, i);
    MiddleOf(Pre(texts, i), texts[i], Post(texts, i));
  }

  lemma MiddleOf(a: string, b: string, c: string)
    ensures (a + b + c)[|a|..|a| + |b|] == b && |a| + |b| <= |a + b + c|
  {
  }

  lemma LaidInBounds(s: Reasoning, order: seq<string>, texts: seq<string>)
    requires Laid(s, order, texts)
    ensures InBounds(s)
  {
    forall k | k in s.parts
      ensures SpanInBounds(s.text, s.parts[k])
    {
      var i :| 0 <= i < |order| && order[i] == k;
      SliceLaid(s, order, texts, i);
    }
  }

  lemma SpliceAt(a: string, c: string, change: Change)
    requires change.separator == "" && change.erase <= |c|
    ensures ChangedText(a + c, |a|, change) == a + change.addition + c[change.erase..]
  {
    var text := a + c;
    assert text[..|a|] == a && text[|a| + change.erase..] == c[change.erase..];
    assert change.separator + change.addition == change.addition;
  }

  lemma SplicedMiddle(a: string, b: string, c: string, change: Change)
    requires change.separator == "" && (change.erase == 0 || change.erase == |b|)
    ensures var offset := if change.erase > 0 then |a| else |a| + |b|;
            ChangedText(a + b + c, offset, change) == a + ChangedBytes(b, change) + c
  {
    if change.erase > 0 {
      Associates(a, b, c);
      SpliceAt(a, b + c, change);
      assert (b + c)[|b|..] == c && "" + change.addition == change.addition;
    } else {
      SpliceAt(a + b, c, change);
      assert c[0..] == c;
      Associates(a, b, change.addition);
    }
  }

  /** What a change makes of its part's text. */
  function ChangedBytes(text: string, change: Change): string {
    (if change.erase > 0 then "" else text) + change.addition
  }

  lemma SpliceJoins(s: Reasoning, order: seq<string>, texts: seq<string>, i: nat, change: Change, complete: bool)
    requires Laid(s, order, texts) && i < |order| && InBounds(s) && order[i] in s.parts
    requires change.separator == "" && (change.erase == 0 || change.erase == |texts[i]|)
    requires change.erase <= s.parts[order[i]].bytes
    ensures Splice(s, order[i], change, complete).text == Joined(texts[i := ChangedBytes(texts[i], change)])
  {
    var now := ChangedBytes(texts[i], change);
    assert LaidAt(s, order, texts, i);
    JoinedAround(texts, i);
    JoinedAround(texts[i := now], i);
    PreStays(texts, i, now);
    SplicedMiddle(Pre(texts, i), texts[i], Post(texts, i), change);
  }

  lemma SpliceMoves(s: Reasoning, order: seq<string>, texts: seq<string>, i: nat, change: Change, complete: bool, j: nat)
    requires Laid(s, order, texts) && i < |order| && j < |order| && InBounds(s) && order[i] in s.parts
    requires change.separator == "" && (change.erase == 0 || change.erase == |texts[i]|) && change.addition != ""
    requires change.erase <= s.parts[order[i]].bytes
    ensures LaidAt(Splice(s, order[i], change, complete), order, texts[i := ChangedBytes(texts[i], change)], j)
  {
    assert LaidAt(s, order, texts, i) && LaidAt(s, order, texts, j);
    PreAfter(texts, i, ChangedBytes(texts[i], change), j);
    if j < i {
      PreAfter(texts, j, texts[j], i);
    }
  }

  /** A change of part `i` replaces its text and moves those after it. */
  lemma SpliceLays(s: Reasoning, order: seq<string>, texts: seq<string>, i: nat, change: Change, complete: bool)
    requires Laid(s, order, texts) && i < |order| && InBounds(s) && order[i] in s.parts
    requires change.separator == "" && (change.erase == 0 || change.erase == |texts[i]|) && change.addition != ""
    requires change.erase <= s.parts[order[i]].bytes
    ensures Laid(Splice(s, order[i], change, complete), order, texts[i := ChangedBytes(texts[i], change)])
  {
    var r, changed := Splice(s, order[i], change, complete), texts[i := ChangedBytes(texts[i], change)];
    SpliceJoins(s, order, texts, i, change, complete);
    forall j | 0 <= j < |order|
      ensures LaidAt(r, order, changed, j)
    {
      SpliceMoves(s, order, texts, i, change, complete, j);
    }
  }

  lemma AppendedAtEnd(text: string, change: Change)
    requires change.erase == 0
    ensures ChangedText(text, |text|, change) == text + (change.separator + change.addition)
  {
    assert text[..|text|] == text && text[|text|..] == "";
  }

  /** A part that enters stands at the end. */
  lemma EntryLays(s: Reasoning, order: seq<string>, texts: seq<string>, f: Fragment)
    requires Laid(s, order, texts) && InBounds(s) && f.part !in s.parts && f.text != ""
    ensures Laid(Step(s, f), order + [f.part], texts + [f.text])
  {
    var r, longer, more := Step(s, f), order + [f.part], texts + [f.text];
    JoinedMore(texts, f.text);
    NothingEmpty(s, order, texts);
    JoinedIsEmpty(texts);
    AppendedAtEnd(s.text, EntryChange(s, f));
    Associates(s.text, GAP, f.text);
    assert r.text == Joined(more);
    forall j | 0 <= j < |longer|
      ensures LaidAt(r, longer, more, j)
    {
      PreOfMore(texts, f.text, j);
      if j < |order| {
        assert LaidAt(s, order, texts, j) && longer[j] == order[j];
        SliceLaid(s, order, texts, j);
      }
    }
  }

  lemma NothingEmpty(s: Reasoning, order: seq<string>, texts: seq<string>)
    requires Laid(s, order, texts)
    ensures forall i | 0 <= i < |texts| :: texts[i] != ""
  {
    forall i | 0 <= i < |texts|
      ensures texts[i] != ""
    {
      assert LaidAt(s, order, texts, i);
    }
  }

  lemma JoinedIsEmpty(texts: seq<string>)
    requires forall i | 0 <= i < |texts| :: texts[i] != ""
    ensures Joined(texts) == "" <==> texts == []
  {
  }

  /** The parts in the order in which they first had text. */
  function Order(history: seq<Fragment>): seq<string> {
    if history == [] then []
    else
      var f, before := history[|history| - 1], Order(history[..|history| - 1]);
      if f.text == "" || f.part in before then before else before + [f.part]
  }

  function TextOf(p: Part): string {
    match p
    case Absent => ""
    case Present(text, _) => text
  }

  /** What each part's own fragments make of it, in that order. */
  function TextsAfter(history: seq<Fragment>): (texts: seq<string>)
    ensures |texts| == |Order(history)|
  {
    seq(|Order(history)|, i requires 0 <= i < |Order(history)| => TextOf(PartAfter(history, Order(history)[i])))
  }

  lemma StepLays(s: Reasoning, f: Fragment, order: seq<string>, texts: seq<string>) returns (now: seq<string>)
    requires Laid(s, order, texts) && InBounds(s) && (f.snapshot ==> f.text != "")
    ensures Laid(Step(s, f), if f.text == "" || f.part in order then order else order + [f.part], now)
  {
    now := texts;
    if f.part !in s.parts {
      if f.text != "" {
        EntryLays(s, order, texts, f);
        now := texts + [f.text];
      }
    } else {
      var i :| 0 <= i < |order| && order[i] == f.part;
      SliceLaid(s, order, texts, i);
      var decision := Decide(texts[i], s.parts[f.part], f);
      if decision.Apply? {
        if decision.change.addition == "" {
          NothingLays(s, order, texts, i, decision.change, f.complete);
        } else {
          now := texts[i := ChangedBytes(texts[i], decision.change)];
          SpliceLays(s, order, texts, i, decision.change, f.complete);
        }
      }
    }
  }

  lemma NothingSpliced(text: string, offset: nat, change: Change)
    requires change == Change("", "", 0) && offset <= |text|
    ensures ChangedText(text, offset, change) == text
  {
    assert change.separator + change.addition == "";
    assert text[..offset] + "" + text[offset..] == text;
  }

  lemma NothingMoves(s: Reasoning, part: string, change: Change, complete: bool)
    requires InBounds(s) && part in s.parts && change == Change("", "", 0)
    ensures var r := Splice(s, part, change, complete);
            && r.text == s.text && r.parts.Keys == s.parts.Keys
            && forall k | k in s.parts :: r.parts[k].offset == s.parts[k].offset && r.parts[k].bytes == s.parts[k].bytes
  {
    NothingSpliced(s.text, ChangeOffset(s.parts[part], change), change);
  }

  lemma NothingLays(s: Reasoning, order: seq<string>, texts: seq<string>, i: nat, change: Change, complete: bool)
    requires Laid(s, order, texts) && i < |order| && InBounds(s) && order[i] in s.parts
    requires change == Change("", "", 0)
    ensures Laid(Splice(s, order[i], change, complete), order, texts)
  {
    NothingMoves(s, order[i], change, complete);
    var r := Splice(s, order[i], change, complete);
    forall j | 0 <= j < |order|
      ensures LaidAt(r, order, texts, j)
    {
      assert LaidAt(s, order, texts, j);
    }
  }

  lemma {:induction false} RunLays(history: seq<Fragment>) returns (texts: seq<string>)
    requires forall f | f in history && f.snapshot :: f.text != ""
    ensures Laid(Run(history), Order(history), texts)
  {
    if history == [] {
      texts := [];
    } else {
      var before, f := history[..|history| - 1], history[|history| - 1];
      assert history == before + [f];
      var was := RunLays(before);
      LaidInBounds(Run(before), Order(before), was);
      texts := StepLays(Run(before), f, Order(before), was);
    }
  }

  /** Over every run without empty snapshots the whole text is the parts, each the fold of its own
      fragments, in the order in which they entered, with a blank line between them. */
  lemma TextIsPartsJoined(history: seq<Fragment>)
    requires forall f | f in history && f.snapshot :: f.text != ""
    ensures Run(history).text == Joined(TextsAfter(history))
  {
    var texts := RunLays(history);
    var s, order := Run(history), Order(history);
    PartsDoNotDisturbEachOther(history);
    forall i | 0 <= i < |order|
      ensures texts[i] == TextsAfter(history)[i]
    {
      SliceLaid(s, order, texts, i);
      assert PartHeld(s, history, order[i]);
    }
    assert texts == TextsAfter(history);
  }

  // A run of seven fragments, two of them empty snapshots, and the state after each.

  const F1 := Fragment("b", "B", false, false)
  const F2 := Fragment("b", "", false, true)
  const F3 := Fragment("d", "D", false, false)
  const F4 := Fragment("b", "x", false, false)
  const F5 := Fragment("d", "", false, true)
  const F6 := Fragment("b", "yy", false, true)
  const F7 := Fragment("d", "q", false, false)

  const S1 := Reasoning("B", map["b" := Span(0, 1, false)])
  const S2 := Reasoning("", map["b" := Span(0, 0, false)])
  const S3 := Reasoning("D", map["b" := Span(1, 0, false), "d" := Span(0, 1, false)])
  const S4 := Reasoning("Dx", map["b" := Span(1, 1, false), "d" := Span(0, 1, false)])
  const S5 := Reasoning("x", map["b" := Span(0, 1, false), "d" := Span(0, 0, false)])
  const S6 := Reasoning("yy", map["b" := Span(0, 2, false), "d" := Span(1, 0, false)])
  const S7 := Reasoning("yqy", map["b" := Span(0, 2, false), "d" := Span(1, 1, false)])

  predicate StepsTo(s: Reasoning, f: Fragment, r: Reasoning) {
    InBounds(s) && Step(s, f) == r && InBounds(r)
  }

  lemma MixingStep1()
    ensures StepsTo(EMPTY, F1, S1)
  {
  }

  lemma MixingStep2()
    ensures StepsTo(S1, F2, S2)
  {
  }

  lemma MixingStep3()
    ensures StepsTo(S2, F3, S3)
  {
    AppendedAtEnd("", Change("", "D", 0));
  }

  lemma MixingStep4()
    ensures StepsTo(S3, F4, S4)
  {
  }

  lemma MixingStep5()
    ensures StepsTo(S4, F5, S5)
  {
    assert Slice(S4.text, S4.parts["d"]) == "D";
    FirstByteErased("Dx", "x");
  }

  lemma FirstByteErased(text: string, rest: string)
    requires text != "" && rest == text[1..]
    ensures ChangedText(text, 0, Change("", "", 1)) == rest
  {
    SpliceAt("", text, Change("", "", 1));
    assert "" + text == text && "" + "" + rest == rest;
  }

  lemma MixingStep6()
    ensures StepsTo(S5, F6, S6)
  {
    assert Slice("x", Span(0, 1, false)) == "x" && "x"[0] != "yy"[0];
  }

  lemma MixingStep7()
    ensures StepsTo(S6, F7, S7)
  {
  }

  /** A history leads to this text and spans, and to this much of part "b" alone. */
  predicate Reaches(history: seq<Fragment>, s: Reasoning, b: Part) {
    Run(history) == s && InBounds(s) && PartAfter(history, "b") == b
  }

  lemma Extends(history: seq<Fragment>, s: Reasoning, b: Part, f: Fragment, r: Reasoning)
    requires Reaches(history, s, b) && StepsTo(s, f, r)
    ensures Reaches(history + [f], r, if f.part == "b" then StepPart(b, f) else b)
  {
    RunMore(history, f);
    PartAfterMore(history, f, "b");
  }

  lemma HalfMixed() returns (history: seq<Fragment>)
    ensures Reaches(history, S4, Present("x", false))
  {
    history := [];
    MixingStep1();
    Extends(history, EMPTY, Absent, F1, S1);
    history := history + [F1];
    MixingStep2();
    Extends(history, S1, Present("B", false), F2, S2);
    history := history + [F2];
    MixingStep3();
    Extends(history, S2, Present("", false), F3, S3);
    history := history + [F3];
    MixingStep4();
    Extends(history, S3, Present("", false), F4, S4);
    history := history + [F4];
  }

  lemma MixedSlice()
    ensures InBounds(S7) && Slice(S7.text, S7.parts["b"]) != "yy"
  {
    assert Slice(S7.text, S7.parts["b"])[1] == 'q';
  }

  /** A part holds other bytes than its own fragments gave it. */
  predicate MixedUp(history: seq<Fragment>, part: string) {
    var s := Run(history);
    InBounds(s) && part in s.parts &&
    PartAfter(history, part) != Present(Slice(s.text, s.parts[part]), s.parts[part].complete)
  }

  /** With empty snapshots allowed, a run can leave one part holding a byte of another. */
  lemma EmptySnapshotsCanMixParts() returns (history: seq<Fragment>)
    ensures MixedUp(history, "b")
  {
    history := HalfMixed();
    MixingStep5();
    Extends(history, S4, Present("x", false), F5, S5);
    history := history + [F5];
    MixingStep6();
    Extends(history, S5, Present("x", false), F6, S6);
    history := history + [F6];
    MixingStep7();
    Extends(history, S6, Present("yy", false), F7, S7);
    history := history + [F7];
    MixedSlice();
  }

  // ---------------------------------------------------------------- the stream

  /** What a client that replays the patches in order ends up with. */
  function Replay(patches: seq<Patch>): string {
    if patches == [] then ""
    else
      var p := patches[|patches| - 1];
      var shown := Replay(patches[..|patches| - 1]);
      if p.reset then p.text
      else if 0 <= p.offset <= |shown| then shown[..p.offset] + p.text
      else shown
  }

  lemma ReplayMore(patches: seq<Patch>, s: Reasoning, part: string, change: Change)
    requires Replay(patches) == s.text
    requires InBounds(s) && part in s.parts && change.erase <= s.parts[part].bytes
    ensures Replay(patches + [PatchOf(s, part, change)])
            == ChangedText(s.text, ChangeOffset(s.parts[part], change), change)
  {
    assert (patches + [PatchOf(s, part, change)])[..|patches|] == patches;
  }

  class ReasoningStream {
    var reasoning: string
    var parts: map<string, Span>
    var patches: seq<Patch>
    ghost var history: seq<Fragment>

    function State(): Reasoning
      reads this
    {
      Reasoning(reasoning, parts)
    }

    /** Every client that replayed the patches holds the text. */
    ghost predicate Valid()
      reads this
    {
      InBounds(State()) && State() == Run(history) && Replay(patches) == reasoning
    }

    constructor ()
      ensures Valid() && history == []
    {
      reasoning, parts, patches, history := "", map[], [], [];
    }

    /** Moves every other span at or after the splice. */
    method ShiftOthers(part: string, offset: int, erase: nat, added: nat)
      modifies `parts
      ensures parts == map k | k in old(parts) ::
                         if k == part then old(parts)[k] else Shifted(old(parts)[k], offset, erase, added)
    {
      var todo := parts.Keys;
      while todo != {}
        invariant todo <= parts.Keys == old(parts.Keys)
        invariant forall k | k in parts ::
                    parts[k] == if k == part || k in todo then old(parts)[k]
                                else Shifted(old(parts)[k], offset, erase, added)
        decreases todo
      {
        var key :| key in todo;
        if key != part && parts[key].offset >= offset {
          var other := parts[key];
          parts := parts[key := other.(offset := other.offset - erase + added)];
        }
        todo := todo - {key};
      }
    }

    method MoveSpans(part: string, change: Change, complete: bool)
      requires part in parts && change.erase <= parts[part].bytes
      modifies `parts
      ensures parts == ChangedParts(old(parts), part, change, complete)
    {
      var span := parts[part];
      ShiftOthers(part, ChangeOffset(span, change), change.erase, |change.separator| + |change.addition|);
      span := span.(offset := span.offset + |change.separator|);
      parts := parts[part := Span(span.offset, span.bytes - change.erase + |change.addition|, complete)];
    }

    /** The splice itself, once the fragment is understood. */
    method ApplyChange(part: string, change: Change, complete: bool)
      requires InBounds(State()) && part in parts && change.erase <= parts[part].bytes
      requires Replay(patches) == reasoning
      modifies `reasoning, `parts, `patches
      ensures State() == Splice(old(State()), part, change, complete)
      ensures Replay(patches) == reasoning
    {
      ghost var before := State();
      ReplayMore(patches, before, part, change);
      var offset := ChangeOffset(parts[part], change);
      var reset := offset != |reasoning| || change.erase > 0;
      var patch := change.separator + change.addition;
      reasoning := reasoning[..offset] + patch + reasoning[offset + change.erase..];
      assert reasoning == ChangedText(before.text, offset, change);
      var emitted := Patch(reset, if reset then 0 else offset, if reset then reasoning else patch);
      assert emitted == PatchOf(before, part, change);
      patches := patches + [emitted];
      MoveSpans(part, change, complete);
    }

    method OutputReasoning(f: Fragment)
      requires Valid()
      modifies this
      ensures State() == Step(old(State()), f) && history == old(history) + [f]
      ensures Replay(patches) == reasoning && (InBounds(State()) ==> Valid())
    {
      RunMore(history, f);
      history := history + [f];
      if f.text == "" && f.part !in parts {
        return;
      }
      var inserted := f.part !in parts;
      if inserted {
        parts := parts[f.part := Span(|reasoning|, 0, false)];
      }
      var span := parts[f.part];
      if span.complete && !f.complete {
        return;
      }
      var addition, erase, separator := f.text, 0, "";
      if inserted {
        if reasoning != "" {
          separator := "\n\n";
        }
      } else if f.snapshot {
        var previous := Slice(reasoning, span);
        if addition == previous && span.complete == f.complete {
          return;
        }
        if previous <= addition {
          addition := addition[span.bytes..];
        } else {
          erase := span.bytes;
        }
      } else if span.complete {
        return;
      }
      ApplyChange(f.part, Change(separator, addition, erase), f.complete);
    }
  }
}

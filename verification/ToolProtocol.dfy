/** Recognizing tool-call markup that arrives as answer text. */
module ToolProtocol {

  // ---------------------------------------------------------------- finding bytes

  /** First position at or after `from` whose byte is in `stops`, or the length. */
  function FirstOf(text: string, stops: string, from: nat): (r: nat)
    requires from <= |text|
    ensures from <= r <= |text|
    ensures r < |text| ==> text[r] in stops
    decreases |text| - from
  {
    if from == |text| || text[from] in stops then from else FirstOf(text, stops, from + 1)
  }

  /** First position at or after `from` whose byte is not in `blanks`, or the length. */
  function FirstNotOf(text: string, blanks: string, from: nat): (r: nat)
    requires from <= |text|
    ensures from <= r <= |text|
    ensures r < |text| ==> text[r] !in blanks
    ensures forall k | from <= k < r :: text[k] in blanks
    decreases |text| - from
  {
    if from == |text| || text[from] !in blanks then from else FirstNotOf(text, blanks, from + 1)
  }

  lemma {:induction false} FirstOfExtends(text: string, more: string, stops: string, from: nat)
    requires from <= |text|
    ensures FirstOf(text, stops, from) < |text| ==> FirstOf(text + more, stops, from) == FirstOf(text, stops, from)
    ensures FirstOf(text, stops, from) == |text| ==> FirstOf(text + more, stops, from) >= |text|
    decreases |text| - from
  {
    if from < |text| && text[from] !in stops {
      FirstOfExtends(text, more, stops, from + 1);
    }
  }

  lemma {:induction false} FirstOfInSuffix(text: string, start: nat, stops: string, from: nat)
    requires start + from <= |text|
    ensures FirstOf(text, stops, start + from) == start + FirstOf(text[start..], stops, from)
    decreases |text| - from
  {
    if start + from < |text| && text[start + from] !in stops {
      FirstOfInSuffix(text, start, stops, from + 1);
    }
  }

  lemma {:induction false} FirstNotOfExtends(text: string, more: string, blanks: string, from: nat)
    requires from <= |text| && FirstNotOf(text, blanks, from) < |text|
    ensures FirstNotOf(text + more, blanks, from) == FirstNotOf(text, blanks, from)
    decreases |text| - from
  {
    if text[from] in blanks {
      FirstNotOfExtends(text, more, blanks, from + 1);
    }
  }

  predicate At(text: string, i: nat, word: string) {
    i + |word| <= |text| && text[i..i + |word|] == word
  }

  datatype Found = Found(at: nat) | Missing

  /** First occurrence of `word` at or after `from`. */
  function Find(text: string, word: string, from: nat): (r: Found)
    ensures r.Found? ==> from <= r.at && At(text, r.at, word)
    ensures r.Missing? ==> forall k | from <= k :: !At(text, k, word)
    ensures r.Found? ==> forall k | from <= k < r.at :: !At(text, k, word)
    decreases |text| - from
  {
    if At(text, from, word) then Found(from)
    else if from >= |text| then Missing
    else Find(text, word, from + 1)
  }

  // ---------------------------------------------------------------- openers

  predicate AsciiAlnum(c: char) {
    '0' <= c <= '9' || 'a' <= c <= 'z' || 'A' <= c <= 'Z'
  }

  function ToLower(c: char): char {
    if 'A' <= c <= 'Z' then (c as int + 32) as char else c
  }

  /** The ASCII letters and digits of `s`, in lower case. */
  function Normalized(s: string): string {
    if s == "" then ""
    else
      var last := s[|s| - 1];
      Normalized(s[..|s| - 1]) + if AsciiAlnum(last) then [ToLower(last)] else ""
  }

  /** "tool" and, anywhere after it, "call". */
  ghost predicate NamesToolCall(s: string) {
    exists i: nat, j: nat :: i + 4 <= j && At(s, i, "tool") && At(s, j, "call")
  }

  /** What the two searches of the source decide. */
  predicate HasToolCall(s: string) {
    match Find(s, "tool", 0)
    case Found(tool) => Find(s, "call", tool + 4).Found?
    case Missing => false
  }

  /** Looking after the first "tool" only misses nothing. */
  lemma HasToolCallIsNamesToolCall(s: string)
    ensures HasToolCall(s) <==> NamesToolCall(s)
  {
    var tool := Find(s, "tool", 0);
    if NamesToolCall(s) {
      var i: nat, j: nat :| i + 4 <= j && At(s, i, "tool") && At(s, j, "call");
      assert tool.Found? && tool.at <= i;
    }
    if HasToolCall(s) {
      var call := Find(s, "call", tool.at + 4);
      assert At(s, tool.at, "tool") && At(s, call.at, "call");
    }
  }

  predicate ForeignOpener(opener: string) {
    opener != "" && (opener[0] == '<' || opener[0] == '[') && HasToolCall(Normalized(opener[1..]))
  }

  method IsForeignToolCallOpener(opener: string) returns (foreign: bool)
    ensures foreign == ForeignOpener(opener)
  {
    if opener == "" || (opener[0] != '<' && opener[0] != '[') {
      return false;
    }
    var rest := opener[1..];
    var normalized := "";
    for k := 0 to |rest|
      invariant normalized == Normalized(rest[..k])
    {
      assert rest[..k + 1][..k] == rest[..k];
      if AsciiAlnum(rest[k]) {
        normalized := normalized + [ToLower(rest[k])];
      }
    }
    assert rest[..|rest|] == rest;
    foreign := HasToolCall(normalized);
  }

  /** A `[...]` marker counts only when its arguments follow immediately. */
  predicate BracketedToolCallMarker(text: string, open: nat)
    requires open < |text|
  {
    var close := FirstOf(text, "]", open + 1);
    && close < |text| && close - open <= 256
    && close + 1 < |text| && text[close + 1] == '{'
    && ForeignOpener(text[open..close + 1])
  }

  // ---------------------------------------------------------------- leading markup

  datatype Verdict = Undecided | Prose | Call

  const BLANKS := " \t\r\n"
  const CLOSERS := ">:\r\n"

  /** Where the first visible byte is. */
  function Start(content: string): (r: nat)
    ensures r <= |content|
  {
    FirstNotOf(content, BLANKS, 0)
  }

  function ClassifyVisible(visible: string, complete: bool): Verdict
    requires visible != ""
  {
    if visible[0] == '[' then
      if BracketedToolCallMarker(visible, 0) then Call
      else
        var close := FirstOf(visible, "]", 0);
        if !complete && (close == |visible| || close + 1 >= |visible|) && |visible| <= 257 then Undecided
        else Prose
    else if visible[0] != '<' then Prose
    else
      var found := FirstOf(visible, CLOSERS, 1);
      if found == |visible| && !complete && |visible| <= 257 then Undecided
      else
        var close := if found < |visible| then found else if |visible| <= 257 then |visible| else 257;
        if close > 256 then Prose
        else if ForeignOpener(if close + 1 <= |visible| then visible[..close + 1] else visible) then Call
        else Prose
  }

  function ClassifyLeadingToolMarkup(content: string, complete: bool): Verdict {
    var start := Start(content);
    if start == |content| then (if complete then Prose else Undecided)
    else ClassifyVisible(content[start..], complete)
  }

  lemma VisibleVerdictIsStable(visible: string, more: string, complete: bool)
    requires visible != "" && ClassifyVisible(visible, false) != Undecided
    ensures ClassifyVisible(visible + more, complete) == ClassifyVisible(visible, false)
  {
    var longer := visible + more;
    if visible[0] == '[' {
      FirstOfExtends(visible, more, "]", 0);
      FirstOfExtends(visible, more, "]", 1);
      var close := FirstOf(visible, "]", 1);
      if close < |visible| {
        assert longer[..close + 1] == visible[..close + 1];
      }
    } else if visible[0] == '<' {
      FirstOfExtends(visible, more, CLOSERS, 1);
      var close := FirstOf(visible, CLOSERS, 1);
      if close < |visible| {
        assert longer[..close + 1] == visible[..close + 1];
      }
    }
  }

  /** A decided verdict never changes, whatever arrives later and whether or not that is the end. */
  lemma VerdictIsStable(content: string, more: string, complete: bool)
    requires ClassifyLeadingToolMarkup(content, false) != Undecided
    ensures ClassifyLeadingToolMarkup(content + more, complete) == ClassifyLeadingToolMarkup(content, false)
  {
    var start := Start(content);
    FirstNotOfExtends(content, more, BLANKS, 0);
    assert (content + more)[start..] == content[start..] + more;
    VisibleVerdictIsStable(content[start..], more, complete);
  }

  /** A short opener the message ends in before it is closed. */
  predicate UnclosedOpener(content: string) {
    var visible := content[Start(content)..];
    && visible != "" && visible[0] == '<' && |visible| <= 256
    && FirstOf(visible, CLOSERS, 1) == |visible|
    && ForeignOpener(visible)
  }

  /** The end of the message adds one case to what streaming already called a call. */
  lemma CompleteVerdict(content: string)
    ensures ClassifyLeadingToolMarkup(content, true) == Call
       <==> ClassifyLeadingToolMarkup(content, false) == Call || UnclosedOpener(content)
    ensures UnclosedOpener(content) ==> ClassifyLeadingToolMarkup(content, false) == Undecided
    ensures ClassifyLeadingToolMarkup(content, true) != Undecided
  {
  }

  // ---------------------------------------------------------------- the whole message

  predicate FenceAt(content: string, i: nat) {
    At(content, i, "```") || At(content, i, "~~~")
  }

  /** What the scan finds from a state on. */
  predicate Scan(content: string, index: nat, fenced: bool, inlineCode: bool, lineStart: bool)
    requires index <= |content|
    decreases |content| - index, lineStart
  {
    if index == |content| then false
    else if lineStart then
      var first := FirstNotOf(content, " \t", index);
      first < |content| && Scan(content, index, fenced != FenceAt(content, first), inlineCode, false)
    else if content[index] == '\n' || content[index] == '\r' then Scan(content, index + 1, fenced, false, true)
    else if fenced then Scan(content, index + 1, fenced, inlineCode, false)
    else if content[index] == '`' then Scan(content, index + 1, fenced, !inlineCode, false)
    else if content[index] == '[' && !inlineCode then
      BracketedToolCallMarker(content, index) || Scan(content, index + 1, fenced, inlineCode, false)
    else if inlineCode || content[index] != '<' then Scan(content, index + 1, fenced, inlineCode, false)
    else
      var close := FirstOf(content, CLOSERS, index + 1);
      if close == |content| || close - index > 256 then Scan(content, index + 1, fenced, inlineCode, false)
      else ForeignOpener(content[index..close + 1]) || Scan(content, close + 1, fenced, inlineCode, false)
  }

  predicate ContainsMarkup(content: string) {
    Scan(content, 0, false, false, true)
  }

  /** The scan at an angle bracket outside code. */
  method ScanAngle(content: string, index: nat) returns (found: bool, next: nat)
    requires index < |content| && content[index] == '<'
    ensures index < next <= |content|
    ensures Scan(content, index, false, false, false) == (found || Scan(content, next, false, false, false))
  {
    var close := FirstOf(content, CLOSERS, index + 1);
    if close == |content| || close - index > 256 {
      return false, index + 1;
    }
    found := IsForeignToolCallOpener(content[index..close + 1]);
    next := close + 1;
  }

  method ContainsForeignToolCallMarkup(content: string) returns (found: bool)
    ensures found == ContainsMarkup(content)
    ensures found <==> exists k: nat :: LiveMarkup(content, k)
  {
    MarkupIsFoundInText(content);
    var fenced, inlineCode, lineStart := false, false, true;
    var index := 0;
    while index < |content|
      invariant index <= |content|
      invariant ContainsMarkup(content) == Scan(content, index, fenced, inlineCode, lineStart)
    {
      if lineStart {
        var first := FirstNotOf(content, " \t", index);
        if first == |content| {
          return false;
        }
        if FenceAt(content, first) {
          fenced := !fenced;
        }
        lineStart := false;
      }
      assert ContainsMarkup(content) == Scan(content, index, fenced, inlineCode, false);
      var current := content[index];
      if current == '\n' || current == '\r' {
        lineStart, inlineCode := true, false;
        index := index + 1;
        continue;
      }
      if fenced {
        index := index + 1;
        continue;
      }
      if current == '`' {
        inlineCode := !inlineCode;
        index := index + 1;
        continue;
      }
      if current == '[' && !inlineCode {
        if BracketedToolCallMarker(content, index) {
          return true;
        }
        index := index + 1;
        continue;
      }
      if inlineCode || current != '<' {
        index := index + 1;
        continue;
      }
      var foreign, next := ScanAngle(content, index);
      if foreign {
        return true;
      }
      index := next;
    }
    return false;
  }

  /** Markup at `start`, scanned outside code, is found. */
  predicate MarkupAt(content: string, start: nat)
    requires start < |content|
  {
    || (content[start] == '[' && BracketedToolCallMarker(content, start))
    || (content[start] == '<' &&
        var close := FirstOf(content, CLOSERS, start + 1);
        close < |content| && close - start <= 256 && ForeignOpener(content[start..close + 1]))
  }

  lemma FirstIsNoFence(content: string, index: nat, start: nat)
    requires index <= start < |content| && (content[start] == '<' || content[start] == '[')
    requires forall k | index <= k < start :: content[k] in BLANKS
    ensures var first := FirstNotOf(content, " \t", index);
            first < |content| && !FenceAt(content, first)
  {
    var first := FirstNotOf(content, " \t", index);
    assert first <= start;
    assert content[first] != '`' && content[first] != '~';
  }

  lemma ScanFindsHere(content: string, start: nat)
    requires start < |content| && MarkupAt(content, start)
    ensures Scan(content, start, false, false, false)
  {
  }

  lemma ScanPassesBlank(content: string, index: nat)
    requires index < |content| && content[index] in BLANKS
    ensures Scan(content, index, false, false, false)
            == Scan(content, index + 1, false, false, content[index] == '\n' || content[index] == '\r')
  {
  }

  /** Leading blanks carry the scan to the first visible byte outside fences and code. */
  lemma {:induction false} ScanReachesMarkup(content: string, index: nat, start: nat, lineStart: bool)
    requires index <= start < |content| && MarkupAt(content, start)
    requires forall k | index <= k < start :: content[k] in BLANKS
    ensures Scan(content, index, false, false, lineStart)
    decreases start - index, lineStart
  {
    if lineStart {
      FirstIsNoFence(content, index, start);
      ScanReachesMarkup(content, index, start, false);
    } else if index < start {
      ScanPassesBlank(content, index);
      ScanReachesMarkup(content, index + 1, start, content[index] == '\n' || content[index] == '\r');
    } else {
      ScanFindsHere(content, start);
    }
  }

  lemma BracketInSuffix(content: string, start: nat, visible: string)
    requires start < |content| && visible == content[start..]
    ensures BracketedToolCallMarker(visible, 0) == BracketedToolCallMarker(content, start)
  {
    FirstOfInSuffix(content, start, "]", 1);
    var close := FirstOf(visible, "]", 1);
    assert close < |visible| ==> visible[0..close + 1] == content[start..start + close + 1];
  }

  lemma AngleInSuffix(content: string, start: nat, visible: string)
    requires start < |content| && visible == content[start..] && visible[0] == '<'
    requires ClassifyVisible(visible, false) == Call
    ensures MarkupAt(content, start)
  {
    FirstOfInSuffix(content, start, CLOSERS, 1);
    var close := FirstOf(visible, CLOSERS, 1);
    assert visible[..close + 1] == content[start..start + close + 1];
  }

  /** What streaming suppresses as a call, the check of the whole message finds too. */
  lemma SuppressionAgreesWithValidator(content: string)
    requires ClassifyLeadingToolMarkup(content, false) == Call
    ensures ContainsMarkup(content)
  {
    var start := Start(content);
    var visible := content[start..];
    if visible[0] == '[' {
      BracketInSuffix(content, start, visible);
    } else {
      AngleInSuffix(content, start, visible);
    }
    ScanReachesMarkup(content, 0, start, true);
  }

  // ---------------------------------------------------------------- the verdict, by positions

  lemma {:induction false} FirstOfIs(text: string, stops: string, from: nat)
    requires from <= |text|
    ensures forall k | from <= k < FirstOf(text, stops, from) :: text[k] !in stops
    decreases |text| - from
  {
    if from < |text| && text[from] !in stops {
      FirstOfIs(text, stops, from + 1);
    }
  }

  /** A content that may still turn out to be markup: blank, or a short opener whose end, or whose
      arguments, have not come. */
  predicate MayBecomeMarkup(content: string) {
    var start := Start(content);
    start < |content| ==>
      && |content| - start <= 257
      && (|| (content[start] == '<' && forall k | start < k < |content| :: !Closes(content[k]))
          || (content[start] == '[' && forall k | start < k < |content| - 1 :: content[k] != ']'))
  }

  lemma StartIs(content: string)
    ensures forall k | 0 <= k < Start(content) :: content[k] in [' ', '\t', '\r', '\n']
    ensures Start(content) < |content| ==> content[Start(content)] !in [' ', '\t', '\r', '\n']
  {
  }

  lemma BracketVerdict(content: string, start: nat, visible: string, complete: bool)
    requires start < |content| && visible == content[start..] && content[start] == '['
    ensures ClassifyVisible(visible, complete) == Call <==> MarkupAt(content, start)
    ensures ClassifyVisible(visible, complete) == Undecided <==>
              !complete && |visible| <= 257 && forall k | start < k < |content| - 1 :: content[k] != ']'
  {
    BracketInSuffix(content, start, visible);
    FirstOfIs(visible, "]", 1);
    assert FirstOf(visible, "]", 0) == FirstOf(visible, "]", 1);
    var close := FirstOf(visible, "]", 1);
    assert forall k | start < k < |content| :: content[k] == visible[k - start];
    if close < |visible| - 1 {
      assert content[start + close] == ']';
    }
  }

  predicate Closes(c: char) {
    c == '>' || c == ':' || c == '\r' || c == '\n'
  }

  /** The first closer after `open` is the first byte there that closes. */
  lemma FirstCloser(text: string, open: nat)
    requires open < |text|
    ensures var close := FirstOf(text, CLOSERS, open + 1);
            && open < close <= |text| && (close < |text| ==> Closes(text[close]))
            && forall k | open < k < close :: !Closes(text[k])
  {
    FirstOfIs(text, CLOSERS, open + 1);
    forall k | 0 <= k < |text|
      ensures Closes(text[k]) <==> text[k] in CLOSERS
    {
      assert CLOSERS[0] == '>' && CLOSERS[1] == ':' && CLOSERS[2] == '\r' && CLOSERS[3] == '\n' && |CLOSERS| == 4;
    }
  }

  /** Where the opener of the first visible byte ends, seen from the whole content. */
  lemma VisibleCloser(content: string, start: nat, visible: string) returns (close: nat)
    requires start < |content| && visible == content[start..]
    ensures close == FirstOf(visible, CLOSERS, 1) && start + close == FirstOf(content, CLOSERS, start + 1)
    ensures close < |visible| ==> visible[..close + 1] == content[start..start + close + 1]
  {
    FirstOfInSuffix(content, start, CLOSERS, 1);
    close := FirstOf(visible, CLOSERS, 1);
  }

  lemma ClosedVerdict(visible: string, complete: bool, close: nat, opener: string)
    requires visible != "" && visible[0] == '<' && close == FirstOf(visible, CLOSERS, 1) < |visible|
    requires opener == visible[..close + 1]
    ensures ClassifyVisible(visible, complete) == Call <==> close <= 256 && ForeignOpener(opener)
  {
  }

  lemma UnclosedVerdict(visible: string, complete: bool)
    requires visible != "" && visible[0] == '<' && FirstOf(visible, CLOSERS, 1) == |visible|
    ensures ClassifyVisible(visible, complete) == Call <==> complete && |visible| <= 256 && ForeignOpener(visible)
  {
  }

  lemma ClosedMarkup(content: string, start: nat, end: nat, opener: string)
    requires start < |content| && content[start] == '<' && end == FirstOf(content, CLOSERS, start + 1) < |content|
    requires opener == content[start..end + 1]
    ensures MarkupAt(content, start) <==> end - start <= 256 && ForeignOpener(opener)
  {
  }

  lemma AngleCall(content: string, start: nat, visible: string, complete: bool)
    requires start < |content| && visible == content[start..] && content[start] == '<'
    ensures ClassifyVisible(visible, complete) == Call <==>
              MarkupAt(content, start)
              || (complete && |visible| <= 256 && FirstOf(visible, CLOSERS, 1) == |visible| && ForeignOpener(visible))
  {
    var close := VisibleCloser(content, start, visible);
    if close < |visible| {
      var opener := visible[..close + 1];
      ClosedVerdict(visible, complete, close, opener);
      ClosedMarkup(content, start, start + close, opener);
    } else {
      UnclosedVerdict(visible, complete);
    }
  }

  lemma AngleUndecided(content: string, start: nat, visible: string, complete: bool)
    requires start < |content| && visible == content[start..] && content[start] == '<'
    ensures ClassifyVisible(visible, complete) == Undecided <==>
              !complete && |visible| <= 257 && forall k | start < k < |content| :: !Closes(content[k])
  {
    var close := VisibleCloser(content, start, visible);
    FirstCloser(content, start);
  }

  /** The exact verdict: a call when markup stands at the first visible byte, or a complete message is an
      unclosed opener; undecided while it may become markup; prose otherwise. */
  lemma VerdictIs(content: string, complete: bool)
    ensures ClassifyLeadingToolMarkup(content, complete) == Call <==>
              (Start(content) < |content| && MarkupAt(content, Start(content))) || (complete && UnclosedOpener(content))
    ensures ClassifyLeadingToolMarkup(content, complete) == Undecided <==> !complete && MayBecomeMarkup(content)
  {
    var start := Start(content);
    if start < |content| {
      var visible := content[start..];
      if visible[0] == '[' {
        BracketVerdict(content, start, visible, complete);
      } else if visible[0] == '<' {
        AngleCall(content, start, visible, complete);
        AngleUndecided(content, start, visible, complete);
      }
    }
  }

  // ---------------------------------------------------------------- what counts as markup

  /** Only letters and digits count, in lower case, whatever is between them. */
  lemma {:induction false} NormalizedConcat(a: string, b: string)
    ensures Normalized(a + b) == Normalized(a) + Normalized(b)
  {
    if b == "" {
      assert a + b == a;
    } else {
      assert (a + b)[..|a + b| - 1] == a + b[..|b| - 1];
      NormalizedConcat(a, b[..|b| - 1]);
    }
  }

  lemma NormalizedByte(c: char)
    ensures 'A' <= c <= 'Z' ==> Normalized([c]) == [(c as int - 'A' as int + 'a' as int) as char]
    ensures 'a' <= c <= 'z' || '0' <= c <= '9' ==> Normalized([c]) == [c]
    ensures !('A' <= c <= 'Z') && !('a' <= c <= 'z') && !('0' <= c <= '9') ==> Normalized([c]) == ""
  {
    assert [c][..0] == "";
  }

  /** An opener is foreign when it names a tool call after its bracket. */
  lemma ForeignOpenerIs(opener: string)
    ensures ForeignOpener(opener) <==>
              opener != "" && opener[0] in ['<', '['] && NamesToolCall(Normalized(opener[1..]))
  {
    if opener != "" {
      HasToolCallIsNamesToolCall(Normalized(opener[1..]));
    }
  }

  /** `close` is the first bracket that closes, near enough, and arguments follow it. */
  predicate MarkerClosesAt(text: string, open: nat, close: nat) {
    && open < close <= open + 256 && close + 1 < |text| && text[close] == ']' && text[close + 1] == '{'
    && forall k | open < k < close :: text[k] != ']'
  }

  /** A bracketed marker: closed within 256 bytes, naming a tool call, with arguments right behind. */
  lemma BracketedMarkerIs(text: string, open: nat)
    requires open < |text| && text[open] == '['
    ensures BracketedToolCallMarker(text, open) <==>
              exists close :: MarkerClosesAt(text, open, close) && NamesToolCall(Normalized(text[open + 1..close + 1]))
  {
    var first := FirstOf(text, "]", open + 1);
    FirstOfIs(text, "]", open + 1);
    if first < |text| {
      assert text[open..first + 1][1..] == text[open + 1..first + 1];
      ForeignOpenerIs(text[open..first + 1]);
    }
    if BracketedToolCallMarker(text, open) {
      assert MarkerClosesAt(text, open, first);
    }
    if close :| MarkerClosesAt(text, open, close) {
      assert close == first;
    }
  }

  /** `close` is the first byte that closes, near enough. */
  predicate AngleClosesAt(text: string, open: nat, close: nat) {
    open < close <= open + 256 && close < |text| && Closes(text[close]) && forall k | open < k < close :: !Closes(text[k])
  }

  /** An angle opener: closed within 256 bytes and naming a tool call. */
  lemma AngleMarkupIs(text: string, open: nat)
    requires open < |text| && text[open] == '<'
    ensures MarkupAt(text, open) <==>
              exists close :: AngleClosesAt(text, open, close) && NamesToolCall(Normalized(text[open + 1..close + 1]))
  {
    var first := FirstOf(text, CLOSERS, open + 1);
    FirstCloser(text, open);
    if first < |text| {
      assert text[open..first + 1][1..] == text[open + 1..first + 1];
      ForeignOpenerIs(text[open..first + 1]);
    }
    if MarkupAt(text, open) {
      assert AngleClosesAt(text, open, first);
    }
    if close :| AngleClosesAt(text, open, close) {
      assert close == first;
    }
  }

  /** A fence: three backticks or three tildes. */
  lemma FenceIs(content: string, i: nat)
    ensures FenceAt(content, i) <==>
              i + 3 <= |content| && content[i] == content[i + 1] == content[i + 2] && (content[i] == '`' || content[i] == '~')
  {
    if i + 3 <= |content| {
      var three := content[i..i + 3];
      assert three[0] == content[i] && three[1] == content[i + 1] && three[2] == content[i + 2];
      SameThree(three, "```");
      SameThree(three, "~~~");
    }
  }

  lemma SameThree(a: string, b: string)
    requires |a| == |b| == 3
    ensures a == b <==> a[0] == b[0] && a[1] == b[1] && a[2] == b[2]
  {
  }

  // ---------------------------------------------------------------- what is found, by positions

  /** What the text before a position says about it: whether it is in a fence or in inline code, whether
      a line starts there, and where the last closed angle ends. */
  datatype Reading = Reading(fenced: bool, inlineCode: bool, lineStart: bool, resume: nat)

  /** At the start of a line a fence opens or closes. */
  function Settled(content: string, k: nat, r: Reading): Reading
    requires k <= |content|
  {
    if r.lineStart then
      r.(fenced := r.fenced != FenceAt(content, FirstNotOf(content, " \t", k)), lineStart := false)
    else r
  }

  /** How far an angle at `k` outside code reaches: past its closer, when that is near. */
  function AngleEnd(content: string, k: nat): (end: nat)
    requires k < |content|
    ensures end <= |content|
  {
    var close := FirstOf(content, CLOSERS, k + 1);
    if close == |content| || close - k > 256 then k + 1 else close + 1
  }

  /** What one byte, not inside a closed angle, makes of the reading before it. */
  function After(content: string, k: nat, r: Reading): Reading
    requires k < |content|
  {
    var c := content[k];
    if c == '\n' || c == '\r' then r.(inlineCode := false, lineStart := true)
    else if r.fenced then r
    else if c == '`' then r.(inlineCode := !r.inlineCode)
    else if c == '<' && !r.inlineCode then r.(resume := AngleEnd(content, k))
    else r
  }

  function ReadingAt(content: string, k: nat): Reading
    requires k <= |content|
  {
    if k == 0 then Reading(false, false, true, 0)
    else
      var r := ReadingAt(content, k - 1);
      if k - 1 < r.resume then r else After(content, k - 1, Settled(content, k - 1, r))
  }

  /** Outside fences, inline code and closed angles. */
  predicate InText(content: string, k: nat)
    requires k < |content|
  {
    var r := Settled(content, k, ReadingAt(content, k));
    r.resume <= k && !r.fenced && !r.inlineCode
  }

  predicate LiveMarkup(content: string, k: nat) {
    k < |content| && MarkupAt(content, k) && InText(content, k)
  }

  ghost predicate LiveMarkupFrom(content: string, index: nat) {
    exists k: nat :: index <= k && LiveMarkup(content, k)
  }

  lemma {:induction false} SkipsAngle(content: string, k: nat, r: Reading, n: nat)
    requires k < n <= |content| && r == ReadingAt(content, k + 1) && n <= r.resume
    ensures ReadingAt(content, n) == r
    decreases n
  {
    if k + 1 < n {
      SkipsAngle(content, k, r, n - 1);
    }
  }

  lemma SkipOne(content: string, index: nat)
    requires index < |content|
    ensures LiveMarkupFrom(content, index) <==> LiveMarkup(content, index) || LiveMarkupFrom(content, index + 1)
  {
    if LiveMarkup(content, index) {
      assert index <= index && LiveMarkup(content, index);
    }
  }

  lemma NothingWithin(content: string, index: nat, end: nat)
    requires index <= end && forall k | index <= k < end :: !LiveMarkup(content, k)
    ensures LiveMarkupFrom(content, index) <==> LiveMarkupFrom(content, end)
  {
  }

  /** One step of the scan: the markup here, or what follows. */
  lemma ScanStep(content: string, index: nat, r: Reading, next: Reading, end: nat)
    requires index < |content| && r.resume <= index && !r.lineStart
    requires next == After(content, index, r) && end == if next.resume > index + 1 then next.resume else index + 1
    ensures end <= |content|
    ensures Scan(content, index, r.fenced, r.inlineCode, false)
       <==> (MarkupAt(content, index) && !r.fenced && !r.inlineCode)
            || Scan(content, end, next.fenced, next.inlineCode, next.lineStart)
  {
  }

  /** What the scan steps over lies inside a closed angle. */
  lemma SteppedOver(content: string, index: nat, r: Reading, next: Reading, end: nat)
    requires index < end <= |content| && next == ReadingAt(content, index + 1) && !r.lineStart && r.resume <= index
    requires r == Settled(content, index, ReadingAt(content, index)) && next == After(content, index, r)
    requires end == if next.resume > index + 1 then next.resume else index + 1
    ensures ReadingAt(content, end) == next
    ensures LiveMarkupFrom(content, index)
       <==> (MarkupAt(content, index) && !r.fenced && !r.inlineCode) || LiveMarkupFrom(content, end)
  {
    SkipOne(content, index);
    forall n | index < n <= end
      ensures ReadingAt(content, n) == next
    {
      if n <= next.resume {
        SkipsAngle(content, index, next, n);
      }
    }
    NothingWithin(content, index + 1, end);
  }

  /** From any point of the scan on, it finds exactly the markup that lies in text from there on. */
  lemma {:induction false} ScanFindsLiveMarkup(content: string, index: nat, r: Reading)
    requires index <= |content| && r.resume <= index
    requires Settled(content, index, r) == Settled(content, index, ReadingAt(content, index))
    ensures Scan(content, index, r.fenced, r.inlineCode, r.lineStart) <==> LiveMarkupFrom(content, index)
    decreases |content| - index, r.lineStart
  {
    if index < |content| && r.lineStart {
      ScanFindsLiveMarkup(content, index, Settled(content, index, r));
      if FirstNotOf(content, " \t", index) == |content| {
        NothingWithin(content, index, |content|);
      }
    } else if index < |content| {
      var next := After(content, index, r);
      var end := if next.resume > index + 1 then next.resume else index + 1;
      ScanStep(content, index, r, next, end);
      SteppedOver(content, index, r, next, end);
      ScanFindsLiveMarkup(content, end, next);
    }
  }

  /** What the check of a whole message decides: whether markup stands anywhere in its text, outside
      fences, inline code and the inside of closed angles. */
  lemma MarkupIsFoundInText(content: string)
    ensures ContainsMarkup(content) <==> exists k: nat :: LiveMarkup(content, k)
  {
    ScanFindsLiveMarkup(content, 0, Reading(false, false, true, 0));
    if k: nat :| LiveMarkup(content, k) {
      assert 0 <= k && LiveMarkup(content, k);
    }
  }

  // ---------------------------------------------------------------- the end of a message

  /** Without a bracket or a closed angle, there is nothing to find. */
  lemma {:induction false} ScanFindsNothing(content: string, index: nat, fenced: bool, inlineCode: bool, lineStart: bool)
    requires index <= |content|
    requires forall k | index <= k < |content| ::
               content[k] != '[' && (content[k] == '<' ==> FirstOf(content, CLOSERS, k + 1) == |content|)
    ensures !Scan(content, index, fenced, inlineCode, lineStart)
    decreases |content| - index, lineStart
  {
    if index < |content| {
      var c := content[index];
      if lineStart {
        var first := FirstNotOf(content, " \t", index);
        ScanFindsNothing(content, index, fenced != FenceAt(content, first), inlineCode, false);
      } else if c == '\n' || c == '\r' {
        ScanFindsNothing(content, index + 1, fenced, false, true);
      } else {
        ScanFindsNothing(content, index + 1, fenced, if fenced || c != '`' then inlineCode else !inlineCode, false);
      }
    }
  }

  lemma {:induction false} NoCloserAfter(content: string, from: nat, k: nat)
    requires from <= k <= |content| && FirstOf(content, CLOSERS, from) == |content|
    ensures FirstOf(content, CLOSERS, k) == |content|
    decreases k - from
  {
    if from < k {
      NoCloserAfter(content, from + 1, k);
    }
  }

  /** Whether an odd number of backticks stands between two positions. */
  predicate OddTicks(content: string, from: nat, to: nat)
    requires to <= |content|
  {
    from < to && OddTicks(content, from, to - 1) != (content[to - 1] == '`')
  }

  lemma {:induction false} ReadingBeforeOpener(content: string, start: nat, k: nat)
    requires k <= start < |content| && content[start] == '<'
    requires forall j | 0 <= j < start :: content[j] in BLANKS
    ensures var r := ReadingAt(content, k); !r.fenced && !r.inlineCode && r.resume == 0
    ensures !Settled(content, k, ReadingAt(content, k)).fenced
  {
    FirstIsNoFence(content, k, start);
    if k > 0 {
      ReadingBeforeOpener(content, start, k - 1);
    }
  }

  /** After an opener that is never closed, backticks alone say what is code. */
  lemma {:induction false} ReadingAfterOpener(content: string, start: nat, k: nat)
    requires start < k <= |content| && content[start] == '<'
    requires forall j | 0 <= j < start :: content[j] in BLANKS
    requires FirstOf(content, CLOSERS, start + 1) == |content|
    ensures ReadingAt(content, k).resume <= k
    ensures ReadingAt(content, k) == Reading(false, OddTicks(content, start + 1, k), false, ReadingAt(content, k).resume)
  {
    if k == start + 1 {
      ReadingBeforeOpener(content, start, start);
    } else {
      ReadingAfterOpener(content, start, k - 1);
      NoCloserAfter(content, start + 1, k - 1);
      NoCloserAfter(content, start + 1, k);
    }
  }

  /** A bracketed marker after the opener a message starts with, outside inline code. */
  predicate MarkerAfterOpener(content: string, k: nat) {
    && Start(content) < k < |content| && content[k] == '['
    && !OddTicks(content, Start(content) + 1, k) && BracketedToolCallMarker(content, k)
  }

  lemma LiveAfterOpener(content: string, start: nat, k: nat)
    requires start < k < |content| && FirstOf(content, CLOSERS, start + 1) == |content|
    requires var r := ReadingAt(content, k);
             r.resume <= k && r == Reading(false, OddTicks(content, start + 1, k), false, r.resume)
    ensures LiveMarkup(content, k)
       <==> content[k] == '[' && !OddTicks(content, start + 1, k) && BracketedToolCallMarker(content, k)
  {
    NoCloserAfter(content, start + 1, k + 1);
  }

  lemma OnlyMarkersAreLive(content: string, k: nat)
    requires UnclosedOpener(content) && k < |content|
    ensures LiveMarkup(content, k) <==> MarkerAfterOpener(content, k)
  {
    var start := Start(content);
    FirstOfInSuffix(content, start, CLOSERS, 1);
    if start < k {
      ReadingAfterOpener(content, start, k);
      LiveAfterOpener(content, start, k);
    }
  }

  /** The end of the message is where the two part: an unclosed opener is suppressed, and the check of
      the whole message finds it exactly when a bracketed marker follows outside inline code. */
  lemma UnclosedOpenerIsFound(content: string)
    requires UnclosedOpener(content)
    ensures ClassifyLeadingToolMarkup(content, true) == Call
    ensures ContainsMarkup(content) <==> exists k: nat :: MarkerAfterOpener(content, k)
  {
    CompleteVerdict(content);
    MarkupIsFoundInText(content);
    if k: nat :| LiveMarkup(content, k) {
      OnlyMarkersAreLive(content, k);
    }
    if k: nat :| MarkerAfterOpener(content, k) {
      OnlyMarkersAreLive(content, k);
    }
  }

  /** So without a bracket it finds nothing. */
  lemma UnclosedOpenerIsNotFound(content: string)
    requires UnclosedOpener(content) && '[' !in content
    ensures ClassifyLeadingToolMarkup(content, true) == Call && !ContainsMarkup(content)
  {
    UnclosedOpenerIsFound(content);
  }

  lemma {:induction false} NormalizedLowerCase(s: string)
    requires forall k | 0 <= k < |s| :: 'a' <= s[k] <= 'z'
    ensures Normalized(s) == s
  {
    if s != "" {
      NormalizedLowerCase(s[..|s| - 1]);
    }
  }

  lemma {:induction false} FirstOfNone(text: string, stops: string, from: nat)
    requires from <= |text| && forall k | from <= k < |text| :: text[k] !in stops
    ensures FirstOf(text, stops, from) == |text|
    decreases |text| - from
  {
    if from < |text| {
      FirstOfNone(text, stops, from + 1);
    }
  }

  lemma NameIsFound(name: string)
    requires |name| == 8 && name[..4] == "tool" && name[4..] == "call"
    ensures HasToolCall(name)
  {
    assert name[4..8] == name[4..];
    assert At(name, 0, "tool") && At(name, 4, "call");
    HasToolCallIsNamesToolCall(name);
  }

  lemma OpenerIsUnclosed(content: string, name: string)
    requires content == "<" + name && |name| == 8 && name[..4] == "tool" && name[4..] == "call"
    ensures UnclosedOpener(content)
  {
    assert content[1..] == name && content[0..] == content;
    assert forall k | 0 <= k < 8 :: name[k] == if k < 4 then name[..4][k] else name[4..][k - 4];
    NormalizedLowerCase(name);
    NameIsFound(name);
    FirstOfNone(content, CLOSERS, 1);
  }

  lemma UnclosedOpenerExists()
    ensures UnclosedOpener("<toolcall") && '[' !in "<toolcall"
  {
    var name := "toolcall";
    assert "<toolcall" == "<" + name && name[..4] == "tool" && name[4..] == "call";
    OpenerIsUnclosed("<toolcall", name);
  }

  /** A message that is suppressed and not found. */
  lemma SuppressedAndNotFound()
    ensures ClassifyLeadingToolMarkup("<toolcall", true) == Call && !ContainsMarkup("<toolcall")
  {
    var content := "<toolcall";
    UnclosedOpenerExists();
    UnclosedOpenerIsNotFound(content);
  }
}

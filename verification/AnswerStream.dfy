/** The streamed answer: content is held back until it is prose or foreign tool markup. */
module AnswerStream {
  import opened Chunks
  import opened ToolProtocol

  datatype Show = Held | Print | Suppress

  /** One answer event: text that starts at `offset` of the content. */
  datatype Delta = Delta(offset: int, text: string)

  /** The deltas, in order, are `text` cut into adjacent pieces. */
  predicate Rebuilds(deltas: seq<Delta>, text: string) {
    if deltas == [] then text == ""
    else
      var last := deltas[|deltas| - 1];
      && 0 <= last.offset <= |text|
      && last.text == text[last.offset..]
      && Rebuilds(deltas[..|deltas| - 1], text[..last.offset])
  }

  /** Every event carries text. */
  predicate NoneEmpty(deltas: seq<Delta>) {
    forall k | 0 <= k < |deltas| :: deltas[k].text != ""
  }

  function TextsOf(deltas: seq<Delta>): (texts: seq<string>)
    ensures |texts| == |deltas|
  {
    seq(|deltas|, k requires 0 <= k < |deltas| => deltas[k].text)
  }

  /** Joined in order they are the text, and each starts where those before it end. */
  lemma {:induction false} RebuiltText(deltas: seq<Delta>, text: string)
    requires Rebuilds(deltas, text)
    ensures Concat(TextsOf(deltas)) == text
    ensures forall k | 0 <= k < |deltas| :: deltas[k].offset == |Concat(TextsOf(deltas)[..k])|
  {
    if deltas != [] {
      var before, last := deltas[..|deltas| - 1], deltas[|deltas| - 1];
      RebuiltText(before, text[..last.offset]);
      assert TextsOf(deltas)[..|before|] == TextsOf(before);
      assert text == text[..last.offset] + text[last.offset..];
      assert forall k | 0 <= k <= |before| :: TextsOf(deltas)[..k] == TextsOf(before)[..k];
    }
  }

  lemma RebuildsMore(deltas: seq<Delta>, text: string, more: string)
    requires Rebuilds(deltas, text)
    ensures Rebuilds(deltas + [Delta(|text|, more)], text + more)
  {
    var longer := deltas + [Delta(|text|, more)];
    assert longer[..|deltas|] == deltas;
    assert (text + more)[..|text|] == text;
  }

  /** Whatever is suppressed at the end, the check of the whole message finds exactly when it is no
      unclosed opener, or a marker follows that one. */
  lemma SuppressedIsMarkup(content: string)
    requires ClassifyLeadingToolMarkup(content, true) == Call
    ensures ContainsMarkup(content) <==>
              !UnclosedOpener(content) || exists k: nat :: MarkerAfterOpener(content, k)
  {
    CompleteVerdict(content);
    if UnclosedOpener(content) {
      UnclosedOpenerIsFound(content);
    } else {
      SuppressionAgreesWithValidator(content);
    }
  }

  class AnswerStream {
    var content: string
    var show: Show
    var suppressed: bool
    var deltas: seq<Delta>

    /** What holds while content still arrives. */
    ghost predicate Streaming()
      reads this
    {
      var verdict := ClassifyLeadingToolMarkup(content, false);
      match show
      case Held => verdict == Undecided && deltas == [] && !suppressed
      case Print => verdict == Prose && Rebuilds(deltas, content) && !suppressed
      case Suppress => verdict == Call && deltas == [] && suppressed
    }

    constructor ()
      ensures Streaming() && content == ""
    {
      content, show, suppressed, deltas := "", Held, false, [];
    }

    method OutputText(value: string)
      modifies `deltas
      ensures deltas == old(deltas) + [Delta(|content| - |value|, value)]
    {
      deltas := deltas + [Delta(|content| - |value|, value)];
    }

    /** What is shown so far, by positions. */
    ghost predicate ShownAsFar()
      reads this
    {
      && (show == Held <==> MayBecomeMarkup(content))
      && (suppressed <==> Start(content) < |content| && MarkupAt(content, Start(content)))
    }

    lemma StreamingShows()
      requires Streaming()
      ensures ShownAsFar()
    {
      VerdictIs(content, false);
    }

    method EmitContent(c: string)
      requires Streaming()
      modifies this
      ensures Streaming() && ShownAsFar() && content == old(content) + c
      ensures NoneEmpty(old(deltas)) && c != "" ==> NoneEmpty(deltas)
    {
      if ClassifyLeadingToolMarkup(content, false) != Undecided {
        VerdictIsStable(content, c, false);
      }
      if show == Print {
        RebuildsMore(deltas, content, c);
      }
      content := content + c;
      if show == Print {
        OutputText(c);
      } else if show == Held {
        Release();
      }
      StreamingShows();
    }

    /** Shows or suppresses what was held, once it is decided. */
    method Release()
      requires show == Held && deltas == [] && !suppressed
      modifies `show, `suppressed, `deltas
      ensures Streaming() && NoneEmpty(deltas)
    {
      var classification := ClassifyLeadingToolMarkup(content, false);
      if classification == Prose {
        show := Print;
        RebuildsMore([], "", content);
        assert "" + content == content && [] + [Delta(0, content)] == [Delta(0, content)];
        OutputText(content);
      } else if classification == Call {
        show := Suppress;
        suppressed := true;
      }
    }

    /** Streaming equals batch: the whole content was printed in adjacent pieces, or nothing was and
        the answer is marked suppressed, and which it is the verdict on the whole content says. */
    ghost predicate Ended()
      reads this
    {
      if ClassifyLeadingToolMarkup(content, true) == Call
      then suppressed && deltas == []
      else !suppressed && Rebuilds(deltas, content)
    }

    method Finish()
      requires Streaming()
      modifies this
      ensures Ended() && content == old(content)
      ensures NoneEmpty(old(deltas)) ==> NoneEmpty(deltas)
    {
      if ClassifyLeadingToolMarkup(content, false) != Undecided {
        VerdictIsStable(content, "", true);
        assert content + "" == content;
      }
      if show != Held || content == "" {
        return;
      }
      if ClassifyLeadingToolMarkup(content, true) == Call {
        show := Suppress;
        suppressed := true;
        return;
      }
      show := Print;
      RebuildsMore([], "", content);
      assert "" + content == content && [] + [Delta(0, content)] == [Delta(0, content)];
      OutputText(content);
    }

    /** A whole response: every chunking of the same content ends the same way. */
    method Run(chunks: seq<string>)
      requires Streaming() && content == ""
      modifies this
      ensures content == Concat(chunks) && Ended()
      ensures suppressed <==> (Start(content) < |content| && MarkupAt(content, Start(content))) || UnclosedOpener(content)
      ensures Concat(TextsOf(deltas)) == if suppressed then "" else content
      ensures forall k | 0 <= k < |deltas| :: deltas[k].offset == |Concat(TextsOf(deltas)[..k])|
      ensures old(NoneEmpty(deltas)) ==> NoneEmpty(deltas)
      ensures suppressed ==>
                (ContainsMarkup(content) <==> !UnclosedOpener(content) || exists k: nat :: MarkerAfterOpener(content, k))
    {
      for k := 0 to |chunks|
        invariant Streaming() && content == Concat(chunks[..k])
        invariant old(NoneEmpty(deltas)) ==> NoneEmpty(deltas)
      {
        assert chunks[..k + 1][..k] == chunks[..k];
        if chunks[k] != "" {
          EmitContent(chunks[k]);
        }
      }
      assert chunks[..|chunks|] == chunks;
      Finish();
      VerdictIs(content, true);
      RebuiltText(deltas, if suppressed then "" else content);
      if suppressed {
        SuppressedIsMarkup(content);
      }
    }
  }
}

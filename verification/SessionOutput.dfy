/** Collecting a session's output while its I/O thread keeps appending. */
module SessionOutput {
  import opened Chunks
  import opened OutputBuffer
  import Dispatch
  import ToolProtocol

  const MIB: nat := 1048576
  const UNTIL_WINDOW: nat := 65536
  const NO_NEW_OUTPUT := "(no new output)"

  predicate Contains(text: string, word: string) {
    word != "" && ToolProtocol.Find(text, word, 0).Found?
  }

  /** The window holds the end of the output since it was cleared: all of it, or the last 64 KiB at least. */
  predicate IsWindow(window: string, since: string) {
    && |window| <= |since| && window == since[|since| - |window|..]
    && (|window| == |since| || |window| >= UNTIL_WINDOW)
  }

  predicate WindowOk(window: string, produced: string, cleared: nat) {
    cleared <= |produced| && IsWindow(window, produced[cleared..])
  }

  /** The window is trimmed once it has doubled. */
  function Trimmed(window: string): string {
    if |window| > 2 * UNTIL_WINDOW then window[|window| - UNTIL_WINDOW..] else window
  }

  lemma WindowGrows(window: string, produced: string, cleared: nat, chunk: string)
    requires WindowOk(window, produced, cleared)
    ensures WindowOk(Trimmed(window + chunk), produced + chunk, cleared)
  {
    DropFirst(produced, chunk, cleared);
    StaysWindow(window, produced[cleared..], chunk);
    TrimsToWindow(produced[cleared..] + chunk, window + chunk);
  }

  lemma StaysWindow(window: string, since: string, chunk: string)
    requires IsWindow(window, since)
    ensures IsWindow(window + chunk, since + chunk)
  {
    DropFirst(since, chunk, |since| - |window|);
  }

  lemma DropFirst(text: string, more: string, n: nat)
    requires n <= |text|
    ensures (text + more)[n..] == text[n..] + more
  {
  }

  lemma TrimsToWindow(since: string, window: string)
    requires IsWindow(window, since)
    ensures IsWindow(Trimmed(window), since)
  {
  }

  /** A match means the marker is in the output since the window was cleared, and a marker in the last
      64 KiB of that output is a match. */
  ghost predicate Matches(since: string, until: string, matched: bool) {
    && (matched ==> Contains(since, until))
    && (until != "" ==> forall k | 0 <= k && |since| - 65536 <= k && ToolProtocol.At(since, k, until) :: matched)
  }

  lemma WindowMatches(window: string, since: string, until: string)
    requires IsWindow(window, since)
    ensures Matches(since, until, Contains(window, until))
  {
    var shift := |since| - |window|;
    if Contains(window, until) {
      var i := ToolProtocol.Find(window, until, 0).at;
      assert since[shift + i..shift + i + |until|] == window[i..i + |until|];
      assert ToolProtocol.At(since, shift + i, until);
    }
    forall k | until != "" && 0 <= k && |since| - UNTIL_WINDOW <= k && ToolProtocol.At(since, k, until)
      ensures Contains(window, until)
    {
      assert k >= shift;
      assert since[k..k + |until|] == window[k - shift..k - shift + |until|];
      assert ToolProtocol.At(window, k - shift, until);
    }
  }

  lemma StreamGrows(drained: string, stream: string, chunk: string)
    ensures drained + stream + chunk == drained + (stream + chunk)
  {
  }

  lemma NothingPending(drained: string, pending: string)
    requires pending == ""
    ensures drained + pending == drained
  {
  }

  class Session {
    const pending: HeadTailBuffer
    var terminal: bool
    var untilWindow: string
    /** All output so far, and the part of it some read has taken. */
    ghost var produced: string
    ghost var drained: string
    /** How much had been produced when the window was last cleared. */
    ghost var cleared: nat

    ghost predicate Valid()
      reads this, pending
    {
      && pending.Valid() && produced == drained + pending.stream
      && WindowOk(untilWindow, produced, cleared)
      && pending.headBudget == pending.tailBudget == MIB / 2
    }

    constructor ()
      ensures Valid() && !terminal && produced == "" && fresh(pending)
    {
      pending := new HeadTailBuffer(MIB);
      terminal, untilWindow, produced, drained, cleared := false, "", "", "", 0;
    }

    /** One locked step of the I/O thread: output arrives while the activity is live. */
    method Append(chunk: string)
      requires Valid() && !terminal
      modifies this, pending
      ensures Valid() && !terminal && produced == old(produced) + chunk && drained == old(drained)
      ensures cleared == old(cleared)
    {
      WindowGrows(untilWindow, produced, cleared, chunk);
      pending.Push(chunk);
      produced := produced + chunk;
      StreamGrows(drained, old(pending.stream), chunk);
      GrowWindow(chunk);
    }

    method GrowWindow(chunk: string)
      modifies `untilWindow
      ensures untilWindow == Trimmed(old(untilWindow) + chunk)
    {
      untilWindow := untilWindow + chunk;
      if |untilWindow| > 2 * UNTIL_WINDOW {
        untilWindow := untilWindow[|untilWindow| - UNTIL_WINDOW..];
      }
    }

    /** Any steps of the I/O thread between two locked steps of a reader: output only grows, and
        after the activity turned terminal there is no more. */
    method IoThread()
      requires Valid()
      modifies this, pending
      ensures Valid() && drained == old(drained) && cleared == old(cleared) && old(produced) <= produced
      ensures old(terminal) ==> terminal && produced == old(produced)
    {
      var chunks: seq<string> := *;
      if terminal {
        return;
      }
      for k := 0 to |chunks|
        invariant Valid() && !terminal && drained == old(drained) && cleared == old(cleared)
        invariant old(produced) <= produced
      {
        Append(chunks[k]);
      }
      var ends: bool := *;
      if ends {
        terminal := true;
      }
    }

    /** Takes all pending output, in one locked step. */
    method Drain() returns (raw: string, ghost stream: string)
      requires Valid()
      modifies this, pending
      ensures Valid() && produced == drained == old(produced) && terminal == old(terminal) && cleared == old(cleared)
      ensures drained == old(drained) + stream && raw == SnapshotOf(stream, MIB / 2, MIB / 2)
    {
      stream := pending.stream;
      raw := pending.Drain();
      drained := produced;
      NothingPending(produced, pending.stream);
    }

    method ClearWindow()
      requires Valid()
      modifies `untilWindow, `cleared
      ensures Valid() && untilWindow == "" && cleared == |produced|
    {
      untilWindow, cleared := "", |produced|;
    }

    /** Whether the window shows the marker. */
    method Matched(until: string) returns (matched: bool)
      requires Valid()
      ensures Matches(produced[cleared..], until, matched)
    {
      WindowMatches(untilWindow, produced[cleared..], until);
      return Contains(untilWindow, until);
    }
  }

  /** What one read of the pending output yields. */
  function ChunkOf(stream: string, cap: int): string {
    var raw := SnapshotOf(stream, MIB / 2, MIB / 2);
    if raw == "" then NO_NEW_OUTPUT else Dispatch.LimitOutput(raw, cap)
  }

  /** A read is all that was pending when that fits, and is no longer than a positive cap. */
  lemma ChunkIs(stream: string, cap: int)
    ensures stream != "" && |stream| <= 1048576 && (cap <= 0 || |stream| <= cap) ==> ChunkOf(stream, cap) == stream
    ensures stream == "" ==> ChunkOf(stream, cap) == "(no new output)"
    ensures stream != "" && cap > 0 ==> |ChunkOf(stream, cap)| <= cap
  {
    WholeOrMarked(stream);
  }

  lemma WholeOrMarked(stream: string)
    ensures |stream| <= 1048576 ==> SnapshotOf(stream, MIB / 2, MIB / 2) == stream
    ensures stream != "" ==> SnapshotOf(stream, MIB / 2, MIB / 2) != ""
  {
  }

  /** The reads that count as output. */
  function Kept(streams: seq<string>, cap: int): seq<string> {
    if streams == [] then []
    else
      var chunk := ChunkOf(streams[|streams| - 1], cap);
      Kept(streams[..|streams| - 1], cap) + if chunk == NO_NEW_OUTPUT then [] else [chunk]
  }

  function Budget(cap: int): nat {
    if cap > 0 then cap else MIB
  }

  function HeadBudget(cap: int): nat {
    Budget(cap) / 2
  }

  function TailBudget(cap: int): nat {
    Budget(cap) - Budget(cap) / 2
  }

  /** What a wait has collected, as its buffer shows it. */
  function Collected(streams: seq<string>, cap: int): string {
    SnapshotOf(Concat(Kept(streams, cap)), HeadBudget(cap), TailBudget(cap))
  }

  datatype Exit = Done | Aborted | Yielded | TimedOut | Going

  /** The text an exit returns. */
  function Finish(snapshot: string, exit: Exit): string {
    if exit.Aborted? || exit.Going? then ""
    else if snapshot != "" then snapshot
    else if exit.Done? then NO_NEW_OUTPUT
    else ""
  }

  /** What a caller asks of a wait. */
  datatype Request = Request(waitMs: int, until: string, cap: int, settle: bool)

  /** What one round of a wait observes: the read it takes, the output since the window was cleared,
      whether that showed the marker, and the state of the session and of its surroundings. */
  datatype Seen = Seen(stream: string, since: string, matched: bool, terminal: bool,
                       quietOver: bool, abort: bool, steering: bool, late: bool)

  function Streams(rounds: seq<Seen>): (streams: seq<string>)
    ensures |streams| == |rounds|
  {
    seq(|rounds|, k requires 0 <= k < |rounds| => rounds[k].stream)
  }

  /** The stop conditions at the end of a round. */
  predicate Stops(rounds: seq<Seen>, r: Request)
    requires rounds != []
  {
    var last, snapshot := rounds[|rounds| - 1], Collected(Streams(rounds), r.cap);
    || last.matched || Contains(snapshot, r.until) || last.terminal
    || (r.until == "" && !r.settle && snapshot != "")
    || (r.settle && Kept(Streams(rounds), r.cap) != [] && last.quietOver)
    || r.waitMs <= 0
  }

  /** How a round ends: on its stop conditions, or, in this order, on an abort, on queued steering or
      at the deadline, or not at all. */
  function ExitOf(rounds: seq<Seen>, r: Request): Exit
    requires rounds != []
  {
    var last := rounds[|rounds| - 1];
    if Stops(rounds, r) then Done
    else if last.abort then Aborted
    else if last.steering then Yielded
    else if last.late then TimedOut
    else Going
  }

  /** Rounds none of which ends the wait. */
  ghost predicate GoesOn(rounds: seq<Seen>, r: Request) {
    && (forall k | 0 <= k < |rounds| :: Matches(rounds[k].since, r.until, rounds[k].matched))
    && (forall n | 0 < n <= |rounds| :: ExitOf(rounds[..n], r).Going?)
  }

  /** The rounds of one whole wait. */
  ghost predicate IsWait(rounds: seq<Seen>, r: Request) {
    && rounds != [] && GoesOn(rounds[..|rounds| - 1], r) && !ExitOf(rounds, r).Going?
    && Matches(rounds[|rounds| - 1].since, r.until, rounds[|rounds| - 1].matched)
  }

  /** A round belongs to one output stream: what was pending at the start and all since is what the reads
      before took, at least, and what this one takes covers it, all of it once the session is terminal. */
  ghost predicate InStream(pending: string, taken: string, seen: Seen) {
    && taken <= pending + seen.since <= taken + seen.stream
    && (seen.terminal ==> pending + seen.since == taken + seen.stream)
  }

  ghost predicate OneStream(rounds: seq<Seen>, pending: string) {
    forall k | 0 <= k < |rounds| :: InStream(pending, Concat(Streams(rounds[..k])), rounds[k])
  }

  lemma OneStreamMore(rounds: seq<Seen>, pending: string, seen: Seen)
    requires OneStream(rounds, pending) && InStream(pending, Concat(Streams(rounds)), seen)
    ensures OneStream(rounds + [seen], pending)
  {
    var more := rounds + [seen];
    forall k | 0 <= k < |more|
      ensures InStream(pending, Concat(Streams(more[..k])), more[k])
    {
      assert more[..k] == rounds[..k];
      assert k == |rounds| ==> rounds[..k] == rounds;
    }
  }

  /** What holds of the output as a whole holds of it past what was drained at the start. */
  lemma PastStart(start: string, pending: string, taken: string, stream: string, observed: string, seen: Seen)
    requires start + taken <= observed <= start + taken + stream && start + pending <= observed
    requires seen.stream == stream && seen.since == observed[|start + pending|..]
    requires seen.terminal ==> observed == start + taken + stream
    ensures InStream(pending, taken, seen)
  {
    var rest := observed[|start|..];
    assert rest[..|pending|] == pending && rest == pending + seen.since;
    assert (start + taken)[|start|..] == taken && rest[..|taken|] == taken;
    assert (start + taken + stream)[|start|..] == taken + stream;
  }

  /** The rounds so far, and how the last of them ended. */
  ghost predicate EndsAs(rounds: seq<Seen>, r: Request, exit: Exit) {
    if exit.Going? then GoesOn(rounds, r) else IsWait(rounds, r) && exit == ExitOf(rounds, r)
  }

  lemma PrefixesOfMore(rounds: seq<Seen>, more: seq<Seen>, n: nat)
    requires |more| == |rounds| + 1 && more[..|rounds|] == rounds && n <= |more|
    ensures more[..n] == if n < |more| then rounds[..n] else more
  {
  }

  lemma StillGoesOn(rounds: seq<Seen>, seen: Seen, r: Request, more: seq<Seen>)
    requires GoesOn(rounds, r) && Matches(seen.since, r.until, seen.matched)
    requires more == rounds + [seen] && ExitOf(more, r).Going?
    ensures GoesOn(more, r)
  {
    forall n | 0 < n <= |more|
      ensures ExitOf(more[..n], r).Going?
    {
      PrefixesOfMore(rounds, more, n);
    }
  }

  lemma OneMoreRound(rounds: seq<Seen>, seen: Seen, r: Request)
    requires GoesOn(rounds, r) && Matches(seen.since, r.until, seen.matched)
    ensures EndsAs(rounds + [seen], r, ExitOf(rounds + [seen], r))
  {
    var more := rounds + [seen];
    assert more[..|rounds|] == rounds;
    if ExitOf(more, r).Going? {
      StillGoesOn(rounds, seen, r, more);
    }
  }

  lemma KeptOneMore(streams: seq<string>, stream: string, cap: int, chunk: string)
    requires chunk == ChunkOf(stream, cap)
    ensures chunk == NO_NEW_OUTPUT ==> Kept(streams + [stream], cap) == Kept(streams, cap)
    ensures chunk != NO_NEW_OUTPUT ==> Kept(streams + [stream], cap) == Kept(streams, cap) + [chunk]
  {
    assert (streams + [stream])[..|streams|] == streams;
  }

  /** What one more read adds to what a wait has collected. */
  lemma CollectedOneMore(streams: seq<string>, stream: string, cap: int, chunk: string)
    requires chunk == ChunkOf(stream, cap)
    ensures chunk == NO_NEW_OUTPUT ==> Concat(Kept(streams + [stream], cap)) == Concat(Kept(streams, cap))
    ensures chunk != NO_NEW_OUTPUT ==> Concat(Kept(streams + [stream], cap)) == Concat(Kept(streams, cap)) + chunk
  {
    KeptOneMore(streams, stream, cap, chunk);
    OneMore(Kept(streams, cap), chunk);
  }

  /** The collecting buffer holds the reads so far that count as output. */
  ghost predicate Collects(collected: HeadTailBuffer, streams: seq<string>, cap: int)
    reads collected
  {
    && collected.Valid() && collected.stream == Concat(Kept(streams, cap))
    && collected.headBudget == HeadBudget(cap) && collected.tailBudget == TailBudget(cap)
  }

  /** Drains the session into the collecting buffer. */
  method DrainInto(session: Session, collected: HeadTailBuffer, cap: int, ghost streams: seq<string>)
    returns (some: bool, ghost stream: string)
    requires session.Valid() && Collects(collected, streams, cap) && collected != session.pending
    modifies session, session.pending, collected
    ensures session.Valid() && session.produced == session.drained == old(session.produced)
    ensures session.terminal == old(session.terminal)
    ensures session.drained == old(session.drained) + stream && session.cleared == old(session.cleared)
    ensures Collects(collected, streams + [stream], cap)
    ensures some <==> ChunkOf(stream, cap) != NO_NEW_OUTPUT
  {
    var raw;
    raw, stream := session.Drain();
    var chunk := if raw == "" then NO_NEW_OUTPUT else Dispatch.LimitOutput(raw, cap);
    CollectedOneMore(streams, stream, cap, chunk);
    some := chunk != NO_NEW_OUTPUT;
    if some {
      collected.Push(chunk);
    }
  }

  /** Everything in `earlier` was observed and what was observed is drained; and all there is, when the
      session was seen to be terminal. */
  ghost predicate SawAll(session: Session, earlier: string, observed: string, terminal: bool)
    reads session
  {
    && earlier <= observed <= session.drained
    && (terminal ==> session.terminal && session.drained == session.produced == observed)
  }

  /** So it was in this round of a wait that began with `earliest`. */
  ghost predicate SawRound(session: Session, earliest: string, observed: string, seen: Seen)
    reads session
  {
    SawAll(session, earliest, observed, seen.terminal) && seen.since == observed[|earliest|..]
  }

  lemma SawAllSince(session: Session, earliest: string, earlier: string, observed: string, terminal: bool)
    requires earliest <= earlier && SawAll(session, earlier, observed, terminal)
    ensures SawAll(session, earliest, observed, terminal) && earliest <= session.drained
  {
  }

  /** One round of a wait: stop conditions first, then the drain, with the I/O thread in between. */
  method Round(session: Session, collected: HeadTailBuffer, until: string, cap: int, ghost streams: seq<string>)
    returns (terminal: bool, matched: bool, some: bool, ghost stream: string, ghost observed: string)
    requires session.Valid() && Collects(collected, streams, cap) && collected != session.pending
    modifies session, session.pending, collected
    ensures session.Valid() && Collects(collected, streams + [stream], cap)
    ensures session.drained == old(session.drained) + stream && session.cleared == old(session.cleared)
    ensures session.produced == session.drained && SawAll(session, old(session.produced), observed, terminal)
    ensures session.cleared <= |observed| && Matches(observed[session.cleared..], until, matched)
    ensures some <==> ChunkOf(stream, cap) != NO_NEW_OUTPUT
  {
    session.IoThread();
    terminal := session.terminal;
    matched := session.Matched(until);
    observed := session.produced;
    session.IoThread();
    some, stream := DrainInto(session, collected, cap, streams);
  }

  method Show(collected: HeadTailBuffer, cap: int, ghost streams: seq<string>) returns (snapshot: string)
    requires Collects(collected, streams, cap)
    ensures snapshot == Collected(streams, cap)
  {
    snapshot := collected.Snapshot();
  }

  lemma TakenOneMore(start: string, streams: seq<string>, stream: string)
    ensures start + Concat(streams) + stream == start + Concat(streams + [stream])
  {
    OneMore(streams, stream);
  }

  /** The end of a round, with whatever its surroundings ask for by then. */
  method EndRound(r: Request, snapshot: string, quiet: bool, matched: bool, terminal: bool, late: bool,
                  ghost rounds: seq<Seen>, ghost stream: string, ghost since: string)
    returns (exit: Exit, ghost now: seq<Seen>)
    requires snapshot == Collected(Streams(rounds) + [stream], r.cap)
    requires quiet <==> r.settle && Kept(Streams(rounds) + [stream], r.cap) != []
    requires GoesOn(rounds, r) && Matches(since, r.until, matched)
    ensures Streams(now) == Streams(rounds) + [stream] && now[|now| - 1].since == since
    ensures now[|now| - 1].terminal == terminal && EndsAs(now, r, exit)
    ensures now == rounds + [now[|now| - 1]] && now[|now| - 1].stream == stream
    ensures late ==> !exit.Going?
  {
    var quietOver, abort, steering: bool := *, *, *;
    ghost var seen := Seen(stream, since, matched, terminal, quietOver, abort, steering, late);
    now := rounds + [seen];
    StreamsOneMore(rounds, seen);
    OneMoreRound(rounds, seen, r);
    var stop := matched || Contains(snapshot, r.until) || terminal || (r.until == "" && !r.settle && snapshot != "")
                || (quiet && quietOver) || r.waitMs <= 0;
    exit := if stop then Done else if abort then Aborted else if steering then Yielded else if late then TimedOut else Going;
  }

  lemma StreamsOneMore(rounds: seq<Seen>, seen: Seen)
    ensures Streams(rounds + [seen]) == Streams(rounds) + [seen.stream]
  {
  }

  /** What a wait for output holds between rounds: the session in order, the reads so far collected,
      and drained what it has taken since `start`. */
  ghost predicate Waiting(session: Session, collected: HeadTailBuffer, r: Request, rounds: seq<Seen>, quiet: bool,
                          start: string, pending: string)
    reads session, session.pending, collected
  {
    var earliest := start + pending;
    && session.Valid() && Collects(collected, Streams(rounds), r.cap)
    && session.drained == start + Concat(Streams(rounds))
    && session.cleared == |earliest| && earliest <= session.produced && OneStream(rounds, pending)
    && (quiet <==> r.settle && Kept(Streams(rounds), r.cap) != [])
  }

  /** One round of a wait and how it ends. */
  method Poll(session: Session, collected: HeadTailBuffer, r: Request, wasQuiet: bool, late: bool,
              ghost before: seq<Seen>, ghost start: string, ghost pending: string)
    returns (exit: Exit, quiet: bool, snapshot: string, ghost rounds: seq<Seen>, ghost observed: string)
    requires Waiting(session, collected, r, before, wasQuiet, start, pending) && collected != session.pending
    requires GoesOn(before, r)
    modifies session, session.pending, collected
    ensures Waiting(session, collected, r, rounds, quiet, start, pending)
    ensures EndsAs(rounds, r, exit) && (late ==> !exit.Going?) && rounds != []
    ensures snapshot == Collected(Streams(rounds), r.cap)
    ensures SawRound(session, start + pending, observed, rounds[|rounds| - 1])
  {
    ghost var earlier, streams, earliest := session.produced, Streams(before), start + pending;
    ghost var stream;
    var terminal, matched, some;
    terminal, matched, some, stream, observed := Round(session, collected, r.until, r.cap, streams);
    SawAllSince(session, earliest, earlier, observed, terminal);
    TakenOneMore(start, streams, stream);
    KeptOneMore(streams, stream, r.cap, ChunkOf(stream, r.cap));
    quiet := wasQuiet || (some && r.settle);
    snapshot := Show(collected, r.cap, streams + [stream]);
    exit, rounds := EndRound(r, snapshot, quiet, matched, terminal, late, before, stream, observed[|earliest|..]);
    PrefixIsTransitive(start + Concat(streams), earlier, observed);
    PrefixIsTransitive(earliest, earlier, observed);
    PastStart(start, pending, Concat(streams), stream, observed, rounds[|rounds| - 1]);
    OneStreamMore(before, pending, rounds[|rounds| - 1]);
  }

  /** The text of an exit: all that was collected, unless the wait was aborted; the sentinel when it is
      done and there is nothing; and within the budgets, without a read that equals the sentinel, exactly
      the bytes taken. */
  ghost predicate ReturnsWhatItTook(text: string, exit: Exit, streams: seq<string>, cap: int) {
    && (exit.Aborted? ==> text == "")
    && (!exit.Aborted? && Collected(streams, cap) != "" ==> text == Collected(streams, cap))
    && (exit.Done? && Collected(streams, cap) == "" ==> text == "(no new output)")
    && (!exit.Done? && Collected(streams, cap) == "" ==> text == "")
    && (&& !exit.Aborted? && "(no new output)" !in streams && Concat(streams) != ""
        && |Concat(streams)| <= (if cap > 0 then cap else 1048576)
        && (forall k | 0 <= k < |streams| :: |streams[k]| <= 1048576 && (cap > 0 ==> |streams[k]| <= cap))
        ==> text == Concat(streams))
  }

  lemma CollectedIsReturned(text: string, exit: Exit, streams: seq<string>, cap: int)
    requires text == Finish(Collected(streams, cap), exit) && !exit.Going?
    ensures ReturnsWhatItTook(text, exit, streams, cap)
  {
    if WithinBudgets(streams, cap) && NO_NEW_OUTPUT !in streams {
      WaitReturnsAllItTook(streams, cap);
    }
  }

  /** Why a wait ends after these rounds, or goes on: it is done when the marker was seen in the window or
      in what was collected, when the session is terminal, at the first output if it waits for neither
      marker nor quiet, once it is quiet after some output if it waits for that, or when it may not wait;
      else it is aborted, yields, or is late, in that order. */
  ghost predicate EndsBecause(rounds: seq<Seen>, r: Request, exit: Exit) {
    rounds != [] &&
    var last, shown := rounds[|rounds| - 1], Collected(Streams(rounds), r.cap);
    var done :=
      || last.matched || (r.until != "" && exists k: nat :: ToolProtocol.At(shown, k, r.until))
      || last.terminal
      || (r.until == "" && !r.settle && shown != "")
      || (r.settle && last.quietOver && exists k :: 0 <= k < |rounds| && IsOutput(rounds[k].stream, r.cap))
      || r.waitMs <= 0;
    && (exit.Done? <==> done)
    && (exit.Aborted? <==> !done && last.abort)
    && (exit.Yielded? <==> !done && !last.abort && last.steering)
    && (exit.TimedOut? <==> !done && !last.abort && !last.steering && last.late)
  }

  predicate IsOutput(stream: string, cap: int) {
    ChunkOf(stream, cap) != NO_NEW_OUTPUT
  }

  lemma {:induction false} KeptSomething(streams: seq<string>, cap: int)
    ensures Kept(streams, cap) != [] <==> exists k :: 0 <= k < |streams| && IsOutput(streams[k], cap)
  {
    if streams != [] {
      var before, last := streams[..|streams| - 1], streams[|streams| - 1];
      assert streams == before + [last];
      KeptSomething(before, cap);
      KeptOneMore(before, last, cap, ChunkOf(last, cap));
      assert forall k | 0 <= k < |before| :: streams[k] == before[k];
      if IsOutput(last, cap) {
        assert IsOutput(streams[|before|], cap);
      }
    }
  }

  lemma ExitIsBecause(rounds: seq<Seen>, r: Request)
    requires rounds != []
    ensures EndsBecause(rounds, r, ExitOf(rounds, r))
  {
    var streams := Streams(rounds);
    KeptSomething(streams, r.cap);
    assert forall k | 0 <= k < |rounds| :: streams[k] == rounds[k].stream;
    MarkerIsSeen(Collected(streams, r.cap), r.until);
  }

  lemma MarkerIsSeen(shown: string, until: string)
    ensures Contains(shown, until) <==> until != "" && exists k: nat :: ToolProtocol.At(shown, k, until)
  {
  }

  lemma WaitEndsBecause(rounds: seq<Seen>, r: Request)
    requires IsWait(rounds, r)
    ensures EndsBecause(rounds, r, ExitOf(rounds, r))
    ensures forall n | 0 < n < |rounds| :: EndsBecause(rounds[..n], r, Going)
  {
    ExitIsBecause(rounds, r);
    var before := rounds[..|rounds| - 1];
    forall n | 0 < n < |rounds|
      ensures EndsBecause(rounds[..n], r, Going)
    {
      assert before[..n] == rounds[..n];
      ExitIsBecause(rounds[..n], r);
    }
  }

  /** A wait reads its stop conditions, then drains. `rounds` is what it observed and took, round by
      round, `observed` all that had been produced when the conditions it stopped on were read, and
      `wakeUps` how many it has before the deadline. How it ends and what it returns are functions of
      what it observed. Every exit but an abort returns all it took, that includes all observed, and a
      wait that ends on a terminal session took everything. */
  method CollectSessionOutput(session: Session, r: Request, wakeUps: nat)
    returns (text: string, captured: bool, exit: Exit, ghost rounds: seq<Seen>, ghost observed: string)
    requires session.Valid()
    modifies session, session.pending
    ensures IsWait(rounds, r) && exit == ExitOf(rounds, r) && OneStream(rounds, old(session.pending.stream))
    ensures session.Valid() && session.drained == old(session.drained) + Concat(Streams(rounds))
    ensures text == Finish(Collected(Streams(rounds), r.cap), exit)
    ensures captured <==> !exit.Aborted? && Collected(Streams(rounds), r.cap) != ""
    ensures SawRound(session, old(session.produced), observed, rounds[|rounds| - 1])
    ensures exit.Aborted? && !WaitsForMore(r) ==> r.waitMs > 0 && Collected(Streams(rounds), r.cap) == ""
    ensures ReturnsWhatItTook(text, exit, Streams(rounds), r.cap)
    ensures EndsBecause(rounds, r, exit)
    ensures forall n | 0 < n < |rounds| :: EndsBecause(rounds[..n], r, Going)
  {
    var collected := new HeadTailBuffer(Budget(r.cap));
    ghost var start, pending, earliest := session.drained, session.pending.stream, session.produced;
    session.ClearWindow();
    assert start + "" == start;
    rounds, observed := [], "";
    exit := Going;
    var snapshot, quiet, left := "", false, wakeUps;
    while exit.Going?
      invariant fresh(collected) && Waiting(session, collected, r, rounds, quiet, start, pending)
      invariant EndsAs(rounds, r, exit)
      invariant !exit.Going? ==> rounds != [] && SawRound(session, earliest, observed, rounds[|rounds| - 1])
      invariant !exit.Going? ==> snapshot == Collected(Streams(rounds), r.cap)
      decreases exit.Going?, left
    {
      exit, quiet, snapshot, rounds, observed := Poll(session, collected, r, quiet, left == 0, rounds, start, pending);
      if exit.Going? {
        left := left - 1;
      }
    }
    captured := !exit.Aborted? && snapshot != "";
    text := Finish(snapshot, exit);
    CollectedIsReturned(text, exit, Streams(rounds), r.cap);
    WaitEndsBecause(rounds, r);
  }

  // ---------------------------------------------------------------- what can still get lost

  /** Nothing is over a budget: neither a read nor the wait as a whole. */
  predicate WithinBudgets(streams: seq<string>, cap: int) {
    && |Concat(streams)| <= Budget(cap)
    && forall k | 0 <= k < |streams| :: |streams[k]| <= MIB && (cap > 0 ==> |streams[k]| <= cap)
  }

  lemma {:induction false} KeptConcat(streams: seq<string>, cap: int)
    requires forall k | 0 <= k < |streams| :: |streams[k]| <= MIB && (cap > 0 ==> |streams[k]| <= cap)
    ensures |Concat(Kept(streams, cap))| <= |Concat(streams)|
    ensures NO_NEW_OUTPUT !in streams ==> Concat(Kept(streams, cap)) == Concat(streams)
    ensures NO_NEW_OUTPUT in streams ==> |Concat(Kept(streams, cap))| < |Concat(streams)|
  {
    if streams != [] {
      var before, last := streams[..|streams| - 1], streams[|streams| - 1];
      assert streams == before + [last];
      KeptConcat(before, cap);
      CollectedOneMore(before, last, cap, ChunkOf(last, cap));
      OneMore(before, last);
      ShortChunk(last, cap);
    }
  }

  lemma ShortChunk(stream: string, cap: int)
    requires |stream| <= MIB && (cap > 0 ==> |stream| <= cap)
    ensures ChunkOf(stream, cap) == if stream == "" then NO_NEW_OUTPUT else stream
  {
    WholeSnapshot(stream, MIB / 2, MIB / 2);
  }

  /** Within the budgets a wait returns every byte it took, in order, exactly when no read happened to
      be the text that stands for no output: such a read is dropped. */
  lemma WaitReturnsAllItTook(streams: seq<string>, cap: int)
    requires WithinBudgets(streams, cap)
    ensures Collected(streams, cap) == Concat(streams) <==> NO_NEW_OUTPUT !in streams
  {
    KeptConcat(streams, cap);
  }

  /** One read that is dropped, though nothing was over a budget. */
  lemma SentinelIsDropped()
    ensures Collected([NO_NEW_OUTPUT], 0) == "" && Concat([NO_NEW_OUTPUT]) == NO_NEW_OUTPUT
  {
    var streams := [NO_NEW_OUTPUT];
    OneMore([], NO_NEW_OUTPUT);
    assert [] + [NO_NEW_OUTPUT] == streams;
    ShortChunk(NO_NEW_OUTPUT, 0);
    KeptOneMore([], NO_NEW_OUTPUT, 0, NO_NEW_OUTPUT);
    assert Kept(streams, 0) == [];
  }

  lemma {:induction false} KeptNothing(streams: seq<string>, cap: int)
    requires forall k | 0 <= k < |streams| :: |streams[k]| <= MIB && (cap > 0 ==> |streams[k]| <= cap)
    ensures Concat(Kept(streams, cap)) == "" <==> forall k | 0 <= k < |streams| :: streams[k] in ["", NO_NEW_OUTPUT]
  {
    if streams != [] {
      var before, last := streams[..|streams| - 1], streams[|streams| - 1];
      assert streams == before + [last];
      KeptNothing(before, cap);
      CollectedOneMore(before, last, cap, ChunkOf(last, cap));
      ShortChunk(last, cap);
    }
  }

  /** Within the budgets nothing is collected exactly when every read was empty or stood for no output. */
  lemma CollectedNothing(streams: seq<string>, cap: int)
    requires WithinBudgets(streams, cap)
    ensures Collected(streams, cap) == "" <==> forall k | 0 <= k < |streams| :: streams[k] in ["", NO_NEW_OUTPUT]
  {
    KeptNothing(streams, cap);
    KeptConcat(streams, cap);
    WholeSnapshot(Concat(Kept(streams, cap)), HeadBudget(cap), TailBudget(cap));
  }

  // ---------------------------------------------------------------- what an abort loses

  /** An aborted wait returns nothing although it took output, which no later read can return. */
  ghost predicate LosesOutput(rounds: seq<Seen>, pending: string, r: Request) {
    && IsWait(rounds, r) && OneStream(rounds, pending)
    && ExitOf(rounds, r).Aborted? && Collected(Streams(rounds), r.cap) != ""
  }

  /** A wait that may block for a marker or for quiet. */
  predicate WaitsForMore(r: Request) {
    r.waitMs > 0 && (r.until != "" || r.settle)
  }

  /** Whatever such a wait finds pending without its marker, an abort right after the read loses. */
  lemma ReadThenAbortLoses(stream: string, r: Request)
    requires WaitsForMore(r) && Collected([stream], r.cap) != "" && !Contains(Collected([stream], r.cap), r.until)
    ensures var rounds := [Seen(stream, "", false, false, false, true, false, false)];
            LosesOutput(rounds, stream, r) && Finish(Collected(Streams(rounds), r.cap), ExitOf(rounds, r)) == ""
  {
    var rounds := [Seen(stream, "", false, false, false, true, false, false)];
    assert Streams(rounds) == [stream] && rounds[..0] == [] && Streams(rounds[..0]) == [];
    assert "" + stream == stream && stream + "" == stream;
  }

  lemma OneByteIsCollected(byte: char, cap: int)
    ensures Collected([[byte]], cap) == [byte]
  {
    var stream := [byte];
    ShortChunk(stream, cap);
    assert [] + [stream] == [stream];
    CollectedOneMore([], stream, cap, stream);
    assert "" + stream == stream;
    WholeSnapshot(stream, HeadBudget(cap), TailBudget(cap));
  }

  /** An abort can lose output exactly for the waits that may block for more than output: the caller
      can tell from the arguments. */
  lemma AbortCanLose(r: Request)
    ensures (exists rounds, pending :: LosesOutput(rounds, pending, r)) <==> WaitsForMore(r)
  {
    if WaitsForMore(r) {
      var byte := if r.until != "" && r.until[0] == 'a' then 'b' else 'a';
      OneByteIsCollected(byte, r.cap);
      assert forall k: nat :: r.until != "" && ToolProtocol.At([byte], k, r.until) ==> [byte][k..k + 1][0] == r.until[0];
      ReadThenAbortLoses([byte], r);
    }
  }
}

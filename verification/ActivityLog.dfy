/** Rotating activity logs: two segments written by a pump, and their tail read back. */
module ActivityLog {
  import opened Checked
  import opened Options
  import opened Chunks

  /** The two files of a log, absent until created. */
  datatype Log = Log(current: Option<string>, previous: Option<string>)

  function Content(file: Option<string>): string {
    if file.Some? then file.value else ""
  }

  function Retained(log: Log): string {
    Content(log.previous) + Content(log.current)
  }

  predicate Suffix(s: string, t: string) {
    |s| <= |t| && t[|t| - |s|..] == s
  }

  function LastBytes(s: string, n: nat): (r: string)
    ensures |r| == if |s| <= n then |s| else n
  {
    if |s| <= n then s else s[|s| - n..]
  }

  /** Half the bytes a log may have, and 512 at least: two of them are within the limit, or 1 KiB. */
  function Segment(maxBytes: int64): (s: nat)
    ensures s >= 512 && s >= maxBytes / 2 && (2 * s <= maxBytes || s == 512)
  {
    if maxBytes / 2 > 512 then maxBytes / 2 else 512
  }

  /** What a log holds of the bytes written since its pump opened it: all of them in the current
      segment, or the newest in two, of which the previous one is full. */
  predicate Holds(log: Log, before: Option<string>, written: string, segment: nat) {
    && |Content(log.current)| <= segment
    && (|| (log.previous == before && Content(log.current) == written)
        || (log.previous.Some? && |log.previous.value| == segment && Suffix(Retained(log), written)))
  }

  class LogFiles {
    var log: Log

    constructor (log: Log)
      ensures this.log == log
    {
      this.log := log;
    }

    /** Opening may fail; otherwise the current segment starts anew. */
    method Truncate() returns (success: bool)
      modifies this
      ensures log == if success then old(log).(current := Some("")) else old(log)
    {
      success := *;
      if success {
        log := log.(current := Some(""));
      }
    }

    method Rotate()
      modifies this
      ensures log == Log(None, old(log).current)
    {
      log := Log(None, log.current);
    }

    /** A write takes any part of the chunk, or fails. */
    method Write(chunk: string) returns (n: int)
      requires log.current.Some?
      modifies this
      ensures n <= |chunk|
      ensures log == if n > 0 then old(log).(current := Some(old(log).current.value + chunk[..n])) else old(log)
    {
      n := *;
      if n > |chunk| {
        n := |chunk|;
      }
      if n > 0 {
        log := log.(current := Some(log.current.value + chunk[..n]));
      }
    }

    /** One pass of the write loop: rotates a full segment, then writes some of what is left. */
    method WriteSome(rest: string, segment: nat, counted: nat, ghost before: Option<string>, ghost written: string)
      returns (n: nat, count: nat)
      requires segment > 0 && rest != "" && log.current.Some? && counted == |log.current.value|
      requires Holds(log, before, written, segment)
      modifies this
      ensures n <= |rest| && Holds(log, before, written + rest[..n], segment)
      ensures n > 0 ==> log.current.Some? && count == |log.current.value|
    {
      count := counted;
      assert written + rest[..0] == written;
      if count >= segment {
        RotationHolds(log, before, written, segment);
        Rotate();
        var reopened := Truncate();
        if !reopened {
          return 0, count;
        }
        count := 0;
      }
      var room := segment - count;
      var piece := rest[..if room < |rest| then room else |rest|];
      ghost var was := log;
      var wrote := Write(piece);
      if wrote <= 0 {
        return 0, count;
      }
      AppendHolds(was, before, written, segment, piece[..wrote]);
      assert piece[..wrote] == rest[..wrote];
      return wrote, count + wrote;
    }

    /** One chunk of input, through any partial writes and rotations. */
    method WriteChunk(chunk: string, segment: nat, counted: nat, ghost before: Option<string>, ghost written: string)
      returns (ok: bool, count: nat, ghost now: string)
      requires segment > 0 && log.current.Some? && counted == |log.current.value|
      requires Holds(log, before, written, segment)
      modifies this
      ensures Holds(log, before, now, segment)
      ensures written <= now <= written + chunk && (ok <==> now == written + chunk)
      ensures ok ==> log.current.Some? && count == |log.current.value|
    {
      var offset: nat := 0;
      count, now := counted, written;
      while offset < |chunk|
        invariant offset <= |chunk| && now == written + chunk[..offset]
        invariant written <= now <= written + chunk
        invariant log.current.Some? && count == |log.current.value|
        invariant Holds(log, before, now, segment)
      {
        var n;
        n, count := WriteSome(chunk[offset..], segment, count, before, now);
        WrittenPart(written, chunk, offset, n);
        now := now + chunk[offset..][..n];
        if n == 0 {
          return false, count, now;
        }
        offset := offset + n;
      }
      return true, count, now;
    }

    /** Copies the input, read in chunks, until it ends or something fails. Whatever it wrote, the log
        holds the newest of it. */
    method PumpLog(input: seq<string>, maxBytes: int64) returns (status: int, ghost started: bool, ghost written: string)
      modifies this
      ensures !started ==> status == 1 && log == old(log) && written == ""
      ensures started ==> Holds(log, old(log).previous, written, Segment(maxBytes))
      ensures started && |Content(old(log).previous)| <= Segment(maxBytes) ==>
                |Content(log.previous)| <= Segment(maxBytes) && |Content(log.current)| <= Segment(maxBytes)
      ensures started ==> |Retained(log)| >= |written| || |Retained(log)| >= maxBytes / 2
      ensures started && |Content(old(log).previous)| <= Segment(maxBytes) ==>
                |Retained(log)| <= maxBytes || |Retained(log)| <= 1024
      ensures written <= Concat(input) && (status == 0 <==> started && written == Concat(input))
      ensures status in {0, 1}
    {
      var segment := Segment(maxBytes);
      ghost var before := log.previous;
      var ok := Truncate();
      started, written := ok, "";
      if !ok {
        return 1, started, written;
      }
      var count: nat := 0;
      for i := 0 to |input|
        invariant log.current.Some? && count == |log.current.value|
        invariant Holds(log, before, written, segment) && written == Concat(input[..i])
      {
        ConcatNext(input, i);
        ConcatPrefix(input, i + 1);
        ok, count, written := WriteChunk(input[i], segment, count, before, written);
        PrefixIsTransitive(written, Concat(input[..i + 1]), Concat(input));
        if !ok {
          return 1, started, written;
        }
      }
      assert input[..|input|] == input;
      return 0, started, written;
    }
  }

  lemma WrittenPart(written: string, chunk: string, offset: nat, n: nat)
    requires offset + n <= |chunk|
    ensures written + chunk[..offset] + chunk[offset..][..n] == written + chunk[..offset + n]
    ensures written <= written + chunk[..offset + n] <= written + chunk
  {
  }

  lemma SuffixOfJoined(previous: string, current: string, written: string)
    requires current == written || Suffix(previous + current, written)
    ensures Suffix(current, written)
  {
    assert (previous + current)[|previous|..] == current;
  }

  lemma NothingAfter(current: string)
    ensures current + "" == current
  {
  }

  lemma RotationHolds(log: Log, before: Option<string>, written: string, segment: nat)
    requires Holds(log, before, written, segment) && log.current.Some? && |log.current.value| == segment
    ensures Holds(Log(None, log.current), before, written, segment)
    ensures Holds(Log(Some(""), log.current), before, written, segment)
  {
    var current := log.current.value;
    SuffixOfJoined(Content(log.previous), current, written);
    NothingAfter(current);
  }

  lemma AppendHolds(log: Log, before: Option<string>, written: string, segment: nat, more: string)
    requires Holds(log, before, written, segment) && log.current.Some?
    requires |log.current.value| + |more| <= segment
    ensures Holds(log.(current := Some(log.current.value + more)), before, written + more, segment)
  {
    assert Retained(log) + more == Content(log.previous) + (log.current.value + more);
  }

  /** At least the last segment of what was written is kept. */
  lemma RetainsLastSegment(log: Log, before: Option<string>, written: string, segment: nat)
    requires Holds(log, before, written, segment)
    ensures |Retained(log)| >= if |written| < segment then |written| else segment
    ensures Content(before) == "" ==> Suffix(Retained(log), written)
  {
  }

  /** Whether the log has turned over since the pump began. */
  predicate Rotated(log: Log, before: Option<string>, written: string) {
    log.previous != before || Content(log.current) != written
  }

  /** The older segment is bounded unless it is still the one found at the start, and what is kept is a
      suffix of what was written exactly when nothing older is left. */
  lemma SegmentsAfter(log: Log, before: Option<string>, written: string, segment: nat)
    requires Holds(log, before, written, segment) && segment > 0
    ensures |Content(log.previous)| <= segment <==> |Content(before)| <= segment || Rotated(log, before, written)
    ensures Suffix(Retained(log), written) <==> Content(before) == "" || Rotated(log, before, written)
  {
    if Content(before) == "" && !Rotated(log, before, written) {
      assert "" + written == written;
    }
  }

  // ---------------------------------------------------------------- reading back

  const BANNER := "[rotating log tail]\n"

  /** The last `bytes` of a file, all of it for a negative count, and where that starts. */
  function FileTail(file: Option<string>, bytes: int): (string, nat) {
    var text := Content(file);
    if bytes == 0 then ("", 0)
    else if bytes > 0 && |text| > bytes then (text[|text| - bytes..], |text| - bytes)
    else (text, 0)
  }

  function CurrentTail(log: Log, cap: int): (string, nat) {
    FileTail(log.current, cap)
  }

  /** What is left of the cap for the older segment. */
  function PreviousTail(log: Log, cap: int): (string, nat) {
    var remaining := if cap <= 0 then -1 else if cap < |CurrentTail(log, cap).0| then 0 else cap - |CurrentTail(log, cap).0|;
    FileTail(log.previous, remaining)
  }

  function Body(log: Log, cap: int): string {
    PreviousTail(log, cap).0 + CurrentTail(log, cap).0
  }

  /** Whatever was read is shown, under a banner unless it is the current segment and nothing else. */
  function ReadLogTail(path: string, log: Log, cap: int): (r: string)
    ensures Body(log, cap) == "" && log.current.None? && log.previous.None? ==>
              r == "(no output captured: " + path + " missing)"
    ensures Body(log, cap) == "" && (log.current.Some? || log.previous.Some?) ==> r == "(no output)"
    ensures Body(log, cap) != "" ==> r == Body(log, cap) || r == BANNER + Body(log, cap)
    ensures Body(log, cap) != "" && cap != 0 && Body(log, cap) == Content(log.current) ==> r == Body(log, cap)
    ensures Body(log, cap) != "" && Body(log, cap) != Content(log.current) ==> r == BANNER + Body(log, cap)
  {
    if Body(log, cap) == "" && log.current.None? && log.previous.None? then
      "(no output captured: " + path + " missing)"
    else
      var rotated := PreviousTail(log, cap).1 > 0 || CurrentTail(log, cap).1 > 0 || PreviousTail(log, cap).0 != "";
      var s := if rotated then BANNER + Body(log, cap) else Body(log, cap);
      if s == "" then "(no output)" else s
  }

  /** The last bytes of two texts joined. */
  lemma LastOfBoth(previous: string, current: string, cap: nat)
    ensures |current| >= cap ==> LastBytes(previous + current, cap) == LastBytes(current, cap)
    ensures |current| < cap ==> LastBytes(previous + current, cap) == LastBytes(previous, cap - |current|) + current
  {
  }

  lemma PositiveCapIsTail(log: Log, cap: nat)
    requires cap > 0
    ensures Body(log, cap) == LastBytes(Retained(log), cap)
  {
    LastOfBoth(Content(log.previous), Content(log.current), cap);
  }

  lemma CapZeroIsPrevious(log: Log)
    ensures Body(log, 0) == Content(log.previous)
    ensures Body(log, 0) == Retained(log) <==> Content(log.current) == ""
  {
    var previous, current := Content(log.previous), Content(log.current);
    assert Body(log, 0) == previous + "";
    assert |Retained(log)| == |previous| + |current|;
    assert current == "" ==> previous + current == previous;
  }

  /** A positive cap reads exactly the last bytes retained, across both segments. A negative one reads
      them all; a cap of zero, unlimited elsewhere, reads the older segment only. */
  lemma BodyIsTail(log: Log, cap: int)
    ensures cap > 0 ==> Body(log, cap) == LastBytes(Retained(log), cap)
    ensures cap < 0 ==> Body(log, cap) == Retained(log)
    ensures cap == 0 ==> Body(log, cap) == Content(log.previous)
    ensures cap == 0 ==> (Body(log, cap) == Retained(log) <==> Content(log.current) == "")
  {
    if cap > 0 {
      PositiveCapIsTail(log, cap);
    } else if cap == 0 {
      CapZeroIsPrevious(log);
    }
  }

  /** A log that was never rotated, read with a cap of zero. */
  lemma CapZeroLosesCurrent(path: string)
    ensures var log := Log(Some("x"), None);
            Retained(log) == "x" && ReadLogTail(path, log, 0) == "(no output)"
  {
    assert Body(Log(Some("x"), None), 0) == "";
  }

  lemma TailOfSuffix(s: string, t: string, n: nat)
    requires Suffix(s, t)
    ensures LastBytes(s, n) == LastBytes(t, if n < |s| then n else |s|)
  {
  }

  /** From pump to reader: for every input, every partial write and every failure, reading a log that
      began without an older segment, or has turned over, returns the last min(cap, retained) bytes
      written, and so the last `cap` of them whenever the cap is no more than a segment. */
  lemma ReaderSeesNewestBytes(log: Log, before: Option<string>, written: string, segment: nat, cap: nat)
    requires Holds(log, before, written, segment) && cap > 0
    requires Content(before) == "" || Rotated(log, before, written)
    ensures Body(log, cap) == LastBytes(written, if cap < |Retained(log)| then cap else |Retained(log)|)
    ensures cap <= segment ==> Body(log, cap) == LastBytes(written, cap)
  {
    BodyIsTail(log, cap);
    RetainsLastSegment(log, before, written, segment);
    TailOfSuffix(Retained(log), written, cap);
  }
}

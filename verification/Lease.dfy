/** The file lease: one owner at a time of a path, among leases that come, go and crash. */
module Lease {
  import opened Options
  import Decimal

  // ---------------------------------------------------------------- the protocol

  type Inode = nat

  /** A lease object of some process. */
  type Claimant = nat

  /** Where a lease is: after open, after flock, after the path was seen to name another file, with
      both that file and the new one open, owning, and owning no longer with the path removed. */
  datatype Place =
    | Idle
    | Opened(inode: Inode)
    | Locked(inode: Inode)
    | Stale(inode: Inode)
    | Swapping(inode: Inode, next: Inode)
    | Owner(inode: Inode)
    | Leaving(inode: Inode)

  /** What the path names, where every lease is, and who holds the lock of an inode. */
  datatype State = State(path: Option<Inode>, places: map<Claimant, Place>, locks: map<Inode, Claimant>)

  /** A system call of one lease, a crash, or a removal of the file by somebody else. */
  datatype Step =
    | Open(who: Claimant, made: Inode)
    | Flock(who: Claimant)
    | Recheck(who: Claimant)
    | Reopen(who: Claimant, made: Inode)
    | CloseOld(who: Claimant)
    | Unlink(who: Claimant)
    | Release(who: Claimant)
    | Crash(who: Claimant)
    | Remove

  function PlaceOf(s: State, p: Claimant): Place {
    if p in s.places then s.places[p] else Idle
  }

  predicate References(place: Place, i: Inode) {
    (!place.Idle? && place.inode == i) || (place.Swapping? && place.next == i)
  }

  /** A new file never reuses an inode that the path or an open descriptor still holds. */
  predicate Unused(s: State, i: Inode) {
    s.path != Some(i) && forall p | p in s.places :: !References(s.places[p], i)
  }

  function At(s: State, p: Claimant, place: Place): State {
    s.(places := s.places[p := place])
  }

  /** Closing the descriptor releases its lock. */
  function Unlocked(s: State, p: Claimant, i: Inode): State {
    if i in s.locks && s.locks[i] == p then s.(locks := s.locks - {i}) else s
  }

  /** The inode an open of the path yields, made when the path names nothing. */
  function OpenPath(s: State, made: Inode): Option<(State, Inode)> {
    match s.path
    case Some(i) => Some((s, i))
    case None => if Unused(s, made) then Some((s.(path := Some(made)), made)) else None
  }

  /** A step out of its place changes nothing. */
  function Do(s: State, step: Step): State {
    match step
    case Open(p, made) =>
      if PlaceOf(s, p).Idle? && OpenPath(s, made).Some? then
        At(OpenPath(s, made).value.0, p, Opened(OpenPath(s, made).value.1))
      else s
    case Flock(p) =>
      if !PlaceOf(s, p).Opened? then s
      else
        var i := PlaceOf(s, p).inode;
        if i in s.locks then At(s, p, Idle) else At(s.(locks := s.locks[i := p]), p, Locked(i))
    case Recheck(p) =>
      if !PlaceOf(s, p).Locked? then s
      else
        var i := PlaceOf(s, p).inode;
        At(s, p, if s.path == Some(i) then Owner(i) else Stale(i))
    case Reopen(p, made) =>
      if PlaceOf(s, p).Stale? && OpenPath(s, made).Some? then
        At(OpenPath(s, made).value.0, p, Swapping(PlaceOf(s, p).inode, OpenPath(s, made).value.1))
      else s
    case CloseOld(p) =>
      if PlaceOf(s, p).Swapping? then
        At(Unlocked(s, p, PlaceOf(s, p).inode), p, Opened(PlaceOf(s, p).next))
      else s
    case Unlink(p) =>
      if PlaceOf(s, p).Owner? then At(s.(path := None), p, Leaving(PlaceOf(s, p).inode)) else s
    case Release(p) =>
      if PlaceOf(s, p).Owner? || PlaceOf(s, p).Leaving? then At(Unlocked(s, p, PlaceOf(s, p).inode), p, Idle) else s
    case Crash(p) =>
      if PlaceOf(s, p).Idle? then s else At(Unlocked(s, p, PlaceOf(s, p).inode), p, Idle)
    case Remove => s.(path := None)
  }

  predicate Owns(s: State, p: Claimant) {
    PlaceOf(s, p).Owner?
  }

  predicate HoldsLock(place: Place) {
    place.Locked? || place.Stale? || place.Swapping? || place.Owner? || place.Leaving?
  }

  /** Locks are held by exactly the leases past flock, and an owner's lock is on the named file. */
  ghost predicate Inv(s: State) {
    && (forall p :: HoldsLock(PlaceOf(s, p)) ==>
                      PlaceOf(s, p).inode in s.locks && s.locks[PlaceOf(s, p).inode] == p)
    && (forall i | i in s.locks :: HoldsLock(PlaceOf(s, s.locks[i])) && PlaceOf(s, s.locks[i]).inode == i)
    && (forall p | Owns(s, p) :: s.path == Some(PlaceOf(s, p).inode))
  }

  ghost predicate AtMostOneOwner(s: State) {
    forall p, q | Owns(s, p) && Owns(s, q) :: p == q
  }

  lemma InvExcludes(s: State)
    requires Inv(s)
    ensures AtMostOneOwner(s)
  {
    forall p, q | Owns(s, p) && Owns(s, q)
      ensures p == q
    {
      assert HoldsLock(PlaceOf(s, p)) && HoldsLock(PlaceOf(s, q));
    }
  }

  /** Removing the file keeps the invariant exactly when nobody owns it. */
  lemma RemoveIsSafeWhenUnowned(s: State)
    requires Inv(s)
    ensures Inv(Do(s, Remove)) <==> forall p :: !Owns(s, p)
  {
    var r := Do(s, Remove);
    assert forall p :: PlaceOf(r, p) == PlaceOf(s, p) && Owns(r, p) == Owns(s, p);
  }

  predicate NobodyOwns(s: State) {
    forall p | p in s.places :: !s.places[p].Owner?
  }

  lemma OpeningKeepsInv(s: State, step: Step)
    requires Inv(s) && (step.Open? || step.Reopen?)
    ensures Inv(Do(s, step))
  {
    assert forall p | p != step.who :: PlaceOf(Do(s, step), p) == PlaceOf(s, p);
  }

  lemma LockingKeepsInv(s: State, step: Step)
    requires Inv(s) && (step.Flock? || step.Recheck?)
    ensures Inv(Do(s, step))
  {
    assert forall p | p != step.who :: PlaceOf(Do(s, step), p) == PlaceOf(s, p);
  }

  lemma ClosingKeepsInv(s: State, step: Step)
    requires Inv(s) && (step.CloseOld? || step.Release? || step.Crash?)
    ensures Inv(Do(s, step))
  {
    assert forall p | p != step.who :: PlaceOf(Do(s, step), p) == PlaceOf(s, p);
  }

  lemma UnlinkKeepsInv(s: State, step: Step)
    requires Inv(s) && step.Unlink?
    ensures Inv(Do(s, step))
  {
    InvExcludes(s);
    assert forall p | p != step.who :: PlaceOf(Do(s, step), p) == PlaceOf(s, p);
  }

  lemma StepKeepsInv(s: State, step: Step)
    requires Inv(s) && (step == Remove ==> NobodyOwns(s))
    ensures Inv(Do(s, step))
  {
    match step
    case Open(_, _) => OpeningKeepsInv(s, step);
    case Reopen(_, _) => OpeningKeepsInv(s, step);
    case Flock(_) => LockingKeepsInv(s, step);
    case Recheck(_) => LockingKeepsInv(s, step);
    case Unlink(_) => UnlinkKeepsInv(s, step);
    case Remove => RemoveIsSafeWhenUnowned(s);
    case CloseOld(_) => ClosingKeepsInv(s, step);
    case Release(_) => ClosingKeepsInv(s, step);
    case Crash(_) => ClosingKeepsInv(s, step);
  }

  function Run(steps: seq<Step>): State {
    if steps == [] then State(None, map[], map[])
    else Do(Run(steps[..|steps| - 1]), steps[|steps| - 1])
  }

  /** The file goes only by the hand of its owner, or while nobody owns it. */
  predicate RemovedOnlyUnowned(steps: seq<Step>) {
    forall n | 0 <= n < |steps| && steps[n] == Remove :: NobodyOwns(Run(steps[..n]))
  }

  /** In every interleaving of leases that open, lock, re-check, retry, remove what they own, release
      and crash, at most one owns the path. */
  lemma {:induction false} MutualExclusion(steps: seq<Step>)
    requires RemovedOnlyUnowned(steps)
    ensures Inv(Run(steps)) && AtMostOneOwner(Run(steps))
  {
    if steps == [] {
      assert forall p :: PlaceOf(Run(steps), p) == Idle;
    } else {
      var before := steps[..|steps| - 1];
      assert forall n | 0 <= n < |before| :: steps[..n] == before[..n];
      MutualExclusion(before);
      assert steps[..|before|] == before;
      StepKeepsInv(Run(before), steps[|steps| - 1]);
    }
    InvExcludes(Run(steps));
  }

  /** The condition is needed: from any state with an owner, a removal by somebody else lets every
      idle lease become a second one in three calls. */
  lemma RemovalWhileOwnedBreaksExclusion(s: State, p: Claimant, q: Claimant, made: Inode)
    requires Inv(s) && Owns(s, p) && PlaceOf(s, q).Idle? && Unused(s, made)
    ensures var r := Do(Do(Do(Do(s, Remove), Open(q, made)), Flock(q)), Recheck(q));
            p != q && Owns(r, p) && Owns(r, q)
  {
    var removed := Do(s, Remove);
    assert Unused(removed, made);
    var open := Do(removed, Open(q, made));
    assert PlaceOf(open, q) == Opened(made) && open.path == Some(made);
    assert made !in s.locks;
    var locked := Do(open, Flock(q));
    assert PlaceOf(locked, q) == Locked(made);
  }

  /** And nothing another lease does takes ownership away. */
  lemma OwnershipIsOwn(s: State, step: Step, p: Claimant)
    requires Owns(s, p) && (step == Remove || step.who != p)
    ensures Owns(Do(s, step), p)
  {
  }

  // ---------------------------------------------------------------- progress

  /** Nobody else holds the file the path names. */
  predicate IsFree(s: State, p: Claimant) {
    s.path.Some? && s.path.value in s.locks ==> s.locks[s.path.value] == p
  }

  /** Undisturbed, an idle lease becomes the owner in three calls exactly when nobody holds the named
      file, and is idle again otherwise. */
  lemma AcquiresWhenFree(s: State, p: Claimant, made: Inode)
    requires Inv(s) && PlaceOf(s, p).Idle? && (s.path.None? ==> Unused(s, made))
    ensures var r := Do(Do(Do(s, Open(p, made)), Flock(p)), Recheck(p));
            if IsFree(s, p) then Owns(r, p) else PlaceOf(r, p).Idle?
  {
    var open := Do(s, Open(p, made));
    var i := if s.path.Some? then s.path.value else made;
    assert PlaceOf(open, p) == Opened(i) && open.path == Some(i) && open.locks == s.locks;
    assert s.path.None? ==> made !in s.locks;
    assert i in s.locks ==> s.locks[i] != p;
    var locked := Do(open, Flock(p));
    assert IsFree(s, p) ==> PlaceOf(locked, p) == Locked(i);
  }

  /** A lease that found its file replaced closes it and tries the new one, with the same outcome. */
  lemma RetriesWhenStale(s: State, p: Claimant, made: Inode)
    requires Inv(s) && PlaceOf(s, p).Stale? && (s.path.None? ==> Unused(s, made))
    ensures var r := Do(Do(Do(Do(s, Reopen(p, made)), CloseOld(p)), Flock(p)), Recheck(p));
            && (if IsFree(s, p) then Owns(r, p) else PlaceOf(r, p).Idle?)
            && (PlaceOf(s, p).inode in r.locks ==> Owns(r, p) && PlaceOf(r, p).inode == PlaceOf(s, p).inode)
  {
    var was := PlaceOf(s, p).inode;
    var i := if s.path.Some? then s.path.value else made;
    assert HoldsLock(PlaceOf(s, p)) && s.locks[was] == p;
    assert s.path.None? ==> made !in s.locks;
    var swapping := Do(s, Reopen(p, made));
    assert PlaceOf(swapping, p) == Swapping(was, i) && swapping.path == Some(i) && swapping.locks == s.locks;
    var open := Do(swapping, CloseOld(p));
    assert PlaceOf(open, p) == Opened(i) && open.path == Some(i) && open.locks == s.locks - {was};
    assert i in open.locks ==> open.locks[i] != p;
    var locked := Do(open, Flock(p));
    assert IsFree(s, p) ==> PlaceOf(locked, p) == Locked(i);
  }

  /** An owner that removes its file and closes it, or crashes, leaves the lock to others. */
  lemma OwnerLeavesLock(s: State, p: Claimant)
    requires Inv(s) && Owns(s, p)
    ensures var r := Do(Do(s, Unlink(p)), Release(p));
            PlaceOf(r, p).Idle? && r.path.None? && PlaceOf(s, p).inode !in r.locks
    ensures var r := Do(s, Crash(p)); PlaceOf(r, p).Idle? && r.path == s.path && PlaceOf(s, p).inode !in r.locks
    ensures var r := Do(s, Release(p)); PlaceOf(r, p).Idle? && r.path == s.path && PlaceOf(s, p).inode !in r.locks
  {
    assert HoldsLock(PlaceOf(s, p));
    assert PlaceOf(Do(s, Unlink(p)), p) == Leaving(PlaceOf(s, p).inode);
  }

  // ---------------------------------------------------------------- the published owner

  const INT32_MAX: nat := 2147483647

  /** Position of the first space, or the length. */
  function FirstSpace(s: string, from: nat): (r: nat)
    requires from <= |s|
    ensures from <= r <= |s| && (r < |s| ==> s[r] == ' ')
    ensures forall k | from <= k < r :: s[k] != ' '
    decreases |s| - from
  {
    if from == |s| || s[from] == ' ' then from else FirstSpace(s, from + 1)
  }

  /** What a published record names: a process, when its decimal digits are in range. */
  function PidOf(digits: string): Option<nat> {
    if Decimal.Digits(digits) && 0 < Decimal.Value(digits) <= INT32_MAX then Some(Decimal.Value(digits)) else None
  }

  /** Accumulates digit by digit; giving up early loses no number in range. */
  method ParsePid(digits: string) returns (pid: Option<nat>)
    ensures pid == PidOf(digits)
  {
    var value: nat := 0;
    for i := 0 to |digits|
      invariant Decimal.Digits(digits[..i]) && value == Decimal.Value(digits[..i])
    {
      assert digits[..i + 1][..i] == digits[..i];
      if digits[i] < '0' || digits[i] > '9' || value > 214748364 {
        if Decimal.Digits(digits) {
          Decimal.ValueGrows(digits, i);
        }
        return None;
      }
      value := value * 10 + (digits[i] as int - '0' as int);
    }
    assert digits[..|digits|] == digits;
    if value <= 0 || value > INT32_MAX {
      return None;
    }
    return Some(value);
  }

  /** The owner a lease file names, when that process still runs under the same identity. */
  function LiveOwnerOf(content: string, identityOf: nat -> string): string {
    var space := FirstSpace(content, 0);
    if content == "" || |content| >= 128 || space == |content| then ""
    else
      match PidOf(content[..space])
      case None => ""
      case Some(pid) =>
        if identityOf(pid) == "" || identityOf(pid) != content[space + 1..] then "" else content
  }

  method LiveOwner(content: string, identityOf: nat -> string) returns (owner: string)
    ensures owner == LiveOwnerOf(content, identityOf)
  {
    var buffer := content[..if |content| < 128 then |content| else 128];
    assert |content| < 128 ==> buffer == content;
    if buffer == "" || |buffer| == 128 {
      return "";
    }
    var space := FirstSpace(buffer, 0);
    if space == |buffer| {
      return "";
    }
    var pid := ParsePid(buffer[..space]);
    if pid.None? {
      return "";
    }
    var identity := identityOf(pid.value);
    if identity == "" || identity != buffer[space + 1..] {
      return "";
    }
    return buffer;
  }

  /** A record of a running process: its number in decimal, a space, and the identity it runs under. */
  predicate NamesRunning(content: string, space: nat, identityOf: nat -> string) {
    && space < |content| && content[space] == ' ' && (forall k | 0 <= k < space :: content[k] != ' ')
    && Decimal.Digits(content[..space]) && 0 < Decimal.Value(content[..space]) <= 2147483647
    && identityOf(Decimal.Value(content[..space])) != ""
    && identityOf(Decimal.Value(content[..space])) == content[space + 1..]
  }

  /** The owner is confirmed exactly when the record is short enough and names a running process with
      the identity it has now. */
  lemma LiveOwnerIsRunning(content: string, identityOf: nat -> string)
    ensures var owner := LiveOwnerOf(content, identityOf);
            && (owner == "" || owner == content)
            && (owner != "" <==> |content| < 128 && exists space: nat :: NamesRunning(content, space, identityOf))
  {
    var first := FirstSpace(content, 0);
    if space: nat :| NamesRunning(content, space, identityOf) {
      assert space == first;
    }
    if LiveOwnerOf(content, identityOf) != "" {
      assert NamesRunning(content, first, identityOf);
    }
  }

  /** What an owner publishes of itself. */
  function Published(pid: nat, identity: string): string {
    if identity == "" then "" else Decimal.Text(pid) + " " + identity
  }

  lemma {:induction false} FirstSpaceAfterDigits(digits: string, rest: string, from: nat)
    requires Decimal.Digits(digits) && from <= |digits|
    ensures FirstSpace(digits + " " + rest, from) == |digits|
    decreases |digits| - from
  {
    if from < |digits| {
      assert (digits + " " + rest)[from] == digits[from];
      FirstSpaceAfterDigits(digits, rest, from + 1);
    }
  }

  /** A published owner is read back while it runs, exactly when its record is shorter than the buffer. */
  lemma PublishedOwnerIsRead(pid: nat, identityOf: nat -> string)
    requires 0 < pid <= INT32_MAX && identityOf(pid) != ""
    ensures var record := Published(pid, identityOf(pid));
            LiveOwnerOf(record, identityOf) == (if |record| < 128 then record else "")
  {
    var digits, record := Decimal.Text(pid), Published(pid, identityOf(pid));
    Decimal.TextReadsBack(pid);
    FirstSpaceAfterDigits(digits, identityOf(pid), 0);
    assert record[..|digits|] == digits;
    assert record[|digits| + 1..] == identityOf(pid);
  }
}

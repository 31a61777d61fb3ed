/** Completions of supervised activities, taken by concurrent waits. */
module Supervision {

  type Id = nat
  type Waiter = nat

  /** A detached leader: `reaped` once a poll has collected its status; Foreign when it never was
      this process's child. */
  datatype Leader = Running | Ended(status: int, reaped: bool) | Foreign

  datatype Io = Live | Exited(status: int) | Drained(status: int) | Delivered(status: int)

  /** `group` is whether anything the leader started still runs. */
  datatype Activity = Detached(leader: Leader, group: bool) | Session(io: Io)

  datatype Completion = Completion(id: Id, status: int)

  /** Where a wait is between two atomic steps. `generation` is the one it read. */
  datatype Place =
    | Start
    | Noted(generation: nat)
    | Scanning(generation: nat)
    | LeaderEnded(generation: nat, id: Id, status: int)
    | Complete(generation: nat, id: Id, status: int)
    | Won(generation: nat, id: Id, status: int)
    | Blocked(generation: nat)
    | Returned
    | Cancelled

  /** A wait for `ids`: those its scan has still to examine, whether this round took any, and all it took. */
  datatype Wait = Wait(ids: set<Id>, any: bool, place: Place, todo: set<Id>, got: bool, taken: seq<Completion>)

  /** `live` is what the supervisor still holds, `kept` the statuses reaped and not yet delivered, `owed`
      the activities whose change is made and whose wake-up is still to come, and `silent` those that
      became complete by a change nothing reports, with the generation at which they did. */
  datatype State = State(activities: map<Id, Activity>, live: set<Id>, kept: map<Id, int>, generation: nat,
                         owed: set<Id>, silent: map<Id, nat>, waits: map<Waiter, Wait>)

  datatype Choice = Abort | Yield | Block

  datatype Step =
    | Register(id: Id, activity: Activity)
    | LeaderExits(id: Id, status: int)
    | GroupEnds(id: Id)
    | IoExits(id: Id, status: int)
    | IoDrains(id: Id)
    | Notify(id: Id)
    | Begin(who: Waiter, ids: set<Id>, any: bool)
    | Note(who: Waiter)
    | Snapshot(who: Waiter)
    | Examine(who: Waiter, id: Id)
    | CheckGroup(who: Waiter)
    | Take(who: Waiter)
    | Keep(who: Waiter)
    | Decide(who: Waiter, choice: Choice)
    | Wake(who: Waiter)

  // ---------------------------------------------------------------- the world's steps

  function Changed(s: State, id: Id, a: Activity): State {
    s.(activities := s.activities[id := a])
  }

  function DoWorld(s: State, step: Step): State
    requires !step.Begin? && !step.Note? && !step.Snapshot? && !step.Examine? && !step.CheckGroup?
    requires !step.Take? && !step.Keep? && !step.Decide? && !step.Wake?
  {
    match step
    case Register(id, a) =>
      if id in s.activities || (a.Session? && a.io != Live) || (a.Detached? && a.leader.Ended?) then s
      else Changed(s, id, a).(live := s.live + {id}, generation := s.generation + 1)
    case LeaderExits(id, status) =>
      if id in s.activities && s.activities[id].Detached? && s.activities[id].leader.Running? then
        Changed(s, id, s.activities[id].(leader := Ended(status, false))).(owed := s.owed + {id})
      else s
    case GroupEnds(id) =>
      if id in s.activities && s.activities[id].Detached? && s.activities[id].group then
        var ended := Changed(s, id, s.activities[id].(group := false));
        if s.activities[id].leader.Running? then ended else ended.(silent := s.silent[id := s.generation])
      else s
    case IoExits(id, status) =>
      if id in s.activities && s.activities[id] == Session(Live) then
        Changed(s, id, Session(Exited(status))).(owed := s.owed + {id})
      else s
    case IoDrains(id) =>
      if id in s.activities && s.activities[id].Session? && s.activities[id].io.Exited? then
        Changed(s, id, Session(Drained(s.activities[id].io.status))).(owed := s.owed + {id})
      else s
    case Notify(id) =>
      if id in s.owed then s.(owed := s.owed - {id}, generation := s.generation + 1) else s
  }

  // ---------------------------------------------------------------- a wait's steps

  function Moved(s: State, who: Waiter, w: Wait): State {
    s.(waits := s.waits[who := w])
  }

  predicate Scans(place: Place) {
    place.Scanning? || place.LeaderEnded? || place.Complete? || place.Won?
  }

  function Passed(w: Wait, id: Id): Wait
    requires Scans(w.place)
  {
    w.(place := Scanning(w.place.generation), todo := w.todo - {id})
  }

  /** LeaderEnded: reaping and keeping the status are one locked step. A child that cannot be waited
      for and whose status is not kept counts as ended with status zero. */
  function ExamineLeader(s: State, who: Waiter, w: Wait, id: Id, leader: Leader): State
    requires id in s.activities && s.activities[id].Detached? && w.place.Scanning?
  {
    var g := w.place.generation;
    match leader
    case Running => Moved(s, who, Passed(w, id))
    case Ended(status, false) =>
      Moved(Changed(s, id, s.activities[id].(leader := Ended(status, true))).(kept := s.kept[id := status]),
            who, w.(place := LeaderEnded(g, id, status)))
    case Ended(_, true) => Moved(s, who, w.(place := LeaderEnded(g, id, if id in s.kept then s.kept[id] else 0)))
    case Foreign => Moved(s, who, w.(place := LeaderEnded(g, id, if id in s.kept then s.kept[id] else 0)))
  }

  /** Taking removes the activity under the supervisor's lock; the loser finds it gone. */
  function DoTake(s: State, who: Waiter, w: Wait): State
    requires w.place.Complete?
  {
    var id, status := w.place.id, w.place.status;
    if id !in s.live || id !in s.activities || (s.activities[id].Session? && !s.activities[id].io.Drained?) then
      Moved(s, who, Passed(w, id))
    else
      var a := s.activities[id];
      Moved(Changed(s, id, if a.Session? then Session(Delivered(a.io.status)) else a)
              .(live := s.live - {id}, generation := s.generation + 1),
            who, w.(place := Won(w.place.generation, id, status)))
  }

  function DoDecide(s: State, w: Wait, choice: Choice): Wait
    requires w.place.Scanning?
  {
    if (w.any && w.got) || w.ids !! s.live then w.(place := Returned)
    else
      match choice
      case Abort => w.(place := Cancelled)
      case Yield => w.(place := Returned)
      case Block => w.(place := Blocked(w.place.generation))
  }

  function DoWait(s: State, step: Step, w: Wait): State
    requires step.Note? || step.Snapshot? || step.Examine? || step.CheckGroup?
             || step.Take? || step.Keep? || step.Decide? || step.Wake?
  {
    var who := step.who;
    match step
    case Note(_) => if w.place.Start? then Moved(s, who, w.(place := Noted(s.generation), got := false)) else s
    case Snapshot(_) =>
      if w.place.Noted? then Moved(s, who, w.(place := Scanning(w.place.generation), todo := w.ids * s.live)) else s
    case Examine(_, id) =>
      if !w.place.Scanning? || id !in w.todo || id !in s.activities then s
      else
        (match s.activities[id]
         case Detached(leader, _) => ExamineLeader(s, who, w, id, leader)
         case Session(Drained(status)) => Moved(s, who, w.(place := Complete(w.place.generation, id, status)))
         case Session(_) => Moved(s, who, Passed(w, id)))
    case CheckGroup(_) =>
      if !w.place.LeaderEnded? || w.place.id !in s.activities || !s.activities[w.place.id].Detached? then s
      else if s.activities[w.place.id].group then Moved(s, who, Passed(w, w.place.id))
      else Moved(s, who, w.(place := Complete(w.place.generation, w.place.id, w.place.status)))
    case Take(_) => if w.place.Complete? then DoTake(s, who, w) else s
    case Keep(_) =>
      if !w.place.Won? then s
      else
        var id := w.place.id;
        Moved(s.(kept := s.kept - {id}), who,
              Passed(w, id).(got := true, taken := w.taken + [Completion(id, w.place.status)]))
    case Decide(_, choice) =>
      if w.place.Scanning? && w.todo == {} then
        Moved(s, who, DoDecide(s, w, choice))
      else s
    case Wake(_) => if w.place.Blocked? then Moved(s, who, w.(place := Start)) else s
  }

  predicate IsWaitStep(step: Step) {
    step.Note? || step.Snapshot? || step.Examine? || step.CheckGroup?
    || step.Take? || step.Keep? || step.Decide? || step.Wake?
  }

  function Do(s: State, step: Step): State {
    if step.Begin? then
      if step.who in s.waits || !(step.ids <= s.activities.Keys) then s
      else Moved(s, step.who, Wait(step.ids, step.any, Start, {}, false, []))
    else if IsWaitStep(step) then
      if step.who in s.waits then DoWait(s, step, s.waits[step.who]) else s
    else DoWorld(s, step)
  }

  const EMPTY := State(map[], {}, map[], 0, {}, map[], map[])

  function Run(steps: seq<Step>): State {
    if steps == [] then EMPTY else Do(Run(steps[..|steps| - 1]), steps[|steps| - 1])
  }

  // ---------------------------------------------------------------- what never changes

  predicate HasEnded(a: Activity) {
    match a
    case Detached(leader, _) => !leader.Running?
    case Session(io) => !io.Live?
  }

  /** The exit status a delivery should carry: zero for a leader that never was this process's child. */
  function TrueStatus(a: Activity): int {
    match a
    case Detached(Ended(status, _), _) => status
    case Detached(_, _) => 0
    case Session(Live) => 0
    case Session(io) => io.status
  }

  /** Ready to be taken. */
  predicate Ready(a: Activity) {
    match a
    case Detached(leader, group) => !leader.Running? && !group
    case Session(io) => io.Drained?
  }

  predicate KeptOk(s: State) {
    && s.live <= s.activities.Keys && s.kept.Keys <= s.activities.Keys
    && forall id | id in s.live ::
         match s.activities[id]
         case Detached(Ended(status, true), _) => id in s.kept && s.kept[id] == status
         case Detached(_, _) => id !in s.kept
         case Session(io) => id !in s.kept && !io.Delivered?
  }

  predicate SilentOk(s: State) {
    forall id | id in s.silent :: s.silent[id] <= s.generation
  }

  /** Known to have ended with this status. */
  predicate EndedWith(s: State, id: Id, status: int) {
    id in s.activities && HasEnded(s.activities[id]) && TrueStatus(s.activities[id]) == status
  }

  predicate Settled(s: State, c: Completion) {
    c.id !in s.live && EndedWith(s, c.id, c.status)
  }

  predicate StatusOk(s: State, w: Wait) {
    && (w.place.LeaderEnded? || w.place.Complete? ==>
          && w.place.id in s.activities && HasEnded(s.activities[w.place.id])
          && (w.place.id in s.live ==> EndedWith(s, w.place.id, w.place.status)))
    && (w.place.Won? ==> Settled(s, Completion(w.place.id, w.place.status)))
    && forall c | c in w.taken :: Settled(s, c)
  }

  /** The wait holds the one delivery of `id`. */
  predicate Claims(w: Wait, id: Id) {
    (w.place.Won? && w.place.id == id) || exists k :: 0 <= k < |w.taken| && w.taken[k].id == id
  }

  predicate ClaimsOnce(w: Wait) {
    && (forall j, k | 0 <= j < k < |w.taken| :: w.taken[j].id != w.taken[k].id)
    && (w.place.Won? ==> forall k | 0 <= k < |w.taken| :: w.taken[k].id != w.place.id)
  }

  ghost predicate OnceOk(s: State) {
    && (forall p, q, id | p in s.waits && q in s.waits && Claims(s.waits[p], id) && Claims(s.waits[q], id) :: p == q)
    && (forall p | p in s.waits :: ClaimsOnce(s.waits[p]))
    && forall id | id in s.activities :: id in s.live || exists p :: p in s.waits && Claims(s.waits[p], id)
  }

  /** A wake-up for the change of `id` has come, is still to come, or never will. */
  predicate Reported(s: State, generation: nat, id: Id) {
    s.generation > generation || id in s.owed || (id in s.silent && s.silent[id] >= generation)
  }

  predicate HasGeneration(place: Place) {
    place.Noted? || Scans(place) || place.Blocked?
  }

  predicate WakeOk(s: State, w: Wait) {
    && w.ids <= s.activities.Keys
    && (HasGeneration(w.place) ==> w.place.generation <= s.generation)
    && (w.place.Blocked? ==> w.todo == {})
    && (HasGeneration(w.place) && !w.place.Noted? ==>
          forall id | id in w.ids && id in s.live && Ready(s.activities[id]) ::
            id in w.todo || Reported(s, w.place.generation, id))
  }

  ghost predicate Inv(s: State) {
    && KeptOk(s)
    && (forall p | p in s.waits :: StatusOk(s, s.waits[p]) && WakeOk(s, s.waits[p]))
    && OnceOk(s)
  }

  /** What every step does to the shared state, as any wait may rely on it. */
  ghost predicate Evolves(s: State, r: State) {
    && s.activities.Keys <= r.activities.Keys
    && (forall id | id in s.activities && HasEnded(s.activities[id]) ::
          HasEnded(r.activities[id]) && TrueStatus(r.activities[id]) == TrueStatus(s.activities[id]))
    && (forall id | id in s.activities && id in r.live :: id in s.live)
    && s.generation <= r.generation
    && (forall id | id in s.silent :: id in r.silent && r.silent[id] >= s.silent[id])
    && (forall id | id in s.owed :: id in r.owed || r.generation > s.generation)
    && (forall id | id in s.live && id in s.activities && id in r.live && Ready(r.activities[id]) ::
          Ready(s.activities[id]) || id in r.owed || (id in r.silent && r.silent[id] >= s.generation))
  }

  /** So a step of one wait, or of the world, disturbs no other wait. */
  lemma OthersUndisturbed(s: State, r: State, w: Wait)
    requires KeptOk(s) && KeptOk(r) && Evolves(s, r) && StatusOk(s, w) && WakeOk(s, w)
    ensures StatusOk(r, w) && WakeOk(r, w)
  {
  }

  ghost predicate WorldStep(s: State, r: State) {
    && KeptOk(r) && Evolves(s, r) && r.waits == s.waits
    && s.live <= r.live && r.activities.Keys - s.activities.Keys <= r.live
  }

  lemma SupervisorEvolves(s: State, step: Step)
    requires KeptOk(s) && (step.Register? || step.Notify?)
    ensures WorldStep(s, DoWorld(s, step))
  {
  }

  lemma LeaderEvolves(s: State, step: Step)
    requires KeptOk(s) && step.LeaderExits?
    ensures WorldStep(s, DoWorld(s, step))
  {
  }

  lemma GroupEvolves(s: State, step: Step)
    requires KeptOk(s) && SilentOk(s) && step.GroupEnds?
    ensures WorldStep(s, DoWorld(s, step))
  {
  }

  lemma SessionEvolves(s: State, step: Step)
    requires KeptOk(s) && (step.IoExits? || step.IoDrains?)
    ensures WorldStep(s, DoWorld(s, step))
  {
  }

  lemma WorldKeepsInv(s: State, step: Step)
    requires Inv(s) && SilentOk(s) && !step.Begin? && !IsWaitStep(step)
    ensures Inv(DoWorld(s, step))
  {
    var r := DoWorld(s, step);
    if step.Register? || step.Notify? {
      SupervisorEvolves(s, step);
    } else if step.LeaderExits? {
      LeaderEvolves(s, step);
    } else if step.GroupEnds? {
      GroupEvolves(s, step);
    } else {
      SessionEvolves(s, step);
    }
    forall p | p in r.waits
      ensures StatusOk(r, r.waits[p]) && WakeOk(r, r.waits[p])
    {
      OthersUndisturbed(s, r, s.waits[p]);
    }
    SameClaims(s, r);
  }

  /** Claims stay exclusive and complete when no wait changes what it claims. */
  lemma SameClaims(s: State, r: State)
    requires OnceOk(s) && s.waits.Keys <= r.waits.Keys
    requires forall p, id | p in r.waits && Claims(r.waits[p], id) :: p in s.waits && Claims(s.waits[p], id)
    requires forall p, id | p in s.waits && Claims(s.waits[p], id) :: Claims(r.waits[p], id)
    requires forall p | p in r.waits :: ClaimsOnce(r.waits[p])
    requires forall id | id in r.activities :: id in r.live || (id in s.activities && id !in s.live)
    ensures OnceOk(r)
  {
    forall id | id in r.activities
      ensures id in r.live || exists p :: p in r.waits && Claims(r.waits[p], id)
    {
      if id !in r.live {
        var p :| p in s.waits && Claims(s.waits[p], id);
        assert Claims(r.waits[p], id);
      }
    }
  }

  lemma BeginKeepsInv(s: State, step: Step)
    requires Inv(s) && step.Begin?
    ensures Inv(Do(s, step))
  {
    if step.who !in s.waits && step.ids <= s.activities.Keys {
      var w := Wait(step.ids, step.any, Start, {}, false, []);
      var r := Moved(s, step.who, w);
      assert StatusOk(r, w) && WakeOk(r, w) && ClaimsOnce(w) && forall id :: !Claims(w, id);
      assert forall p | p in s.waits :: r.waits[p] == s.waits[p];
      forall p | p in s.waits {
        OthersUndisturbed(s, r, s.waits[p]);
      }
      SameClaims(s, r);
    }
  }

  /** Where the waits are matters to no wait but the one that is there. */
  lemma OnlySharedMatters(t: State, r: State, w: Wait)
    requires KeptOk(t) && r == t.(waits := r.waits) && StatusOk(t, w) && WakeOk(t, w)
    ensures StatusOk(r, w) && WakeOk(r, w)
  {
  }

  lemma WaitsStayInOrder(s: State, t: State, who: Waiter, now: Wait)
    requires Inv(s) && KeptOk(t) && Evolves(s, t) && t.waits == s.waits && who in s.waits
    requires StatusOk(t, now) && WakeOk(t, now)
    ensures var r := Moved(t, who, now);
            KeptOk(r) && forall p | p in r.waits :: StatusOk(r, r.waits[p]) && WakeOk(r, r.waits[p])
  {
    var r := Moved(t, who, now);
    forall p | p in r.waits
      ensures StatusOk(r, r.waits[p]) && WakeOk(r, r.waits[p])
    {
      if p != who {
        OthersUndisturbed(s, t, s.waits[p]);
      }
      OnlySharedMatters(t, r, r.waits[p]);
    }
  }

  /** A step of one wait that claims nothing new, whatever it does to the shared state. */
  lemma StepWithoutClaimKeepsInv(s: State, t: State, who: Waiter, w: Wait)
    requires Inv(s) && KeptOk(t) && Evolves(s, t) && t.waits == s.waits && who in s.waits
    requires t.live == s.live && t.activities.Keys == s.activities.Keys
    requires StatusOk(t, w) && WakeOk(t, w) && ClaimsOnce(w)
    requires forall id :: Claims(w, id) == Claims(s.waits[who], id)
    ensures Inv(Moved(t, who, w))
  {
    var r := Moved(t, who, w);
    WaitsStayInOrder(s, t, who, w);
    assert forall p | p in s.waits && p != who :: r.waits[p] == s.waits[p];
    SameClaims(s, r);
  }

  /** What a step of a wait that claims nothing leaves of the wait itself and of what is shared. */
  ghost predicate StepsWithoutClaim(s: State, t: State, w: Wait, now: Wait) {
    && KeptOk(t) && Evolves(s, t) && t.waits == s.waits
    && t.live == s.live && t.activities.Keys == s.activities.Keys
    && StatusOk(t, now) && WakeOk(t, now)
    && now.taken == w.taken && !now.place.Won? && !w.place.Won?
  }

  lemma UnclaimingStepKeepsInv(s: State, t: State, who: Waiter, now: Wait)
    requires Inv(s) && who in s.waits && StepsWithoutClaim(s, t, s.waits[who], now)
    ensures Inv(Moved(t, who, now))
  {
    assert ClaimsOnce(s.waits[who]);
    assert forall id :: Claims(now, id) == Claims(s.waits[who], id);
    StepWithoutClaimKeepsInv(s, t, who, now);
  }

  /** The wait itself stays in order and claims nothing new. */
  ghost predicate OwnMove(s: State, w: Wait, now: Wait) {
    && StatusOk(s, now) && WakeOk(s, now)
    && now.taken == w.taken && !now.place.Won? && !w.place.Won?
  }

  lemma NothingSharedChanged(s: State, w: Wait, now: Wait)
    requires KeptOk(s) && OwnMove(s, w, now)
    ensures StepsWithoutClaim(s, s, w, now)
  {
  }

  lemma GroupStep(s: State, step: Step, w: Wait) returns (now: Wait)
    requires KeptOk(s) && StatusOk(s, w) && WakeOk(s, w) && step.CheckGroup?
    ensures var r := DoWait(s, step, w);
            r == s || (r == Moved(s, step.who, now) && OwnMove(s, w, now))
  {
    if !w.place.LeaderEnded? {
      now := w;
    } else if s.activities[w.place.id].Detached? && s.activities[w.place.id].group {
      now := Passed(w, w.place.id);
    } else {
      now := w.(place := Complete(w.place.generation, w.place.id, w.place.status));
    }
  }

  /** Steps that only move the wait's own place. */
  lemma OwnStep(s: State, step: Step, w: Wait) returns (now: Wait)
    requires KeptOk(s) && StatusOk(s, w) && WakeOk(s, w)
    requires step.Note? || step.Wake?
    ensures var r := DoWait(s, step, w);
            r == s || (r == Moved(s, step.who, now) && OwnMove(s, w, now))
  {
    var r := DoWait(s, step, w);
    now := if step.who in r.waits then r.waits[step.who] else w;
  }

  lemma PrivateStep(s: State, step: Step, w: Wait) returns (now: Wait)
    requires KeptOk(s) && StatusOk(s, w) && WakeOk(s, w)
    requires step.Note? || step.Snapshot? || step.CheckGroup? || step.Decide? || step.Wake?
    ensures var r := DoWait(s, step, w);
            r == s || (r == Moved(s, step.who, now) && OwnMove(s, w, now))
  {
    if step.Snapshot? {
      now := if w.place.Noted? then w.(place := Scanning(w.place.generation), todo := w.ids * s.live) else w;
    } else if step.Decide? {
      now := if w.place.Scanning? then DoDecide(s, w, step.choice) else w;
    } else if step.CheckGroup? {
      now := GroupStep(s, step, w);
    } else {
      now := OwnStep(s, step, w);
    }
  }

  /** This examination is the one that reaps the leader. */
  predicate Reaps(s: State, w: Wait, id: Id) {
    && w.place.Scanning? && id in w.todo && id in s.activities
    && s.activities[id].Detached? && s.activities[id].leader.Ended? && !s.activities[id].leader.reaped
  }

  lemma PlainExamineStep(s: State, step: Step, w: Wait) returns (now: Wait)
    requires KeptOk(s) && StatusOk(s, w) && WakeOk(s, w) && step.Examine? && !Reaps(s, w, step.id)
    ensures var r := DoWait(s, step, w);
            r == s || (r == Moved(s, step.who, now) && OwnMove(s, w, now))
  {
    now := w;
    if w.place.Scanning? && step.id in w.todo && step.id in s.activities {
      var g, a := w.place.generation, s.activities[step.id];
      if !HasEnded(a) || (a.Session? && !a.io.Drained?) {
        now := Passed(w, step.id);
      } else if a.Session? {
        now := w.(place := Complete(g, step.id, a.io.status));
      } else {
        now := w.(place := LeaderEnded(g, step.id, if step.id in s.kept then s.kept[step.id] else 0));
      }
      assert DoWait(s, step, w) == Moved(s, step.who, now);
    }
  }

  /** Reaping keeps the status in the same step. */
  lemma ReapStep(s: State, step: Step, w: Wait) returns (t: State, now: Wait)
    requires KeptOk(s) && StatusOk(s, w) && WakeOk(s, w) && step.Examine? && Reaps(s, w, step.id)
    ensures DoWait(s, step, w) == Moved(t, step.who, now) && StepsWithoutClaim(s, t, w, now)
  {
    var leader := s.activities[step.id].leader;
    t := Changed(s, step.id, s.activities[step.id].(leader := Ended(leader.status, true)))
           .(kept := s.kept[step.id := leader.status]);
    now := w.(place := LeaderEnded(w.place.generation, step.id, leader.status));
    assert KeptOk(t);
    assert Evolves(s, t);
  }

  /** Whether a take finds the activity still there. */
  predicate Wins(s: State, id: Id) {
    id in s.live && id in s.activities && (s.activities[id].Session? ==> s.activities[id].io.Drained?)
  }

  lemma WinStep(s: State, step: Step, w: Wait) returns (t: State, now: Wait)
    requires KeptOk(s) && StatusOk(s, w) && WakeOk(s, w) && step.Take? && w.place.Complete? && Wins(s, w.place.id)
    ensures DoWait(s, step, w) == Moved(t, step.who, now)
    ensures KeptOk(t) && Evolves(s, t) && t.waits == s.waits && t.activities.Keys == s.activities.Keys
    ensures StatusOk(t, now) && WakeOk(t, now) && now.taken == w.taken
    ensures now.place.Won? && now.place.id == w.place.id && t.live == s.live - {w.place.id}
  {
    var r := DoWait(s, step, w);
    t, now := r.(waits := s.waits), w.(place := Won(w.place.generation, w.place.id, w.place.status));
    assert KeptOk(t) && Evolves(s, t);
    OthersUndisturbed(s, t, w);
  }

  /** Taking fails for all but one wait, which alone claims the activity. */
  lemma TakeStep(s: State, step: Step, w: Wait) returns (t: State, now: Wait)
    requires KeptOk(s) && StatusOk(s, w) && WakeOk(s, w) && step.Take? && w.place.Complete?
    ensures DoWait(s, step, w) == Moved(t, step.who, now)
    ensures KeptOk(t) && Evolves(s, t) && t.waits == s.waits && t.activities.Keys == s.activities.Keys
    ensures StatusOk(t, now) && WakeOk(t, now) && now.taken == w.taken
    ensures now.place.Won? <==> Wins(s, w.place.id)
    ensures if now.place.Won? then now.place.id == w.place.id && t.live == s.live - {w.place.id} else t.live == s.live
  {
    if Wins(s, w.place.id) {
      t, now := WinStep(s, step, w);
    } else {
      t, now := s, Passed(w, w.place.id);
    }
  }

  lemma TakeKeepsInv(s: State, step: Step)
    requires Inv(s) && step.Take? && step.who in s.waits
    ensures Inv(Do(s, step))
  {
    var who := step.who;
    var w := s.waits[who];
    if w.place.Complete? {
      var t, now := TakeStep(s, step, w);
      if now.place.Won? {
        NobodyClaimsLive(s, w.place.id);
        ClaimingStepKeepsInv(s, t, who, now);
      } else {
        UnclaimingStepKeepsInv(s, t, who, now);
      }
    }
  }

  lemma ClaimingStepKeepsInv(s: State, t: State, who: Waiter, now: Wait)
    requires Inv(s) && KeptOk(t) && Evolves(s, t) && t.waits == s.waits && who in s.waits
    requires t.activities.Keys == s.activities.Keys && StatusOk(t, now) && WakeOk(t, now)
    requires now.place.Won? && !s.waits[who].place.Won? && now.taken == s.waits[who].taken
    requires t.live == s.live - {now.place.id}
    requires forall p | p in s.waits :: !Claims(s.waits[p], now.place.id)
    ensures Inv(Moved(t, who, now))
  {
    var r := Moved(t, who, now);
    WaitsStayInOrder(s, t, who, now);
    NewClaim(s, r, who, now.place.id);
  }

  lemma NobodyClaimsLive(s: State, id: Id)
    requires Inv(s) && id in s.live
    ensures forall p | p in s.waits :: !Claims(s.waits[p], id)
  {
    forall p | p in s.waits
      ensures !Claims(s.waits[p], id)
    {
      var w := s.waits[p];
      assert StatusOk(s, w);
      assert forall k | 0 <= k < |w.taken| :: w.taken[k] in w.taken;
    }
  }

  lemma NewClaim(s: State, r: State, who: Waiter, id: Id)
    requires OnceOk(s) && who in s.waits && r.waits.Keys == s.waits.Keys
    requires forall p | p in s.waits && p != who :: r.waits[p] == s.waits[p]
    requires r.waits[who].place.Won? && r.waits[who].place.id == id && !s.waits[who].place.Won?
    requires r.waits[who].taken == s.waits[who].taken
    requires forall p | p in s.waits :: !Claims(s.waits[p], id)
    requires r.activities.Keys == s.activities.Keys && r.live == s.live - {id}
    ensures OnceOk(r)
  {
    assert forall k | k != id :: Claims(r.waits[who], k) == Claims(s.waits[who], k);
    assert Claims(r.waits[who], id) && ClaimsOnce(s.waits[who]);
    forall k | k in r.activities
      ensures k in r.live || exists p :: p in r.waits && Claims(r.waits[p], k)
    {
      if k !in s.live {
        var p :| p in s.waits && Claims(s.waits[p], k);
        assert Claims(r.waits[p], k);
      }
    }
  }

  /** Delivering turns the claim on an activity into a completion, and only then is its status erased. */
  lemma KeepStep(s: State, step: Step, w: Wait) returns (t: State, now: Wait)
    requires KeptOk(s) && StatusOk(s, w) && WakeOk(s, w) && step.Keep? && w.place.Won?
    ensures DoWait(s, step, w) == Moved(t, step.who, now)
    ensures KeptOk(t) && Evolves(s, t) && t.waits == s.waits
    ensures t.activities.Keys == s.activities.Keys && t.live == s.live
    ensures StatusOk(t, now) && WakeOk(t, now)
    ensures !now.place.Won? && now.taken == w.taken + [Completion(w.place.id, w.place.status)]
    ensures t.kept == s.kept - {w.place.id} && now.got
  {
    var r := DoWait(s, step, w);
    t, now := r.(waits := s.waits), r.waits[step.who];
  }

  lemma KeepKeepsClaims(w: Wait, now: Wait)
    requires w.place.Won? && ClaimsOnce(w)
    requires !now.place.Won? && now.taken == w.taken + [Completion(w.place.id, w.place.status)]
    ensures ClaimsOnce(now) && forall id :: Claims(now, id) == Claims(w, id)
  {
    assert now.taken[|w.taken|].id == w.place.id;
    assert forall k | 0 <= k < |w.taken| :: now.taken[k] == w.taken[k];
  }

  lemma KeepKeepsInv(s: State, step: Step)
    requires Inv(s) && step.Keep? && step.who in s.waits
    ensures Inv(Do(s, step))
  {
    var w := s.waits[step.who];
    if w.place.Won? {
      var t, now := KeepStep(s, step, w);
      KeepKeepsClaims(w, now);
      StepWithoutClaimKeepsInv(s, t, step.who, now);
    }
  }

  lemma WaitStepKeepsInv(s: State, step: Step, w: Wait)
    requires Inv(s) && IsWaitStep(step) && step.who in s.waits && w == s.waits[step.who]
    ensures Inv(DoWait(s, step, w))
  {
    if step.Take? {
      TakeKeepsInv(s, step);
    } else if step.Keep? {
      KeepKeepsInv(s, step);
    } else {
      var t, now := s, w;
      if step.Examine? && Reaps(s, w, step.id) {
        t, now := ReapStep(s, step, w);
      } else if step.Examine? {
        now := PlainExamineStep(s, step, w);
      } else {
        now := PrivateStep(s, step, w);
      }
      if DoWait(s, step, w) != s {
        if t == s {
          NothingSharedChanged(s, w, now);
        }
        UnclaimingStepKeepsInv(s, t, step.who, now);
      }
    }
  }

  lemma StepKeepsSilent(s: State, step: Step)
    requires SilentOk(s)
    ensures SilentOk(Do(s, step))
  {
  }

  lemma StepKeepsInv(s: State, step: Step)
    requires Inv(s) && SilentOk(s)
    ensures Inv(Do(s, step))
  {
    if step.Begin? {
      BeginKeepsInv(s, step);
    } else if !IsWaitStep(step) {
      WorldKeepsInv(s, step);
    } else if step.who in s.waits {
      WaitStepKeepsInv(s, step, s.waits[step.who]);
    }
  }

  lemma {:induction false} RunKeepsInv(steps: seq<Step>)
    ensures Inv(Run(steps)) && SilentOk(Run(steps))
  {
    if steps != [] {
      RunKeepsInv(steps[..|steps| - 1]);
      StepKeepsSilent(Run(steps[..|steps| - 1]), steps[|steps| - 1]);
      StepKeepsInv(Run(steps[..|steps| - 1]), steps[|steps| - 1]);
    }
  }

  // ---------------------------------------------------------------- what every run keeps

  /** What became of an activity: held by the supervisor, carried by a wait that goes on, returned by
      one, or thrown away by one that was cancelled. */
  datatype Fate = StillLive | Carried(who: Waiter) | HandedOver(who: Waiter) | ThrownAway(who: Waiter)

  predicate HasFate(s: State, id: Id, fate: Fate) {
    if fate.StillLive? then id in s.live
    else
      && fate.who in s.waits && Claims(s.waits[fate.who], id)
      && (fate.HandedOver? <==> s.waits[fate.who].place.Returned?)
      && (fate.ThrownAway? <==> s.waits[fate.who].place.Cancelled?)
  }

  /** Exactly once, with the true status: in every interleaving, each activity ever registered has
      exactly one fate, no wait takes one twice, and whatever was taken carries the status the process
      ended with. */
  lemma DeliveredExactlyOnce(steps: seq<Step>)
    ensures var s := Run(steps);
            && (forall id | id in s.activities :: exists fate :: HasFate(s, id, fate))
            && (forall id, a, b | HasFate(s, id, a) && HasFate(s, id, b) :: a == b)
            && (forall p | p in s.waits :: ClaimsOnce(s.waits[p]))
            && (forall p, c | p in s.waits && c in s.waits[p].taken :: EndedWith(s, c.id, c.status))
  {
    var s := Run(steps);
    RunKeepsInv(steps);
    forall id | id in s.activities
      ensures exists fate :: HasFate(s, id, fate)
    {
      if id in s.live {
        assert HasFate(s, id, StillLive);
      } else {
        var p :| p in s.waits && Claims(s.waits[p], id);
        assert HasFate(s, id, if s.waits[p].place.Returned? then HandedOver(p)
                              else if s.waits[p].place.Cancelled? then ThrownAway(p) else Carried(p));
      }
    }
    forall id, a, b | HasFate(s, id, a) && HasFate(s, id, b)
      ensures a == b
    {
      OneFate(s, id, a, b);
    }
    forall p, c | p in s.waits && c in s.waits[p].taken
      ensures EndedWith(s, c.id, c.status)
    {
      assert StatusOk(s, s.waits[p]);
    }
  }

  lemma OneFate(s: State, id: Id, a: Fate, b: Fate)
    requires Inv(s) && HasFate(s, id, a) && HasFate(s, id, b)
    ensures a == b
  {
    if id in s.live {
      NobodyClaimsLive(s, id);
    }
  }

  // ---------------------------------------------------------------- what a cancelled wait throws away

  /** A wait examines and takes only what it waits for, and one for any activity has taken nothing when
      it goes on or is cancelled. A cancelled one has left something it waits for. */
  ghost predicate TakesInOrder(w: Wait) {
    && w.todo <= w.ids && (w.place.LeaderEnded? || w.place.Complete? || w.place.Won? ==> w.place.id in w.ids)
    && (forall k | 0 <= k < |w.taken| :: w.taken[k].id in w.ids)
    && (w.any && !w.place.Returned? && !(Scans(w.place) && w.got) ==> w.taken == [])
    && (w.got ==> w.taken != [])
    && (w.place.Cancelled? ==> exists id :: id in w.ids && !Claims(w, id))
  }

  lemma CancelLeavesOne(s: State, w: Wait, who: Waiter)
    requires Inv(s) && who in s.waits && s.waits[who] == w && w.place.Scanning?
    ensures var now := DoDecide(s, w, Abort);
            now.place.Cancelled? ==> exists id :: id in now.ids && !Claims(now, id)
  {
    if !(w.ids !! s.live) {
      var id :| id in w.ids && id in s.live;
      NobodyClaimsLive(s, id);
      assert !Claims(DoDecide(s, w, Abort), id);
    }
  }

  ghost predicate LeavesInOrder(s: State, who: Waiter) {
    who in s.waits && TakesInOrder(s.waits[who])
  }

  /** A wait's step changes no other wait. */
  predicate OnlyOneMoved(s: State, r: State, who: Waiter) {
    r.waits.Keys == s.waits.Keys && forall p | p in s.waits && p != who :: r.waits[p] == s.waits[p]
  }

  lemma OnlyOneExamines(s: State, step: Step, w: Wait)
    requires (step.Examine? || step.Take? || step.Keep?) && step.who in s.waits && s.waits[step.who] == w
    ensures OnlyOneMoved(s, DoWait(s, step, w), step.who)
  {
  }

  lemma OnlyOneWaitSteps(s: State, step: Step, w: Wait)
    requires IsWaitStep(step) && step.who in s.waits && s.waits[step.who] == w
    ensures OnlyOneMoved(s, DoWait(s, step, w), step.who)
  {
    if step.Examine? || step.Take? || step.Keep? {
      OnlyOneExamines(s, step, w);
    }
  }

  lemma MoveTakesInOrder(s: State, step: Step, w: Wait)
    requires step.Note? || step.Snapshot? || step.CheckGroup? || step.Wake?
    requires step.who in s.waits && s.waits[step.who] == w && TakesInOrder(w)
    ensures LeavesInOrder(DoWait(s, step, w), step.who)
  {
  }

  lemma TakeTakesInOrder(s: State, step: Step, w: Wait)
    requires step.Take? && step.who in s.waits && s.waits[step.who] == w && TakesInOrder(w)
    ensures LeavesInOrder(DoWait(s, step, w), step.who)
  {
  }

  /** An examination that does anything passes an activity, or goes on with it. */
  lemma ExamineMoves(s: State, step: Step, w: Wait)
    requires step.Examine? && step.who in s.waits && s.waits[step.who] == w
    ensures var now := DoWait(s, step, w).waits[step.who];
            || now == w
            || (w.place.Scanning? && now == Passed(w, step.id))
            || (w.place.Scanning? && step.id in w.todo && now == w.(place := now.place)
                && (now.place.LeaderEnded? || now.place.Complete?) && now.place.id == step.id)
  {
  }

  lemma ExamineTakesInOrder(s: State, step: Step, w: Wait)
    requires step.Examine? && step.who in s.waits && s.waits[step.who] == w && TakesInOrder(w)
    ensures LeavesInOrder(DoWait(s, step, w), step.who)
  {
    ExamineMoves(s, step, w);
  }

  lemma KeepTakesInOrder(s: State, step: Step, w: Wait)
    requires step.Keep? && step.who in s.waits && s.waits[step.who] == w && TakesInOrder(w)
    ensures LeavesInOrder(DoWait(s, step, w), step.who)
  {
  }

  lemma DecideTakesInOrder(s: State, step: Step, w: Wait)
    requires Inv(s) && step.Decide? && step.who in s.waits && s.waits[step.who] == w && TakesInOrder(w)
    ensures LeavesInOrder(DoWait(s, step, w), step.who)
  {
    if w.place.Scanning? && w.todo == {} {
      CancelLeavesOne(s, w, step.who);
      assert DoDecide(s, w, step.choice).taken == w.taken;
    }
  }

  lemma WaitStepTakesInOrder(s: State, step: Step, w: Wait)
    requires Inv(s) && IsWaitStep(step) && step.who in s.waits && s.waits[step.who] == w && TakesInOrder(w)
    ensures LeavesInOrder(DoWait(s, step, w), step.who)
  {
    if step.Keep? {
      KeepTakesInOrder(s, step, w);
    } else if step.Decide? {
      DecideTakesInOrder(s, step, w);
    } else if step.Take? {
      TakeTakesInOrder(s, step, w);
    } else if step.Examine? {
      ExamineTakesInOrder(s, step, w);
    } else {
      MoveTakesInOrder(s, step, w);
    }
  }

  lemma {:induction false} RunTakesInOrder(steps: seq<Step>)
    ensures forall p | p in Run(steps).waits :: TakesInOrder(Run(steps).waits[p])
  {
    if steps != [] {
      var before, step := steps[..|steps| - 1], steps[|steps| - 1];
      RunTakesInOrder(before);
      RunKeepsInv(before);
      if IsWaitStep(step) && step.who in Run(before).waits {
        OnlyOneWaitSteps(Run(before), step, Run(before).waits[step.who]);
        WaitStepTakesInOrder(Run(before), step, Run(before).waits[step.who]);
      }
    }
  }

  /** A cancelled wait throws away exactly what it took. A wait for any of its activities, or for one
      alone, has taken nothing then. */
  lemma CancelThrowsAwayWhatWasTaken(steps: seq<Step>, who: Waiter)
    requires who in Run(steps).waits && Run(steps).waits[who].place.Cancelled?
    ensures var s := Run(steps); var w := s.waits[who];
            && (forall id :: HasFate(s, id, ThrownAway(who)) <==> exists k :: 0 <= k < |w.taken| && w.taken[k].id == id)
            && (w.any || |w.ids| <= 1 ==> w.taken == [])
  {
    RunTakesInOrder(steps);
    var w := Run(steps).waits[who];
    if w.taken != [] {
      var other :| other in w.ids && !Claims(w, other);
      var first := w.taken[0].id;
      assert Claims(w, first);
      TwoMembers(w.ids, first, other);
    }
  }

  lemma TwoMembers(ids: set<Id>, a: Id, b: Id)
    requires a in ids && b in ids && a != b
    ensures |ids| >= 2
  {
    assert {a, b} <= ids;
    assert |ids - {a, b}| == |ids| - |{a, b}|;
  }

  /** When a cancellation that is seen loses something: a wait for all has taken some of its activities
      and others are still live. */
  lemma CancelLosesWhen(steps: seq<Step>, who: Waiter)
    requires who in Run(steps).waits
    requires Run(steps).waits[who].place.Scanning? && Run(steps).waits[who].todo == {}
    ensures var s, r := Run(steps), Do(Run(steps), Decide(who, Abort)); var w := s.waits[who];
            (exists id :: HasFate(r, id, ThrownAway(who))) <==> !w.any && w.taken != [] && !(w.ids !! s.live)
  {
    RunTakesInOrder(steps);
    var r, w := Do(Run(steps), Decide(who, Abort)), Run(steps).waits[who];
    if r.waits[who].place.Cancelled? && w.taken != [] {
      assert HasFate(r, w.taken[0].id, ThrownAway(who));
    }
  }

  lemma RunMore(steps: seq<Step>, step: Step)
    ensures Run(steps + [step]) == Do(Run(steps), step)
  {
    assert (steps + [step])[..|steps|] == steps;
  }

  /** Live sessions, as many as wanted. */
  lemma {:induction false} SessionsStart(ids: set<Id>) returns (steps: seq<Step>, s: State)
    ensures Run(steps) == s && s.waits == map[] && s.live == s.activities.Keys == ids
    ensures forall id | id in ids :: s.activities[id] == Session(Live)
    decreases ids
  {
    if ids == {} {
      return [], EMPTY;
    }
    var id :| id in ids;
    steps, s := SessionsStart(ids - {id});
    RunMore(steps, Register(id, Session(Live)));
    steps, s := steps + [Register(id, Session(Live))], Do(s, Register(id, Session(Live)));
  }

  /** One of them ends and its output is drained. */
  lemma OneSessionDrained(ids: set<Id>, one: Id, status: int) returns (steps: seq<Step>, s: State)
    requires one in ids
    ensures Run(steps) == s && s.waits == map[] && s.live == s.activities.Keys == ids
    ensures s.activities[one] == Session(Drained(status))
    ensures forall id | id in ids && id != one :: s.activities[id] == Session(Live)
  {
    steps, s := SessionsStart(ids);
    RunMore(steps, IoExits(one, status));
    steps, s := steps + [IoExits(one, status)], Do(s, IoExits(one, status));
    RunMore(steps, IoDrains(one));
    steps, s := steps + [IoDrains(one)], Do(s, IoDrains(one));
  }

  /** A wait for all of them, about to examine them. */
  lemma AllAreScanned(ids: set<Id>, one: Id, status: int) returns (steps: seq<Step>, s: State)
    requires one in ids
    ensures Run(steps) == s && 0 in s.waits && s.live == s.activities.Keys == ids
    ensures s.activities[one] == Session(Drained(status))
    ensures forall id | id in ids && id != one :: s.activities[id] == Session(Live)
    ensures var w := s.waits[0]; w.place.Scanning? && !w.any && w.todo == w.ids == ids && w.taken == []
  {
    steps, s := OneSessionDrained(ids, one, status);
    RunMore(steps, Begin(0, ids, false));
    steps, s := steps + [Begin(0, ids, false)], Do(s, Begin(0, ids, false));
    RunMore(steps, Note(0));
    steps, s := steps + [Note(0)], Do(s, Note(0));
    RunMore(steps, Snapshot(0));
    steps, s := steps + [Snapshot(0)], Do(s, Snapshot(0));
  }

  /** And with that one taken. */
  lemma OneSessionTaken(ids: set<Id>, one: Id, status: int) returns (steps: seq<Step>, s: State)
    requires one in ids
    ensures Run(steps) == s && 0 in s.waits && s.live == ids - {one} && ids <= s.activities.Keys
    ensures forall id | id in ids && id != one :: s.activities[id] == Session(Live)
    ensures var w := s.waits[0];
            w.place.Scanning? && !w.any && w.ids == ids && w.todo == ids - {one} && w.taken == [Completion(one, status)]
  {
    steps, s := AllAreScanned(ids, one, status);
    RunMore(steps, Examine(0, one));
    steps, s := steps + [Examine(0, one)], Do(s, Examine(0, one));
    RunMore(steps, Take(0));
    steps, s := steps + [Take(0)], Do(s, Take(0));
    RunMore(steps, Keep(0));
    steps, s := steps + [Keep(0)], Do(s, Keep(0));
  }

  /** The rest, still running, are passed. */
  lemma {:induction false} RestIsPassed(before: seq<Step>, was: State) returns (steps: seq<Step>, s: State)
    requires Run(before) == was && 0 in was.waits && was.waits[0].place.Scanning?
    requires forall id | id in was.waits[0].todo :: id in was.activities && was.activities[id] == Session(Live)
    ensures Run(steps) == s && 0 in s.waits && s.live == was.live
    ensures s.waits[0] == was.waits[0].(todo := {})
    decreases was.waits[0].todo
  {
    steps, s := before, was;
    if was.waits[0].todo != {} {
      var id :| id in was.waits[0].todo;
      RunMore(steps, Examine(0, id));
      steps, s := steps + [Examine(0, id)], Do(s, Examine(0, id));
      assert s.waits[0] == was.waits[0].(todo := was.waits[0].todo - {id});
      steps, s := RestIsPassed(steps, s);
    }
  }

  /** Some activity's completion was thrown away by a wait with these arguments. */
  ghost predicate LosesCompletion(s: State, any: bool, ids: set<Id>) {
    exists p, id :: HasFate(s, id, ThrownAway(p)) && s.waits[p].ids == ids && s.waits[p].any == any
  }

  /** A wait for several that takes one and is cancelled over the rest throws that one away. */
  lemma CancelledWaitLosesCompletion(ids: set<Id>, one: Id, other: Id, status: int) returns (steps: seq<Step>)
    requires one in ids && other in ids && one != other
    ensures var s := Run(steps);
            && 0 in s.waits && s.waits[0].ids == ids && !s.waits[0].any && s.waits[0].place.Cancelled?
            && s.waits[0].taken == [Completion(one, status)] && HasFate(s, one, ThrownAway(0))
  {
    var s;
    steps, s := OneSessionTaken(ids, one, status);
    steps, s := RestIsPassed(steps, s);
    assert other in s.waits[0].ids && other in s.live;
    RunMore(steps, Decide(0, Abort));
    steps, s := steps + [Decide(0, Abort)], Do(s, Decide(0, Abort));
    assert s.waits[0].taken[0].id == one;
  }

  /** Which waits can lose a completion to a cancellation, told by their arguments: those for all of
      several activities. */
  lemma CancelCanLose(any: bool, ids: set<Id>)
    ensures (exists steps :: LosesCompletion(Run(steps), any, ids)) <==> !any && |ids| >= 2
  {
    if steps :| LosesCompletion(Run(steps), any, ids) {
      var s := Run(steps);
      var p, id :| HasFate(s, id, ThrownAway(p)) && s.waits[p].ids == ids && s.waits[p].any == any;
      CancelThrowsAwayWhatWasTaken(steps, p);
    }
    if !any && |ids| >= 2 {
      var one :| one in ids;
      assert |ids - {one}| >= 1;
      var other :| other in ids - {one};
      var steps := CancelledWaitLosesCompletion(ids, one, other, 0);
      assert HasFate(Run(steps), one, ThrownAway(0));
    }
  }

  // ---------------------------------------------------------------- when a wait returns

  /** A wait is satisfied when it took something and any will do, or when nothing it waits for is live. */
  predicate Satisfied(s: State, w: Wait) {
    (w.any && w.taken != []) || forall id | id in w.ids :: id !in s.live
  }

  /** What a wait does once it has examined everything: satisfied it returns, and else an abort, queued
      steering or nothing makes it cancelled, returning with what it took, or blocked at the generation
      it read. */
  lemma DecisionIs(steps: seq<Step>, who: Waiter, choice: Choice)
    requires who in Run(steps).waits
    requires Run(steps).waits[who].place.Scanning? && Run(steps).waits[who].todo == {}
    ensures var s, r := Run(steps), Do(Run(steps), Decide(who, choice)); var w := s.waits[who];
            && who in r.waits && r.waits[who].taken == w.taken && r.waits[who].ids == w.ids
            && r.waits[who].place == (if Satisfied(s, w) then Returned
                                      else match choice
                                        case Abort => Cancelled
                                        case Yield => Returned
                                        case Block => Blocked(w.place.generation))
  {
    RunTakesInOrder(steps);
  }

  /** What was ever registered only ever leaves. */
  lemma LiveShrinks(s: State, step: Step)
    ensures s.activities.Keys <= Do(s, step).activities.Keys
    ensures forall id | id in s.activities && id in Do(s, step).live :: id in s.live
  {
  }

  /** A wait that has returned stays as it is, and another returns only by a decision. */
  lemma ReturnsByDecision(s: State, step: Step, who: Waiter)
    requires who in Do(s, step).waits && Do(s, step).waits[who].place.Returned?
    ensures who in s.waits
    ensures var w := s.waits[who];
            || (w.place.Returned? && Do(s, step).waits[who] == w)
            || (step.Decide? && step.who == who && w.place.Scanning? && w.todo == {})
  {
    if IsWaitStep(step) && step.who in s.waits {
      OnlyOneWaitSteps(s, step, s.waits[step.who]);
      if step.who == who {
        OwnReturn(s, step, s.waits[who]);
      }
    }
  }

  lemma OwnReturn(s: State, step: Step, w: Wait)
    requires IsWaitStep(step) && step.who in s.waits && s.waits[step.who] == w
    requires DoWait(s, step, w).waits[step.who].place.Returned?
    ensures (w.place.Returned? && DoWait(s, step, w).waits[step.who] == w)
            || (step.Decide? && w.place.Scanning? && w.todo == {})
  {
  }

  /** Unless it is made to yield, a wait returns only when it is satisfied: it waits until then. */
  lemma {:induction false} ReturnsOnlySatisfied(steps: seq<Step>, who: Waiter)
    requires who in Run(steps).waits && Run(steps).waits[who].place.Returned?
    requires Decide(who, Yield) !in steps
    ensures Satisfied(Run(steps), Run(steps).waits[who])
  {
    if steps != [] {
      var before, step := steps[..|steps| - 1], steps[|steps| - 1];
      var s := Run(before);
      assert steps == before + [step];
      ReturnsByDecision(s, step, who);
      LiveShrinks(s, step);
      RunKeepsInv(before);
      assert WakeOk(s, s.waits[who]);
      if s.waits[who].place.Returned? && Do(s, step).waits[who] == s.waits[who] {
        ReturnsOnlySatisfied(before, who);
      } else {
        DecisionIs(before, who, step.choice);
      }
    }
  }

  /** A wait waits for what it was asked to. */
  lemma {:induction false} WaitKeepsRequest(steps: seq<Step>, who: Waiter)
    requires who in Run(steps).waits
    ensures Begin(who, Run(steps).waits[who].ids, Run(steps).waits[who].any) in steps
  {
    if steps != [] {
      var before, step := steps[..|steps| - 1], steps[|steps| - 1];
      var s := Run(before);
      assert steps == before + [step];
      RequestOneStep(s, step, who);
      if who in s.waits {
        WaitKeepsRequest(before, who);
      }
    }
  }

  lemma RequestOneStep(s: State, step: Step, who: Waiter)
    requires who in Do(s, step).waits
    ensures var w := Do(s, step).waits[who];
            if who in s.waits then w.ids == s.waits[who].ids && w.any == s.waits[who].any
            else step == Begin(who, w.ids, w.any)
  {
    if IsWaitStep(step) && step.who in s.waits {
      OnlyOneWaitSteps(s, step, s.waits[step.who]);
      RequestStays(s, step, s.waits[step.who]);
    }
  }

  lemma RequestStays(s: State, step: Step, w: Wait)
    requires IsWaitStep(step) && step.who in s.waits && s.waits[step.who] == w
    ensures var r := DoWait(s, step, w);
            step.who in r.waits && r.waits[step.who].ids == w.ids && r.waits[step.who].any == w.any
  {
    if step.Examine? {
      ExamineMoves(s, step, w);
    }
  }

  /** Whatever enters or leaves the supervisor moves the generation. */
  lemma LeavingIsReported(s: State, step: Step)
    ensures Do(s, step).generation >= s.generation
    ensures s.live == Do(s, step).live || Do(s, step).generation > s.generation
  {
  }

  /** An activity that ends owes a wake-up. */
  lemma EndIsReported(s: State, step: Step, id: Id)
    requires id in s.activities && !HasEnded(s.activities[id])
    requires id in Do(s, step).activities && HasEnded(Do(s, step).activities[id])
    ensures id in Do(s, step).owed
  {
  }

  /** A blocked wait that is woken starts over, and reads the generation before it scans again. */
  lemma WokenWaitScansAgain(s: State, who: Waiter)
    requires who in s.waits && s.waits[who].place.Blocked?
    ensures var r := Do(Do(Do(s, Wake(who)), Note(who)), Snapshot(who));
            && r == s.(waits := r.waits) && who in r.waits && r.waits[who].place == Scanning(s.generation)
            && r.waits[who].todo == s.waits[who].ids * s.live && !r.waits[who].got
            && r.waits[who].taken == s.waits[who].taken
  {
    var woken := Do(s, Wake(who));
    assert woken.waits[who] == s.waits[who].(place := Start);
    var noted := Do(woken, Note(who));
    assert noted.waits[who] == s.waits[who].(place := Noted(s.generation), got := false);
  }

  /** A wait is blocked at a generation only while something it waits for was live at that generation. */
  predicate BlockedOverLive(s: State, w: Wait) {
    w.place.Blocked? ==> s.generation > w.place.generation || exists id :: id in w.ids && id in s.live
  }

  lemma BlocksByDecision(s: State, step: Step, who: Waiter)
    requires who in Do(s, step).waits && Do(s, step).waits[who].place.Blocked?
    ensures who in s.waits
    ensures var w := s.waits[who];
            || (w.place.Blocked? && Do(s, step).waits[who] == w)
            || (step == Decide(who, Block) && !(w.ids !! s.live) && Do(s, step).waits[who].ids == w.ids
                && Do(s, step).live == s.live && Do(s, step).generation == s.generation)
  {
    if IsWaitStep(step) && step.who in s.waits {
      OnlyOneWaitSteps(s, step, s.waits[step.who]);
      if step.who == who {
        OwnBlock(s, step, s.waits[who]);
      }
    }
  }

  lemma OwnBlock(s: State, step: Step, w: Wait)
    requires IsWaitStep(step) && step.who in s.waits && s.waits[step.who] == w
    requires step.who in DoWait(s, step, w).waits && DoWait(s, step, w).waits[step.who].place.Blocked?
    ensures (w.place.Blocked? && DoWait(s, step, w).waits[step.who] == w)
            || (step.Decide? && step.choice.Block? && !(w.ids !! s.live) && DoWait(s, step, w).waits[step.who].ids == w.ids
                && DoWait(s, step, w).live == s.live && DoWait(s, step, w).generation == s.generation)
  {
  }

  /** No wait stays blocked once others have taken all it waits for: the generation has moved by then. */
  lemma {:induction false} BlockedWaitIsWoken(steps: seq<Step>, who: Waiter)
    requires who in Run(steps).waits
    ensures BlockedOverLive(Run(steps), Run(steps).waits[who])
  {
    if steps != [] && Run(steps).waits[who].place.Blocked? {
      var before, step := steps[..|steps| - 1], steps[|steps| - 1];
      var s := Run(before);
      BlocksByDecision(s, step, who);
      LeavingIsReported(s, step);
      RunKeepsInv(before);
      assert WakeOk(s, s.waits[who]);
      if s.waits[who].place.Blocked? {
        BlockedWaitIsWoken(before, who);
      }
    }
  }

  // ---------------------------------------------------------------- the exit status

  /** The status an activity ended with at some step, or zero for a leader that was registered as
      nobody's child. */
  predicate ExitsWith(steps: seq<Step>, id: Id, status: int) {
    || LeaderExits(id, status) in steps || IoExits(id, status) in steps
    || (status == 0 && exists n :: 0 <= n < |steps| && steps[n].Register? && steps[n].id == id
                                   && steps[n].activity.Detached? && steps[n].activity.leader.Foreign?)
  }

  lemma ExitOneStep(s: State, step: Step, id: Id)
    requires id in Do(s, step).activities && HasEnded(Do(s, step).activities[id])
    ensures var status := TrueStatus(Do(s, step).activities[id]);
            || (id in s.activities && HasEnded(s.activities[id]) && TrueStatus(s.activities[id]) == status)
            || step == LeaderExits(id, status) || step == IoExits(id, status)
            || (status == 0 && step.Register? && step.id == id && step.activity.Detached? && step.activity.leader.Foreign?)
  {
  }

  /** An activity has ended with the status of a step that ended it. */
  lemma {:induction false} EndedByStep(steps: seq<Step>, id: Id)
    requires id in Run(steps).activities && HasEnded(Run(steps).activities[id])
    ensures ExitsWith(steps, id, TrueStatus(Run(steps).activities[id]))
  {
    if steps != [] {
      var before, step := steps[..|steps| - 1], steps[|steps| - 1];
      var s := Run(before);
      assert steps == before + [step];
      ExitOneStep(s, step, id);
      var status := TrueStatus(Run(steps).activities[id]);
      if id in s.activities && HasEnded(s.activities[id]) && TrueStatus(s.activities[id]) == status {
        EndedByStep(before, id);
        assert forall n | 0 <= n < |before| :: steps[n] == before[n];
      } else {
        assert steps[|before|] == step;
      }
    }
  }

  /** So whatever a wait takes carries the status the process exited with. */
  lemma DeliveredStatusIsExitStatus(steps: seq<Step>, who: Waiter, c: Completion)
    requires who in Run(steps).waits && c in Run(steps).waits[who].taken
    ensures ExitsWith(steps, c.id, c.status)
  {
    RunKeepsInv(steps);
    assert StatusOk(Run(steps), Run(steps).waits[who]);
    EndedByStep(steps, c.id);
  }

  // ---------------------------------------------------------------- wake-ups

  /** The leader is gone, and only its group keeps the activity from being ready. */
  predicate Orphaned(s: State, id: Id) {
    id in s.activities && s.activities[id].Detached? && !s.activities[id].leader.Running? && s.activities[id].group
  }

  /** At step `n` the group of an orphaned activity ended, once the generation had reached this one. */
  ghost predicate OrphanEnds(steps: seq<Step>, id: Id, generation: nat, n: nat) {
    && n < |steps| && steps[n] == GroupEnds(id)
    && Orphaned(Run(steps[..n]), id) && Run(steps[..n]).generation >= generation
  }

  lemma SilentOneMore(s: State, step: Step, id: Id)
    ensures var r := Do(s, step); var ends := step == GroupEnds(id) && Orphaned(s, id);
            && (id in r.silent <==> id in s.silent || ends)
            && (id in r.silent ==> r.silent[id] == if ends then s.generation else s.silent[id])
  {
  }

  lemma OrphanEndsOneMore(steps: seq<Step>, step: Step, id: Id, generation: nat, n: nat)
    ensures OrphanEnds(steps + [step], id, generation, n)
       <==> OrphanEnds(steps, id, generation, n)
            || (n == |steps| && step == GroupEnds(id) && Orphaned(Run(steps), id) && Run(steps).generation >= generation)
  {
    if n <= |steps| {
      assert (steps + [step])[..n] == steps[..n];
      assert n == |steps| ==> steps[..n] == steps;
    }
  }

  /** An activity becomes ready without a report exactly when its group ends after its leader. */
  lemma {:induction false} OnlyOrphansAreSilent(steps: seq<Step>, id: Id)
    ensures id in Run(steps).silent <==> exists n: nat :: OrphanEnds(steps, id, 0, n)
    ensures id in Run(steps).silent ==> exists n: nat :: OrphanEnds(steps, id, Run(steps).silent[id], n)
  {
    if steps != [] {
      var before, step := steps[..|steps| - 1], steps[|steps| - 1];
      var s := Run(before);
      assert steps == before + [step];
      OnlyOrphansAreSilent(before, id);
      SilentOneMore(s, step, id);
      forall g: nat, n: nat {
        OrphanEndsOneMore(before, step, id, g, n);
      }
      if step == GroupEnds(id) && Orphaned(s, id) {
        assert OrphanEnds(steps, id, s.generation, |before|) && OrphanEnds(steps, id, 0, |before|);
      }
    }
  }

  /** No lost wake-up: a wait blocked at a generation while something it waits for is ready will be
      woken, because the generation has moved or the notifier of that change is mid-step, unless a
      group ended after its leader since the wait read that generation. */
  lemma NoLostWakeUp(steps: seq<Step>, who: Waiter, id: Id)
    requires who in Run(steps).waits && Run(steps).waits[who].place.Blocked?
    requires id in Run(steps).waits[who].ids && id in Run(steps).live
    requires id in Run(steps).activities && Ready(Run(steps).activities[id])
    ensures var s := Run(steps); var generation := s.waits[who].place.generation;
            s.generation > generation || id in s.owed || exists n: nat :: OrphanEnds(steps, id, generation, n)
  {
    var s := Run(steps);
    RunKeepsInv(steps);
    OnlyOrphansAreSilent(steps, id);
    assert WakeOk(s, s.waits[who]);
    if id in s.silent && s.silent[id] >= s.waits[who].place.generation {
      var n: nat :| OrphanEnds(steps, id, s.silent[id], n);
      assert OrphanEnds(steps, id, s.waits[who].place.generation, n);
    }
  }

  predicate ReadyDetached(s: State, id: Id) {
    id in s.activities && s.activities[id].Detached? && Ready(s.activities[id])
  }

  /** What ended silently stays ready. */
  lemma {:induction false} SilentAreReady(steps: seq<Step>)
    ensures forall id | id in Run(steps).silent :: ReadyDetached(Run(steps), id)
  {
    if steps != [] {
      var before := steps[..|steps| - 1];
      SilentAreReady(before);
      assert forall id | id in Run(before).silent :: ReadyDetached(Run(before), id);
      StaysReady(Run(before), steps[|steps| - 1]);
    }
  }

  lemma StaysReady(s: State, step: Step)
    requires forall id | id in s.silent :: ReadyDetached(s, id)
    ensures forall id | id in Do(s, step).silent :: ReadyDetached(Do(s, step), id)
  {
  }

  /** A wait stays blocked over a ready activity, and no wake-up is on its way. */
  predicate IsLost(s: State, who: Waiter, id: Id) {
    && who in s.waits && s.waits[who].place == Blocked(s.generation) && s.owed == {}
    && id in s.activities && Ready(s.activities[id])
  }

  /** Which wake-ups are lost: with none on its way, a blocked wait misses one exactly when a group ended
      after its leader since the wait read the generation. */
  lemma WakeUpIsLostWhen(steps: seq<Step>, who: Waiter, id: Id)
    requires var s := Run(steps); who in s.waits && s.waits[who].place == Blocked(s.generation) && s.owed == {}
    requires id in Run(steps).waits[who].ids && id in Run(steps).live
    ensures IsLost(Run(steps), who, id) <==> exists n: nat :: OrphanEnds(steps, id, Run(steps).generation, n)
  {
    var s := Run(steps);
    RunKeepsInv(steps);
    if IsLost(s, who, id) {
      NoLostWakeUp(steps, who, id);
    }
    if n: nat :| OrphanEnds(steps, id, s.generation, n) {
      assert OrphanEnds(steps, id, 0, n);
      OnlyOrphansAreSilent(steps, id);
      SilentAreReady(steps);
    }
  }

  /** The exception is real: when what a detached leader started outlives it, the end of the last of
      it makes the activity ready and wakes nobody. */
  lemma SilentEndWakesNobody(s: State, id: Id)
    requires id in s.live && id !in s.owed && Orphaned(s, id)
    ensures var r := Do(s, GroupEnds(id));
            && !Ready(s.activities[id]) && Ready(r.activities[id]) && id in r.live
            && r.generation == s.generation && r.owed == s.owed && r.waits == s.waits
  {
  }

  /** A leader that ended before what it started. */
  lemma LeaderIsGone() returns (steps: seq<Step>, s: State)
    ensures Run(steps) == s && s.waits == map[] && s.live == {1} && s.owed == {} && s.kept == map[]
    ensures s.activities == map[1 := Detached(Ended(0, false), true)]
  {
    steps, s := [], EMPTY;
    RunMore(steps, Register(1, Detached(Running, true)));
    steps, s := steps + [Register(1, Detached(Running, true))], Do(s, Register(1, Detached(Running, true)));
    RunMore(steps, LeaderExits(1, 0));
    steps, s := steps + [LeaderExits(1, 0)], Do(s, LeaderExits(1, 0));
    RunMore(steps, Notify(1));
    steps, s := steps + [Notify(1)], Do(s, Notify(1));
  }

  /** A wait that has found so. */
  lemma OrphanIsExamined() returns (steps: seq<Step>, s: State)
    ensures Run(steps) == s && 0 in s.waits && s.live == {1} && s.owed == {} && Orphaned(s, 1)
    ensures s.waits[0].place == LeaderEnded(s.generation, 1, 0) && !s.waits[0].any
    ensures s.waits[0].todo == s.waits[0].ids == {1}
  {
    steps, s := LeaderIsGone();
    RunMore(steps, Begin(0, {1}, false));
    steps, s := steps + [Begin(0, {1}, false)], Do(s, Begin(0, {1}, false));
    RunMore(steps, Note(0));
    steps, s := steps + [Note(0)], Do(s, Note(0));
    RunMore(steps, Snapshot(0));
    steps, s := steps + [Snapshot(0)], Do(s, Snapshot(0));
    assert s.waits[0].todo == {1};
    RunMore(steps, Examine(0, 1));
    steps, s := steps + [Examine(0, 1)], Do(s, Examine(0, 1));
  }

  /** And goes on waiting. */
  lemma OrphanIsWaitedFor() returns (steps: seq<Step>, s: State)
    ensures Run(steps) == s && 0 in s.waits && s.live == {1} && s.owed == {} && Orphaned(s, 1)
    ensures s.waits[0].place == Blocked(s.generation) && s.waits[0].ids == {1}
  {
    steps, s := OrphanIsExamined();
    RunMore(steps, CheckGroup(0));
    steps, s := steps + [CheckGroup(0)], Do(s, CheckGroup(0));
    assert s.waits[0].todo == {} && 1 in s.waits[0].ids && 1 in s.live;
    RunMore(steps, Decide(0, Block));
    steps, s := steps + [Decide(0, Block)], Do(s, Decide(0, Block));
  }

  /** It stays blocked while the activity is ready, with no wake-up on its way. */
  lemma WakeUpIsLost() returns (steps: seq<Step>)
    ensures var s := Run(steps);
            IsLost(s, 0, 1) && 1 in s.waits[0].ids && 1 in s.live
  {
    var s;
    steps, s := OrphanIsWaitedFor();
    SilentEndWakesNobody(s, 1);
    RunMore(steps, GroupEnds(1));
    steps := steps + [GroupEnds(1)];
  }
}

/** Token accounting: saturating counters accumulated per route and per turn, and drained. */
module Usage {
  import opened Checked

  datatype Usage = Usage(input: int64, output: int64, cacheRead: int64, cacheWrite: int64,
                         reasoning: int64, webSearches: int64)

  const ZERO := Usage(0, 0, 0, 0, 0, 0)

  predicate Counts(u: Usage) {
    && u.input >= 0 && u.output >= 0 && u.cacheRead >= 0 && u.cacheWrite >= 0
    && u.reasoning >= 0 && u.webSearches >= 0
  }

  function Merge(a: Usage, b: Usage): (r: Usage)
    ensures Counts(r)
  {
    Usage(SaturatingNonnegativeAdd(a.input, b.input),
          SaturatingNonnegativeAdd(a.output, b.output),
          SaturatingNonnegativeAdd(a.cacheRead, b.cacheRead),
          SaturatingNonnegativeAdd(a.cacheWrite, b.cacheWrite),
          SaturatingNonnegativeAdd(a.reasoning, b.reasoning),
          SaturatingNonnegativeAdd(a.webSearches, b.webSearches))
  }

  lemma MergeCommutes(a: Usage, b: Usage)
    ensures Merge(a, b) == Merge(b, a)
  {
  }

  lemma MergeAssociates(a: Usage, b: Usage, c: Usage)
    ensures Merge(Merge(a, b), c) == Merge(a, Merge(b, c))
  {
    SaturatingAddIsMonoid(a.input, b.input, c.input);
    SaturatingAddIsMonoid(a.output, b.output, c.output);
    SaturatingAddIsMonoid(a.cacheRead, b.cacheRead, c.cacheRead);
    SaturatingAddIsMonoid(a.cacheWrite, b.cacheWrite, c.cacheWrite);
    SaturatingAddIsMonoid(a.reasoning, b.reasoning, c.reasoning);
    SaturatingAddIsMonoid(a.webSearches, b.webSearches, c.webSearches);
  }

  lemma ZeroIsNeutral(a: Usage)
    requires Counts(a)
    ensures Merge(ZERO, a) == a && Merge(a, ZERO) == a
  {
  }

  // ---------------------------------------------------------------- what is held

  datatype Accumulated = Accumulated(unassigned: Usage, routes: map<string, Usage>, turns: map<int, Usage>)

  const NOTHING := Accumulated(ZERO, map[], map[])

  function Get<K>(m: map<K, Usage>, k: K): Usage {
    if k in m then m[k] else ZERO
  }

  function Gain<K>(m: map<K, Usage>, k: K, u: Usage): map<K, Usage> {
    m[k := Merge(Get(m, k), u)]
  }

  /** Usage without a route. */
  function Counted(a: Accumulated, u: Usage): Accumulated {
    a.(unassigned := Merge(a.unassigned, u))
  }

  /** Usage of a route, in a turn or, for a turn that is not positive, in none. */
  function Attributed(a: Accumulated, route: string, u: Usage, turn: int): Accumulated {
    var routes := Gain(a.routes, route, u);
    if turn > 0 then a.(routes := routes, turns := Gain(a.turns, turn, u))
    else a.(routes := routes, unassigned := Merge(a.unassigned, u))
  }

  class UsageAccumulator {
    var unassigned: Usage
    var routes: map<string, Usage>
    var turns: map<int, Usage>

    function Held(): Accumulated
      reads this
    {
      Accumulated(unassigned, routes, turns)
    }

    constructor ()
      ensures Held() == NOTHING
    {
      unassigned, routes, turns := ZERO, map[], map[];
    }

    method Count(usage: Usage)
      modifies this
      ensures Held() == Counted(old(Held()), usage)
    {
      unassigned := Merge(unassigned, usage);
    }

    method Add(route: string, usage: Usage, turn: int)
      modifies this
      ensures Held() == Attributed(old(Held()), route, usage, turn)
    {
      if turn > 0 {
        turns := turns[turn := Merge(Get(turns, turn), usage)];
      } else {
        unassigned := Merge(unassigned, usage);
      }
      routes := routes[route := Merge(Get(routes, route), usage)];
    }

    method TakeAll() returns (result: Accumulated)
      modifies this
      ensures result == old(Held()) && Held() == NOTHING
    {
      result := Accumulated(unassigned, routes, turns);
      routes, turns := map[], map[];
      unassigned := ZERO;
    }
  }

  // ---------------------------------------------------------------- every interleaving

  /** One locked step of some thread. */
  datatype Op = Count(usage: Usage) | Attribute(route: string, usage: Usage, turn: int) | Take

  datatype Ledger = Ledger(held: Accumulated, drained: seq<Accumulated>)

  function Apply(l: Ledger, op: Op): Ledger {
    match op
    case Count(u) => l.(held := Counted(l.held, u))
    case Attribute(route, u, turn) => l.(held := Attributed(l.held, route, u, turn))
    case Take => Ledger(NOTHING, l.drained + [l.held])
  }

  /** Any interleaving of the threads' steps, in the order the lock admits them. */
  function Run(ops: seq<Op>): Ledger {
    if ops == [] then Ledger(NOTHING, [])
    else Apply(Run(ops[..|ops| - 1]), ops[|ops| - 1])
  }

  /** What one account of a record is for. */
  datatype Account = Route(route: string) | Turn(turn: int) | Unassigned

  function Balance(a: Accumulated, account: Account): Usage {
    match account
    case Route(route) => Get(a.routes, route)
    case Turn(turn) => Get(a.turns, turn)
    case Unassigned => a.unassigned
  }

  /** Whether a step adds to an account. */
  predicate AddsTo(op: Op, account: Account) {
    match op
    case Count(u) => account == Unassigned
    case Attribute(route, u, turn) => account == Route(route) || account == (if turn > 0 then Turn(turn) else Unassigned)
    case Take => false
  }

  /** All that was ever added to an account. */
  function Added(ops: seq<Op>, account: Account): Usage {
    if ops == [] then ZERO
    else
      var op, before := ops[|ops| - 1], Added(ops[..|ops| - 1], account);
      if AddsTo(op, account) then Merge(before, op.usage) else before
  }

  function Drained(records: seq<Accumulated>, account: Account): Usage {
    if records == [] then ZERO
    else Merge(Drained(records[..|records| - 1], account), Balance(records[|records| - 1], account))
  }

  lemma BalanceStep(l: Ledger, op: Op, account: Account)
    ensures var now := Apply(l, op);
            && (op.Take? ==> Balance(now.held, account) == ZERO)
            && (!op.Take? ==> now.drained == l.drained)
            && (!op.Take? && AddsTo(op, account) ==> Balance(now.held, account) == Merge(Balance(l.held, account), op.usage))
            && (!op.Take? && !AddsTo(op, account) ==> Balance(now.held, account) == Balance(l.held, account))
  {
  }

  /** Nothing is lost or counted twice: for every route, every turn and the unassigned rest,
      everything drained plus everything held is everything added. */
  lemma {:induction false} UsageIsConserved(ops: seq<Op>, account: Account)
    ensures Merge(Drained(Run(ops).drained, account), Balance(Run(ops).held, account)) == Added(ops, account)
    ensures Counts(Drained(Run(ops).drained, account)) && Counts(Balance(Run(ops).held, account))
  {
    if ops != [] {
      var op, l := ops[|ops| - 1], Run(ops[..|ops| - 1]);
      UsageIsConserved(ops[..|ops| - 1], account);
      BalanceStep(l, op, account);
      var drained, held := Drained(l.drained, account), Balance(l.held, account);
      if op.Take? {
        assert (l.drained + [l.held])[..|l.drained|] == l.drained;
        ZeroIsNeutral(Merge(drained, held));
      } else if AddsTo(op, account) {
        MergeAssociates(drained, held, op.usage);
      }
    }
  }

  // ---------------------------------------------------------------- in plain numbers

  datatype Counter = Input | Output | CacheRead | CacheWrite | Reasoning | WebSearches

  /** What a usage reports under one counter, a negative report as nothing. */
  function Amount(u: Usage, counter: Counter): (n: nat) {
    var reported := match counter
      case Input => u.input
      case Output => u.output
      case CacheRead => u.cacheRead
      case CacheWrite => u.cacheWrite
      case Reasoning => u.reasoning
      case WebSearches => u.webSearches;
    if reported < 0 then 0 else reported
  }

  /** The exact sum of all amounts ever added to an account. */
  function AmountAdded(ops: seq<Op>, account: Account, counter: Counter): nat {
    if ops == [] then 0
    else
      var op, before := ops[|ops| - 1], AmountAdded(ops[..|ops| - 1], account, counter);
      if AddsTo(op, account) then before + Amount(op.usage, counter) else before
  }

  /** The exact sum of an account over all drained records. */
  function AmountDrained(records: seq<Accumulated>, account: Account, counter: Counter): nat {
    if records == [] then 0
    else
      AmountDrained(records[..|records| - 1], account, counter)
      + Amount(Balance(records[|records| - 1], account), counter)
  }

  function Capped(n: nat): nat {
    if n <= INT64_MAX then n else INT64_MAX
  }

  lemma MergedAmount(a: Usage, b: Usage, counter: Counter)
    ensures Amount(Merge(a, b), counter) == Capped(Amount(a, counter) + Amount(b, counter))
  {
  }

  lemma AddingUpToCap(drained: nat, held: nat, all: nat, more: nat)
    requires Capped(drained + held) == Capped(all)
    ensures Capped(drained + Capped(held + more)) == Capped(all + more)
  {
  }

  lemma NothingHeldAmount(counter: Counter)
    ensures Amount(ZERO, counter) == 0
  {
  }

  /** One step, in amounts drained and held. */
  lemma AmountStep(l: Ledger, op: Op, account: Account, counter: Counter)
    ensures var now := Apply(l, op); var was, adds := Amount(Balance(l.held, account), counter), AddsTo(op, account);
            && Amount(Balance(now.held, account), counter)
               == (if op.Take? then 0 else if adds then Capped(was + Amount(op.usage, counter)) else was)
            && AmountDrained(now.drained, account, counter)
               == AmountDrained(l.drained, account, counter) + if op.Take? then was else 0
  {
    BalanceStep(l, op, account);
    if op.Take? {
      assert (l.drained + [l.held])[..|l.drained|] == l.drained;
      NothingHeldAmount(counter);
    } else if AddsTo(op, account) {
      MergedAmount(Balance(l.held, account), op.usage, counter);
    }
  }

  /** An account of a ledger in plain numbers: drained and held. */
  function AmountIn(l: Ledger, account: Account, counter: Counter): nat {
    AmountDrained(l.drained, account, counter) + Amount(Balance(l.held, account), counter)
  }

  lemma AmountAfter(l: Ledger, op: Op, account: Account, counter: Counter, all: nat)
    requires Capped(AmountIn(l, account, counter)) == Capped(all)
    ensures Capped(AmountIn(Apply(l, op), account, counter))
            == Capped(if AddsTo(op, account) then all + Amount(op.usage, counter) else all)
  {
    AmountStep(l, op, account, counter);
    if AddsTo(op, account) {
      AddingUpToCap(AmountDrained(l.drained, account, counter), Amount(Balance(l.held, account), counter),
                    all, Amount(op.usage, counter));
    }
  }

  /** For each counter of each account, over any interleaving: what was drained and what is held are,
      added up, the exact sum of the amounts added, up to the largest count. */
  lemma {:induction false} AmountsAreConserved(ops: seq<Op>, account: Account, counter: Counter)
    ensures Capped(AmountIn(Run(ops), account, counter)) == Capped(AmountAdded(ops, account, counter))
  {
    if ops != [] {
      var before, op := ops[..|ops| - 1], ops[|ops| - 1];
      AmountsAreConserved(before, account, counter);
      AmountAfter(Run(before), op, account, counter, AmountAdded(before, account, counter));
    }
  }

  // ---------------------------------------------------------------- one record balances

  ghost function Total<K>(m: map<K, Usage>): (t: Usage)
    ensures Counts(t)
  {
    if m == map[] then ZERO
    else
      var k :| k in m;
      Merge(m[k], Total(m - {k}))
  }

  lemma RemovedInAnyOrder<K>(m: map<K, Usage>, a: K, b: K)
    ensures m - {a} - {b} == m - {b} - {a}
  {
  }

  lemma SwapFirst(a: Usage, b: Usage, rest: Usage)
    ensures Merge(a, Merge(b, rest)) == Merge(b, Merge(a, rest))
  {
    MergeAssociates(a, b, rest);
    MergeAssociates(b, a, rest);
    MergeCommutes(a, b);
  }

  /** The total does not depend on the order of the keys. */
  lemma {:induction false} TotalExtract<K>(m: map<K, Usage>, k: K)
    requires k in m
    ensures Total(m) == Merge(m[k], Total(m - {k}))
    decreases |m|
  {
    var first :| first in m && Total(m) == Merge(m[first], Total(m - {first}));
    if first != k {
      TotalExtract(m - {first}, k);
      TotalExtract(m - {k}, first);
      RemovedInAnyOrder(m, first, k);
      SwapFirst(m[first], m[k], Total(m - {first} - {k}));
    }
  }

  lemma TotalGain<K>(m: map<K, Usage>, k: K, u: Usage)
    ensures Total(Gain(m, k, u)) == Merge(Total(m), u)
  {
    var gained := Gain(m, k, u);
    TotalExtract(gained, k);
    assert gained - {k} == m - {k};
    var rest := Total(m - {k});
    MergeAssociates(Get(m, k), u, rest);
    MergeCommutes(u, rest);
    MergeAssociates(Get(m, k), rest, u);
    if k in m {
      TotalExtract(m, k);
    } else {
      assert m - {k} == m;
      ZeroIsNeutral(rest);
    }
  }

  /** Turns and the unassigned rest sum to the routes and what had no route. */
  ghost predicate Balanced(a: Accumulated, unrouted: Usage) {
    Merge(Total(a.turns), a.unassigned) == Merge(Total(a.routes), unrouted)
  }

  /** Usage without a route since the last drain. */
  function Unrouted(ops: seq<Op>): Usage {
    if ops == [] || ops[|ops| - 1] == Take then ZERO
    else
      var op, before := ops[|ops| - 1], Unrouted(ops[..|ops| - 1]);
      if op.Count? then Merge(before, op.usage) else before
  }

  lemma CountedBalances(a: Accumulated, unrouted: Usage, u: Usage)
    requires Balanced(a, unrouted)
    ensures Balanced(Counted(a, u), Merge(unrouted, u))
  {
    MergeAssociates(Total(a.turns), a.unassigned, u);
    MergeAssociates(Total(a.routes), unrouted, u);
  }

  lemma AttributedBalances(a: Accumulated, unrouted: Usage, route: string, u: Usage, turn: int)
    requires Balanced(a, unrouted)
    ensures Balanced(Attributed(a, route, u, turn), unrouted)
  {
    TotalGain(a.routes, route, u);
    var turns, routes := Total(a.turns), Total(a.routes);
    MergeAssociates(routes, unrouted, u);
    MergeCommutes(unrouted, u);
    MergeAssociates(routes, u, unrouted);
    if turn > 0 {
      TotalGain(a.turns, turn, u);
      MergeAssociates(turns, a.unassigned, u);
      MergeCommutes(a.unassigned, u);
      MergeAssociates(turns, u, a.unassigned);
    } else {
      MergeAssociates(turns, a.unassigned, u);
    }
  }

  /** At every moment, so in every drained record, the two ways of splitting the usage agree. */
  lemma {:induction false} RecordsBalance(ops: seq<Op>)
    ensures Balanced(Run(ops).held, Unrouted(ops))
    ensures ops != [] && ops[|ops| - 1] == Take ==>
              var drained := Run(ops).drained;
              drained != [] && Balanced(drained[|drained| - 1], Unrouted(ops[..|ops| - 1]))
  {
    if ops != [] {
      var before := ops[..|ops| - 1];
      RecordsBalance(before);
      match ops[|ops| - 1]
      case Count(u) => CountedBalances(Run(before).held, Unrouted(before), u);
      case Attribute(route, u, turn) => AttributedBalances(Run(before).held, Unrouted(before), route, u, turn);
      case Take =>
    }
  }
}

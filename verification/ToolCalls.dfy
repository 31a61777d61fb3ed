/** Turning streamed tool calls into calls that can be answered: repaired, named and identified. */
module ToolCalls {
  import Decimal

  datatype ToolCall = ToolCall(id: string, name: string, args: string, malformed: string)

  /** A streamed call under its stream index. */
  datatype Entry = Entry(index: int, call: ToolCall)

  datatype Fate = Kept(call: ToolCall) | Nameless | Truncated

  predicate Blank(args: string) {
    forall k | 0 <= k < |args| :: args[k] in " \t\r\n"
  }

  /** What a kept call keeps of a streamed one: everything when its arguments are an object; no arguments
      are an empty object; and other arguments are set aside as malformed. */
  predicate Repairs(streamed: ToolCall, kept: ToolCall, isObject: string -> bool) {
    && kept.name == streamed.name
    && (Blank(streamed.args) ==> kept.args == "{}" && kept.malformed == streamed.malformed)
    && (!Blank(streamed.args) && isObject(streamed.args) ==>
          kept.args == streamed.args && kept.malformed == streamed.malformed)
    && (!Blank(streamed.args) && !isObject(streamed.args) ==> kept.args == "{}" && kept.malformed == streamed.args)
  }

  /** A call keeps its own id unless it has none or an earlier one has it, and then gets one made from its
      own, or from its stream index, that no earlier call has. */
  ghost predicate Renames(entry: Entry, earlier: set<string>, id: string) {
    && id !in earlier && id != ""
    && (entry.call.id != "" && entry.call.id !in earlier ==> id == entry.call.id)
    && (entry.call.id != "" && entry.call.id in earlier ==> exists n: nat :: n >= 2 && id == entry.call.id + "-" + Decimal.Text(n))
    && (entry.call.id == "" ==> "uagent-call-" + Decimal.SignedText(entry.index) <= id)
  }

  /** Returned call `k` is the repaired streamed call at `from[k]`. */
  ghost predicate ComesFrom(streamed: seq<Entry>, from: seq<nat>, calls: seq<ToolCall>, isObject: string -> bool) {
    && |from| == |calls|
    && (forall k | 0 <= k < |from| :: from[k] < |streamed| && Repairs(streamed[from[k]].call, calls[k], isObject)
                                      && Renames(streamed[from[k]], Ids(calls[..k]), calls[k].id))
    && forall j, k | 0 <= j < k < |from| :: from[j] < from[k]
  }

  /** A call that has no name, or the partial last one of a response cut short. */
  predicate MayDrop(streamed: seq<Entry>, i: nat, cutShort: bool, isObject: string -> bool)
    requires i < |streamed|
  {
    var call, last := streamed[i].call, cutShort && i == |streamed| - 1;
    if last then call.name == "" || (!Blank(call.args) && !isObject(call.args)) else call.name == ""
  }

  /** What is not returned may be dropped. */
  predicate Dropped(streamed: seq<Entry>, from: seq<nat>, n: nat, cutShort: bool, isObject: string -> bool)
    requires n <= |streamed|
  {
    forall i | 0 <= i < n && i !in from :: MayDrop(streamed, i, cutShort, isObject)
  }

  lemma AddDropped(streamed: seq<Entry>, from: seq<nat>, i: nat, cutShort: bool, isObject: string -> bool)
    requires i < |streamed| && Dropped(streamed, from, i, cutShort, isObject)
    ensures Dropped(streamed, from + [i], i + 1, cutShort, isObject)
    ensures MayDrop(streamed, i, cutShort, isObject) ==> Dropped(streamed, from, i + 1, cutShort, isObject)
  {
    assert forall k | k in from :: k in from + [i];
    assert (from + [i])[|from|] == i;
  }

  lemma RenamesWhenFree(entry: Entry, earlier: set<string>, id: string)
    requires FirstFree(earlier, Base(entry), id)
    ensures Renames(entry, earlier, id)
  {
  }

  /** What becomes of a call. Only the last one of a response cut short is dropped for being partial. */
  function Judge(call: ToolCall, last: bool, cutShort: bool, isObject: string -> bool): (fate: Fate)
    requires isObject("{}")
    ensures fate.Kept? ==> isObject(fate.call.args) && call.name != "" && fate.call.id == call.id
                           && Repairs(call, fate.call, isObject)
    ensures fate.Truncated? <==>
              last && cutShort && (call.name == "" || (!isObject(call.args) && !Blank(call.args)))
    ensures fate.Nameless? <==> call.name == "" && !(last && cutShort)
  {
    var args := if Blank(call.args) then "{}" else call.args;
    if call.name == "" || !isObject(args) then
      if last && cutShort then Truncated
      else if call.name == "" then Nameless
      else Kept(call.(malformed := args, args := "{}"))
    else Kept(call.(args := args))
  }

  /** The calls of the first `n` entries that are kept, repaired, still under their streamed ids. */
  function Survivors(streamed: seq<Entry>, n: nat, cutShort: bool, isObject: string -> bool): (kept: seq<Entry>)
    requires n <= |streamed| && isObject("{}")
  {
    if n == 0 then []
    else
      var rest := Survivors(streamed, n - 1, cutShort, isObject);
      match Judge(streamed[n - 1].call, n == |streamed|, cutShort, isObject)
      case Kept(call) => rest + [Entry(streamed[n - 1].index, call)]
      case Nameless => rest
      case Truncated => rest
  }

  /** How many of the first `n` entries are dropped for having no name. */
  function Unnamed(streamed: seq<Entry>, n: nat, cutShort: bool, isObject: string -> bool): nat
    requires n <= |streamed| && isObject("{}")
  {
    if n == 0 then 0
    else
      Unnamed(streamed, n - 1, cutShort, isObject)
      + if Judge(streamed[n - 1].call, n == |streamed|, cutShort, isObject).Nameless? then 1 else 0
  }

  /** The id a call starts from: its own, or one made from its index. */
  function Base(entry: Entry): (base: string)
    ensures base != ""
  {
    if entry.call.id == "" then "uagent-call-" + Decimal.SignedText(entry.index) else entry.call.id
  }

  function Suffixed(base: string, n: nat): string {
    base + "-" + Decimal.Text(n)
  }

  lemma SuffixesDiffer(base: string, m: nat, n: nat)
    requires Suffixed(base, m) == Suffixed(base, n)
    ensures m == n
  {
    assert Suffixed(base, m)[|base| + 1..] == Decimal.Text(m);
    assert Suffixed(base, n)[|base| + 1..] == Decimal.Text(n);
    Decimal.TextIsInjective(m, n);
  }

  /** `id` is `base` when that is free, and otherwise its first free numbered form. */
  ghost predicate FirstFree(taken: set<string>, base: string, id: string) {
    && id !in taken
    && (id != base ==> base in taken && exists n :: IsFirstSuffix(taken, base, id, n))
  }

  ghost predicate IsFirstSuffix(taken: set<string>, base: string, id: string, n: nat) {
    n >= 2 && id == Suffixed(base, n) && forall m | 2 <= m < n :: Suffixed(base, m) in taken
  }

  /** The search ends: each try uses up one of finitely many ids. */
  method FreshId(base: string, taken: set<string>) returns (id: string)
    ensures FirstFree(taken, base, id)
  {
    id := base;
    var suffix: nat := 2;
    ghost var tried: set<string> := {};
    while id in taken
      invariant suffix >= 2 && tried <= taken
      invariant forall m | 2 <= m < suffix - 1 :: Suffixed(base, m) in tried
      invariant suffix == 2 ==> id == base && tried == {}
      invariant suffix > 2 ==> base in tried && id == Suffixed(base, suffix - 1) && id !in tried
      invariant forall t | t in tried :: t == base || exists m: nat :: m < suffix - 1 && t == Suffixed(base, m)
      decreases taken - tried
    {
      tried := tried + {id};
      forall m: nat | m < suffix && Suffixed(base, m) == Suffixed(base, suffix)
        ensures false
      {
        SuffixesDiffer(base, m, suffix);
      }
      id := Suffixed(base, suffix);
      suffix := suffix + 1;
    }
    if id != base {
      assert IsFirstSuffix(taken, base, id, suffix - 1);
    }
  }

  function Ids(calls: seq<ToolCall>): set<string> {
    set k | 0 <= k < |calls| :: calls[k].id
  }

  predicate DistinctIds(calls: seq<ToolCall>) {
    forall j, k | 0 <= j < k < |calls| :: calls[j].id != calls[k].id
  }

  /** Call `k` is the kept entry under the first free form of its id. */
  ghost predicate Identified(calls: seq<ToolCall>, k: nat, entry: Entry)
    requires k < |calls|
  {
    && calls[k] == entry.call.(id := calls[k].id)
    && FirstFree(Ids(calls[..k]), Base(entry), calls[k].id)
  }

  ghost predicate AllIdentified(calls: seq<ToolCall>, kept: seq<Entry>) {
    |calls| == |kept| && forall k | 0 <= k < |calls| :: Identified(calls, k, kept[k])
  }

  lemma AddIdentified(calls: seq<ToolCall>, kept: seq<Entry>, entry: Entry, id: string)
    requires AllIdentified(calls, kept) && DistinctIds(calls)
    requires FirstFree(Ids(calls), Base(entry), id)
    ensures var more := calls + [entry.call.(id := id)];
            && AllIdentified(more, kept + [entry]) && DistinctIds(more)
            && Ids(more) == Ids(calls) + {id}
  {
    var more := calls + [entry.call.(id := id)];
    assert more[..|calls|] == calls;
    forall k | 0 <= k < |calls|
      ensures Identified(more, k, kept[k])
    {
      assert Identified(calls, k, kept[k]);
      assert more[..k] == calls[..k];
    }
    forall k | 0 <= k < |calls|
      ensures calls[k].id in Ids(calls) && more[k].id in Ids(more)
    {
      assert more[k] == calls[k];
    }
    assert more[|calls|].id in Ids(more);
  }

  predicate Below(from: seq<nat>, n: nat) {
    forall k | 0 <= k < |from| :: from[k] < n
  }

  lemma AddSource(streamed: seq<Entry>, from: seq<nat>, calls: seq<ToolCall>, isObject: string -> bool,
                  i: nat, call: ToolCall)
    requires ComesFrom(streamed, from, calls, isObject) && i < |streamed| && Below(from, i)
    requires Repairs(streamed[i].call, call, isObject) && Renames(streamed[i], Ids(calls), call.id)
    ensures ComesFrom(streamed, from + [i], calls + [call], isObject) && Below(from + [i], i + 1)
  {
    var longer := calls + [call];
    assert longer[..|calls|] == calls;
    assert forall k | 0 <= k < |calls| :: longer[..k] == calls[..k] && longer[k] == calls[k];
  }

  /** Returned calls are named and identified, with arguments that are objects. */
  predicate Answerable(calls: seq<ToolCall>, isObject: string -> bool) {
    DistinctIds(calls) && forall k | 0 <= k < |calls| :: calls[k].id != "" && calls[k].name != "" && isObject(calls[k].args)
  }

  /** What is collected of the first `n` entries. */
  ghost predicate Collects(streamed: seq<Entry>, n: nat, cutShort: bool, isObject: string -> bool,
                           calls: seq<ToolCall>, ids: set<string>, from: seq<nat>)
    requires isObject("{}")
  {
    && n <= |streamed| && ids == Ids(calls) && Answerable(calls, isObject)
    && AllIdentified(calls, Survivors(streamed, n, cutShort, isObject))
    && ComesFrom(streamed, from, calls, isObject) && Below(from, n) && Dropped(streamed, from, n, cutShort, isObject)
  }

  lemma CollectsLess(streamed: seq<Entry>, i: nat, cutShort: bool, isObject: string -> bool,
                     calls: seq<ToolCall>, ids: set<string>, from: seq<nat>)
    requires isObject("{}") && i < |streamed| && Collects(streamed, i, cutShort, isObject, calls, ids, from)
    requires !Judge(streamed[i].call, i + 1 == |streamed|, cutShort, isObject).Kept?
    ensures Collects(streamed, i + 1, cutShort, isObject, calls, ids, from)
  {
    AddDropped(streamed, from, i, cutShort, isObject);
  }

  /** Adds a kept call under the first free form of its id. */
  method Identify(streamed: seq<Entry>, i: nat, cutShort: bool, isObject: string -> bool, call: ToolCall,
                  calls: seq<ToolCall>, ids: set<string>, ghost from: seq<nat>)
    returns (more: seq<ToolCall>, taken: set<string>)
    requires isObject("{}") && i < |streamed| && Collects(streamed, i, cutShort, isObject, calls, ids, from)
    requires Judge(streamed[i].call, i + 1 == |streamed|, cutShort, isObject) == Kept(call)
    ensures |more| == |calls| + 1 && Collects(streamed, i + 1, cutShort, isObject, more, taken, from + [i])
  {
    var entry := Entry(streamed[i].index, call);
    var id := FreshId(Base(entry), ids);
    ghost var kept := Survivors(streamed, i, cutShort, isObject);
    AddIdentified(calls, kept, entry, id);
    RenamesWhenFree(entry, ids, id);
    AddSource(streamed, from, calls, isObject, i, call.(id := id));
    AddDropped(streamed, from, i, cutShort, isObject);
    MoreIds(calls, call.(id := id));
    more := calls + [call.(id := id)];
    taken := ids + {id};
    assert Survivors(streamed, i + 1, cutShort, isObject) == kept + [entry];
  }

  lemma MoreIds(calls: seq<ToolCall>, call: ToolCall)
    ensures Ids(calls + [call]) == Ids(calls) + {call.id}
  {
    var more := calls + [call];
    assert more[|calls|] == call && forall k | 0 <= k < |calls| :: more[k] == calls[k];
  }

  /** Every streamed call is returned, in stream order, or counted as nameless, or was the one
      partial call at the end. Returned ids are non-empty and pairwise distinct, and arguments
      are JSON objects. */
  method CollectToolCalls(streamed: seq<Entry>, cutShort: bool, isObject: string -> bool)
    returns (calls: seq<ToolCall>, nameless: nat, truncated: nat, ghost from: seq<nat>)
    requires isObject("{}")
    ensures AllIdentified(calls, Survivors(streamed, |streamed|, cutShort, isObject))
    ensures DistinctIds(calls)
    ensures forall k | 0 <= k < |calls| :: calls[k].id != "" && calls[k].name != "" && isObject(calls[k].args)
    ensures ComesFrom(streamed, from, calls, isObject) && Dropped(streamed, from, |streamed|, cutShort, isObject)
    ensures |streamed| == |calls| + nameless + truncated
    ensures nameless == Unnamed(streamed, |streamed|, cutShort, isObject)
    ensures truncated <= 1
    ensures truncated == 1 <==>
              streamed != [] && Judge(streamed[|streamed| - 1].call, true, cutShort, isObject).Truncated?
  {
    calls, nameless, truncated, from := [], 0, 0, [];
    var ids: set<string> := {};
    for i := 0 to |streamed|
      invariant Collects(streamed, i, cutShort, isObject, calls, ids, from)
      invariant i == |calls| + nameless + truncated
      invariant nameless == Unnamed(streamed, i, cutShort, isObject)
      invariant truncated == if i == |streamed| && i > 0 && cutShort &&
                                Judge(streamed[i - 1].call, true, cutShort, isObject).Truncated? then 1 else 0
    {
      match Judge(streamed[i].call, i + 1 == |streamed|, cutShort, isObject)
      case Truncated =>
        CollectsLess(streamed, i, cutShort, isObject, calls, ids, from);
        truncated := truncated + 1;
      case Nameless =>
        CollectsLess(streamed, i, cutShort, isObject, calls, ids, from);
        nameless := nameless + 1;
      case Kept(call) =>
        calls, ids := Identify(streamed, i, cutShort, isObject, call, calls, ids, from);
        from := from + [i];
    }
  }
}

/** The require hook: exclusive compile times from a stack of child-time accumulators. */
module RequireTimes {
  import opened Sums

  datatype Entry = Entry(ms: real, count: nat)

  /** The group a file is counted under. */
  type GroupKey = string -> string

  /** A compile call begins, or ends normally or by an exception, at a reading of the clock. */
  datatype Event = Begin(now: real) | Finish(filename: string, now: real)

  /** The hook's state; `starts` are the local start times of the calls in progress, `completed` is for reference. */
  datatype Machine = Machine(stack: seq<real>, starts: seq<real>, byGroup: map<string, Entry>, total: nat,
                             completed: real)

  const EMPTY := Machine([], [], map[], 0, 0.0)

  predicate WellFormed(m: Machine) {
    |m.stack| == |m.starts|
  }

  function EntryOf(byGroup: map<string, Entry>, key: string): Entry {
    if key in byGroup then byGroup[key] else Entry(0.0, 0)
  }

  function Record(byGroup: map<string, Entry>, key: string, selfTime: real): map<string, Entry> {
    var entry := EntryOf(byGroup, key);
    byGroup[key := Entry(entry.ms + selfTime, entry.count + 1)]
  }

  function Last(s: seq<real>): real
    requires s != []
  {
    s[|s| - 1]
  }

  function Front(s: seq<real>): seq<real>
    requires s != []
  {
    s[..|s| - 1]
  }

  /** The accumulator of the enclosing call, if there is one, takes the elapsed time. */
  function Credit(stack: seq<real>, elapsed: real): seq<real> {
    if stack == [] then [] else Front(stack) + [Last(stack) + elapsed]
  }

  predicate Enabled(m: Machine, e: Event) {
    WellFormed(m) && (e.Finish? ==> m.stack != [])
  }

  function Step(key: GroupKey, m: Machine, e: Event): (r: Machine)
    requires Enabled(m, e)
    ensures WellFormed(r)
  {
    match e
    case Begin(now) => m.(stack := m.stack + [0.0], starts := m.starts + [now])
    case Finish(filename, now) =>
      var elapsed := now - Last(m.starts);
      var rest := Front(m.stack);
      Machine(Credit(rest, elapsed), Front(m.starts),
              Record(m.byGroup, key(filename), elapsed - Last(m.stack)), m.total + 1,
              m.completed + (if rest == [] then elapsed else 0.0))
  }

  /** Properly nested: no call ends that has not begun. Calls may still be in progress. */
  predicate Nested(key: GroupKey, m: Machine, events: seq<Event>)
    decreases |events|
  {
    WellFormed(m) && (events != [] ==> Enabled(m, events[0]) && Nested(key, Step(key, m, events[0]), events[1..]))
  }

  function Run(key: GroupKey, m: Machine, events: seq<Event>): (r: Machine)
    requires Nested(key, m, events)
    ensures WellFormed(r)
    decreases |events|
  {
    if events == [] then m else Run(key, Step(key, m, events[0]), events[1..])
  }

  lemma {:induction false} RunAppend(key: GroupKey, m: Machine, a: seq<Event>, b: seq<Event>)
    requires Nested(key, m, a) && Nested(key, Run(key, m, a), b)
    ensures Nested(key, m, a + b) && Run(key, m, a + b) == Run(key, Run(key, m, a), b)
    decreases |a|
  {
    if a == [] {
      assert a + b == b;
    } else {
      assert (a + b)[0] == a[0] && (a + b)[1..] == a[1..] + b;
      RunAppend(key, Step(key, m, a[0]), a[1..], b);
    }
  }

  // ---------- the sum invariant ----------

  ghost function TotalMs(byGroup: map<string, Entry>): real {
    SumOver(byGroup.Keys, k => EntryOf(byGroup, k).ms)
  }

  ghost function TotalCount(byGroup: map<string, Entry>): real {
    SumOver(byGroup.Keys, k => EntryOf(byGroup, k).count as real)
  }

  function SumStack(s: seq<real>): real {
    if s == [] then 0.0 else SumStack(Front(s)) + Last(s)
  }

  lemma RecordAdds(byGroup: map<string, Entry>, key: string, selfTime: real)
    ensures TotalMs(Record(byGroup, key, selfTime)) == TotalMs(byGroup) + selfTime
    ensures TotalCount(Record(byGroup, key, selfTime)) == TotalCount(byGroup) + 1.0
  {
    var after := Record(byGroup, key, selfTime);
    var msBefore: string -> real := k => EntryOf(byGroup, k).ms;
    var msAfter: string -> real := k => EntryOf(after, k).ms;
    var countBefore: string -> real := k => EntryOf(byGroup, k).count as real;
    var countAfter: string -> real := k => EntryOf(after, k).count as real;
    OneTermChanges(byGroup.Keys, key, msBefore, msAfter, selfTime);
    OneTermChanges(byGroup.Keys, key, countBefore, countAfter, 1.0);
    assert after.Keys == byGroup.Keys + {key};
  }

  lemma OneTermChanges(keys: set<string>, key: string, f: string -> real, g: string -> real, d: real)
    requires key !in keys ==> f(key) == 0.0
    requires g(key) == f(key) + d && forall k | k != key :: g(k) == f(k)
    ensures SumOver(keys + {key}, g) == SumOver(keys, f) + d
  {
    var others := keys - {key};
    SumRemove(keys + {key}, g, key);
    assert keys + {key} - {key} == others;
    SumSame(others, f, g);
    if key in keys {
      SumRemove(keys, f, key);
    } else {
      assert others == keys;
    }
  }

  lemma SumCredit(stack: seq<real>, elapsed: real)
    ensures SumStack(Credit(stack, elapsed)) == SumStack(stack) + (if stack == [] then 0.0 else elapsed)
  {
    if stack != [] {
      var credited := Credit(stack, elapsed);
      assert Front(credited) == Front(stack);
    }
  }

  predicate Balanced(m: Machine, recorded: real, counted: real) {
    recorded == m.completed + SumStack(m.stack) && counted == m.total as real
  }

  lemma StepBalances(key: GroupKey, m: Machine, e: Event)
    requires Enabled(m, e) && Balanced(m, TotalMs(m.byGroup), TotalCount(m.byGroup))
    ensures var r := Step(key, m, e); Balanced(r, TotalMs(r.byGroup), TotalCount(r.byGroup))
  {
    hide TotalMs, TotalCount, Record, Credit;
    match e
    case Begin(now) =>
      assert Front(m.stack + [0.0]) == m.stack;
    case Finish(filename, now) =>
      var elapsed := now - Last(m.starts);
      RecordAdds(m.byGroup, key(filename), elapsed - Last(m.stack));
      SumCredit(Front(m.stack), elapsed);
  }

  /**
   * At every point of every properly nested trace the recorded self times add up to the elapsed time of the
   * completed top-level calls plus the accumulators still on the stack, and the counts to the number of modules.
   */
  lemma {:induction false} SelfTimesTelescope(key: GroupKey, m: Machine, events: seq<Event>)
    requires Nested(key, m, events) && Balanced(m, TotalMs(m.byGroup), TotalCount(m.byGroup))
    ensures var r := Run(key, m, events); Balanced(r, TotalMs(r.byGroup), TotalCount(r.byGroup))
    decreases |events|
  {
    if events != [] {
      StepBalances(key, m, events[0]);
      SelfTimesTelescope(key, Step(key, m, events[0]), events[1..]);
    }
  }

  lemma FreshHookIsBalanced()
    ensures WellFormed(EMPTY) && Balanced(EMPTY, TotalMs(EMPTY.byGroup), TotalCount(EMPTY.byGroup))
  {
  }

  /** So it is from a fresh hook on; once no call is in progress, self times add up to the top-level elapsed time. */
  lemma FreshHookTelescopes(key: GroupKey, events: seq<Event>)
    requires Nested(key, EMPTY, events)
    ensures var r := Run(key, EMPTY, events);
      && TotalMs(r.byGroup) == r.completed + SumStack(r.stack)
      && TotalCount(r.byGroup) == r.total as real
      && (r.stack == [] ==> TotalMs(r.byGroup) == r.completed)
  {
    FreshHookIsBalanced();
    SelfTimesTelescope(key, EMPTY, events);
  }

  // ---------- no negative self time ----------

  /** Each accumulator is at most the time between its call's start and the next inner start, or the present. */
  predicate ChildTimeFits(m: Machine, now: real) {
    && WellFormed(m)
    && (forall k | 0 <= k < |m.stack| :: m.stack[k] <= Room(m.starts, now, k))
  }

  /** The time from the start of call `k` to the start of the call inside it, or to the present. */
  function Room(starts: seq<real>, now: real, k: nat): real
    requires k < |starts|
  {
    (if k + 1 < |starts| then starts[k + 1] else now) - starts[k]
  }

  function TimeOf(e: Event): real {
    e.now
  }

  /** The clock does not run backwards. */
  predicate MonotoneClock(now: real, events: seq<Event>)
    decreases |events|
  {
    events != [] ==> now <= TimeOf(events[0]) && MonotoneClock(TimeOf(events[0]), events[1..])
  }

  lemma StepFits(key: GroupKey, m: Machine, e: Event, now: real)
    requires Enabled(m, e) && ChildTimeFits(m, now) && now <= TimeOf(e)
    ensures ChildTimeFits(Step(key, m, e), TimeOf(e))
    ensures e.Finish? ==> TimeOf(e) - Last(m.starts) - Last(m.stack) >= 0.0
  {
    var r := Step(key, m, e);
    var n := |m.stack|;
    forall k | 0 <= k < |r.stack|
      ensures r.stack[k] <= Room(r.starts, TimeOf(e), k)
    {
      if k < n {
        assert m.stack[k] <= Room(m.starts, now, k);
      }
    }
    assert n > 0 ==> m.stack[n - 1] <= Room(m.starts, now, n - 1);
  }

  predicate NoNegativeEntries(byGroup: map<string, Entry>) {
    forall k | k in byGroup :: byGroup[k].ms >= 0.0
  }

  /** The self time a finishing call is given. */
  function SelfTime(m: Machine, e: Event): real
    requires e.Finish? && Enabled(m, e)
  {
    TimeOf(e) - Last(m.starts) - Last(m.stack)
  }

  /** The self times a trace records, in the order in which the calls finish. */
  function SelfTimes(key: GroupKey, m: Machine, events: seq<Event>): seq<real>
    requires Nested(key, m, events)
    decreases |events|
  {
    if events == [] then []
    else
      (if events[0].Finish? then [SelfTime(m, events[0])] else [])
      + SelfTimes(key, Step(key, m, events[0]), events[1..])
  }

  function SumOf(times: seq<real>): real {
    if times == [] then 0.0 else times[0] + SumOf(times[1..])
  }

  /** There is one for each module counted, and the groups share out exactly these. */
  lemma {:induction false} SelfTimesAreRecorded(key: GroupKey, m: Machine, events: seq<Event>)
    requires Nested(key, m, events)
    ensures var r, times := Run(key, m, events), SelfTimes(key, m, events);
      && r.total == m.total + |times|
      && TotalMs(r.byGroup) == TotalMs(m.byGroup) + SumOf(times)
    decreases |events|
  {
    hide TotalMs, Record;
    if events != [] {
      var next := Step(key, m, events[0]);
      SelfTimesAreRecorded(key, next, events[1..]);
      var rest := SelfTimes(key, next, events[1..]);
      if events[0].Finish? {
        var self := SelfTime(m, events[0]);
        RecordAdds(m.byGroup, key(events[0].filename), self);
        assert ([self] + rest)[1..] == rest;
      } else {
        assert [] + rest == rest;
      }
    }
  }

  /** With a monotone clock no call is ever given negative time, so no group is. */
  lemma {:induction false} SelfTimesAreNonNegative(key: GroupKey, m: Machine, events: seq<Event>, now: real)
    requires Nested(key, m, events) && MonotoneClock(now, events)
    requires ChildTimeFits(m, now)
    ensures forall k | 0 <= k < |SelfTimes(key, m, events)| :: SelfTimes(key, m, events)[k] >= 0.0
    ensures NoNegativeEntries(m.byGroup) ==> NoNegativeEntries(Run(key, m, events).byGroup)
    decreases |events|
  {
    if events != [] {
      StepFits(key, m, events[0], now);
      SelfTimesAreNonNegative(key, Step(key, m, events[0]), events[1..], TimeOf(events[0]));
    }
  }

  // ---------- exclusive time of a call tree ----------

  /** A compile call: the clock at its start and end, and the calls made in between, whether or not it threw. */
  datatype Call = Call(filename: string, start: real, children: seq<Call>, end: real)

  function Elapsed(c: Call): real {
    c.end - c.start
  }

  function ElapsedAll(calls: seq<Call>): real {
    if calls == [] then 0.0 else Elapsed(calls[0]) + ElapsedAll(calls[1..])
  }

  /** A call's own time: what its direct children did not take. */
  function Exclusive(c: Call): real {
    Elapsed(c) - ElapsedAll(c.children)
  }

  /** The exclusive time, and the number of calls, that a group has in a tree. */
  function GroupTime(key: GroupKey, c: Call, g: string): Entry {
    var below := GroupTimes(key, c.children, g);
    if key(c.filename) == g then Entry(Exclusive(c) + below.ms, 1 + below.count) else below
  }

  function GroupTimes(key: GroupKey, calls: seq<Call>, g: string): Entry {
    if calls == [] then Entry(0.0, 0)
    else
      var first, rest := GroupTime(key, calls[0], g), GroupTimes(key, calls[1..], g);
      Entry(first.ms + rest.ms, first.count + rest.count)
  }

  function Size(c: Call): nat {
    1 + Sizes(c.children)
  }

  function Sizes(calls: seq<Call>): nat {
    if calls == [] then 0 else Size(calls[0]) + Sizes(calls[1..])
  }

  function Events(c: Call): seq<Event> {
    [Begin(c.start)] + EventsAll(c.children) + [Finish(c.filename, c.end)]
  }

  function EventsAll(calls: seq<Call>): seq<Event> {
    if calls == [] then [] else Events(calls[0]) + EventsAll(calls[1..])
  }

  /** The state after a call, or several in a row, from any state. */
  predicate Effect(m: Machine, r: Machine, elapsed: real, size: nat) {
    && WellFormed(m) && WellFormed(r)
    && r.starts == m.starts
    && r.stack == Credit(m.stack, elapsed)
    && r.completed == m.completed + (if m.stack == [] then elapsed else 0.0)
    && r.total == m.total + size
  }

  predicate GroupEffect(m: Machine, r: Machine, g: string, e: Entry) {
    && EntryOf(r.byGroup, g).ms == EntryOf(m.byGroup, g).ms + e.ms
    && EntryOf(r.byGroup, g).count == EntryOf(m.byGroup, g).count + e.count
  }

  /** The end of a call whose children have had their effect. */
  lemma FinishEffect(key: GroupKey, m: Machine, c: Call, inner: Machine)
    requires WellFormed(m)
    requires Effect(Step(key, m, Begin(c.start)), inner, ElapsedAll(c.children), Sizes(c.children))
    requires forall g :: GroupEffect(Step(key, m, Begin(c.start)), inner, g, GroupTimes(key, c.children, g))
    ensures Enabled(inner, Finish(c.filename, c.end))
    ensures Effect(m, Step(key, inner, Finish(c.filename, c.end)), Elapsed(c), Size(c))
    ensures forall g :: GroupEffect(m, Step(key, inner, Finish(c.filename, c.end)), g, GroupTime(key, c, g))
  {
    hide GroupTimes, ElapsedAll, Sizes;
    var begun := Step(key, m, Begin(c.start));
    assert Front(begun.stack) == m.stack;
    assert inner.stack == m.stack + [ElapsedAll(c.children)];
    assert Front(inner.stack) == m.stack && Front(inner.starts) == m.starts;
    forall g
      ensures GroupEffect(m, Step(key, inner, Finish(c.filename, c.end)), g, GroupTime(key, c, g))
    {
      assert GroupEffect(begun, inner, g, GroupTimes(key, c.children, g));
    }
  }

  /** Running a call leaves the stack as it was but for the elapsed time, and gives each group its exclusive time. */
  lemma {:induction false} CallEffect(key: GroupKey, m: Machine, c: Call)
    requires WellFormed(m)
    ensures Nested(key, m, Events(c))
    ensures Effect(m, Run(key, m, Events(c)), Elapsed(c), Size(c))
    ensures forall g :: GroupEffect(m, Run(key, m, Events(c)), g, GroupTime(key, c, g))
    decreases c, 1
  {
    var begun := Step(key, m, Begin(c.start));
    CallsEffect(key, begun, c.children);
    RunCall(key, m, c);
    FinishEffect(key, m, c, Run(key, begun, EventsAll(c.children)));
  }

  /** A call's events are its beginning, its children's events and its end. */
  lemma RunCall(key: GroupKey, m: Machine, c: Call)
    requires WellFormed(m)
    requires var begun := Step(key, m, Begin(c.start));
      && Nested(key, begun, EventsAll(c.children))
      && Run(key, begun, EventsAll(c.children)).stack != []
    ensures Nested(key, m, Events(c))
    ensures Run(key, m, Events(c))
         == Step(key, Run(key, Step(key, m, Begin(c.start)), EventsAll(c.children)), Finish(c.filename, c.end))
  {
    hide Step;
    var begun := Step(key, m, Begin(c.start));
    var inner := Run(key, begun, EventsAll(c.children));
    RunOne(key, m, Begin(c.start));
    RunAppend(key, m, [Begin(c.start)], EventsAll(c.children));
    RunOne(key, inner, Finish(c.filename, c.end));
    RunAppend(key, m, [Begin(c.start)] + EventsAll(c.children), [Finish(c.filename, c.end)]);
  }

  lemma RunOne(key: GroupKey, m: Machine, e: Event)
    requires Enabled(m, e)
    ensures Nested(key, m, [e]) && Run(key, m, [e]) == Step(key, m, e)
  {
    assert [e][1..] == [];
    assert Nested(key, Step(key, m, e), []);
  }

  lemma {:induction false} CallsEffect(key: GroupKey, m: Machine, calls: seq<Call>)
    requires WellFormed(m)
    ensures Nested(key, m, EventsAll(calls))
    ensures Effect(m, Run(key, m, EventsAll(calls)), ElapsedAll(calls), Sizes(calls))
    ensures forall g :: GroupEffect(m, Run(key, m, EventsAll(calls)), g, GroupTimes(key, calls, g))
    decreases calls, 0
  {
    hide Run, Nested, Effect, Events, EventsAll, GroupTime, GroupTimes, GroupEffect, Elapsed, ElapsedAll, Size, Sizes;
    if calls == [] {
      NoCallsEffect(key, m, calls);
    } else {
      CallEffect(key, m, calls[0]);
      var first := Run(key, m, Events(calls[0]));
      CallsEffect(key, first, calls[1..]);
      RunAppend(key, m, Events(calls[0]), EventsAll(calls[1..]));
      var r := Run(key, first, EventsAll(calls[1..]));
      ThenEffect(m, first, r, Elapsed(calls[0]), ElapsedAll(calls[1..]), Size(calls[0]), Sizes(calls[1..]));
      ThenGroupEffect(key, m, first, r, calls);
      FirstOfCalls(calls);
    }
  }

  lemma NoCallsEffect(key: GroupKey, m: Machine, calls: seq<Call>)
    requires WellFormed(m) && calls == []
    ensures Nested(key, m, EventsAll(calls))
    ensures Effect(m, Run(key, m, EventsAll(calls)), ElapsedAll(calls), Sizes(calls))
    ensures forall g :: GroupEffect(m, Run(key, m, EventsAll(calls)), g, GroupTimes(key, calls, g))
  {
    CreditNothing(m.stack);
  }

  lemma FirstOfCalls(calls: seq<Call>)
    requires calls != []
    ensures EventsAll(calls) == Events(calls[0]) + EventsAll(calls[1..])
    ensures ElapsedAll(calls) == Elapsed(calls[0]) + ElapsedAll(calls[1..])
    ensures Sizes(calls) == Size(calls[0]) + Sizes(calls[1..])
  {
  }

  lemma ThenGroupEffect(key: GroupKey, m: Machine, first: Machine, r: Machine, calls: seq<Call>)
    requires calls != []
    requires forall g :: GroupEffect(m, first, g, GroupTime(key, calls[0], g))
    requires forall g :: GroupEffect(first, r, g, GroupTimes(key, calls[1..], g))
    ensures forall g :: GroupEffect(m, r, g, GroupTimes(key, calls, g))
  {
    forall g
      ensures GroupEffect(m, r, g, GroupTimes(key, calls, g))
    {
      assert GroupEffect(m, first, g, GroupTime(key, calls[0], g));
      assert GroupEffect(first, r, g, GroupTimes(key, calls[1..], g));
    }
  }

  lemma ThenEffect(m: Machine, first: Machine, r: Machine, a: real, b: real, i: nat, j: nat)
    requires Effect(m, first, a, i) && Effect(first, r, b, j)
    ensures Effect(m, r, a + b, i + j)
  {
    CreditTwice(m.stack, a, b);
  }

  /**
   * Whatever top-level calls a fresh hook has seen, with whatever calls inside them: the report's total is their
   * elapsed time, its number of modules is the number of calls, and each group has its exclusive time.
   */
  lemma FreshHookReports(key: GroupKey, calls: seq<Call>)
    ensures Nested(key, EMPTY, EventsAll(calls))
    ensures var r := Run(key, EMPTY, EventsAll(calls));
      && r.stack == []
      && TotalMs(r.byGroup) == ElapsedAll(calls)
      && r.total == Sizes(calls) && TotalCount(r.byGroup) == Sizes(calls) as real
      && forall g :: EntryOf(r.byGroup, g) == GroupTimes(key, calls, g)
  {
    hide Run, Nested, GroupTimes, ElapsedAll, Sizes, EventsAll;
    CallsEffect(key, EMPTY, calls);
    FreshHookTelescopes(key, EventsAll(calls));
    var r := Run(key, EMPTY, EventsAll(calls));
    forall g
      ensures EntryOf(r.byGroup, g) == GroupTimes(key, calls, g)
    {
      assert GroupEffect(EMPTY, r, g, GroupTimes(key, calls, g));
    }
  }

  lemma CreditNothing(stack: seq<real>)
    ensures Credit(stack, 0.0) == stack
  {
  }

  lemma CreditTwice(stack: seq<real>, a: real, b: real)
    ensures Credit(Credit(stack, a), b) == Credit(stack, a + b)
  {
    if stack != [] {
      assert Front(Credit(stack, a)) == Front(stack);
    }
  }

  // ---------- the hook ----------

  class Hook {
    const key: GroupKey
    var stack: seq<real>
    var byGroup: map<string, Entry>
    var totalModules: nat

    constructor (key: GroupKey)
      ensures stack == [] && byGroup == map[] && totalModules == 0 && this.key == key
    {
      this.key := key;
      stack := [];
      byGroup := map[];
      totalModules := 0;
    }

    /** The hook's fields together with what the calls in progress hold. */
    ghost function View(starts: seq<real>, completed: real): Machine
      reads this
    {
      Machine(stack, starts, byGroup, totalModules, completed)
    }

    /** Before the original `_compile`: an accumulator for the time of the children. */
    method Enter(now: real, ghost starts: seq<real>, ghost completed: real)
      requires |starts| == |stack|
      modifies this`stack
      ensures View(starts + [now], completed) == Step(key, old(View(starts, completed)), Begin(now))
    {
      stack := stack + [0.0];
    }

    /** The `finally` block: the elapsed time goes to the enclosing call, what the children left to the group. */
    method Leave(filename: string, start: real, now: real, ghost starts: seq<real>, ghost completed: real)
      requires |starts| + 1 == |stack|
      modifies this
      ensures var r := Step(key, old(View(starts + [start], completed)), Finish(filename, now));
        View(starts, r.completed) == r
    {
      assert Front(starts + [start]) == starts;
      var childTime := stack[|stack| - 1];
      stack := stack[..|stack| - 1];
      var elapsed := now - start;
      var selfTime := elapsed - childTime;
      if |stack| > 0 {
        stack := stack[|stack| - 1 := stack[|stack| - 1] + elapsed];
      }
      var group := key(filename);
      var entry := EntryOf(byGroup, group);
      byGroup := byGroup[group := Entry(entry.ms + selfTime, entry.count + 1)];
      totalModules := totalModules + 1;
    }

    /** The replaced `_compile`, around the original, which makes the nested calls. */
    method Compile(c: Call, ghost starts: seq<real>, ghost completed: real)
      requires |starts| == |stack|
      modifies this
      ensures Nested(key, old(View(starts, completed)), Events(c))
      ensures var r := Run(key, old(View(starts, completed)), Events(c));
        && View(starts, r.completed) == r
        && forall g :: GroupEffect(old(View(starts, completed)), r, g, GroupTime(key, c, g))
      ensures stack == Credit(old(stack), Elapsed(c))
      ensures totalModules == old(totalModules) + Size(c)
      decreases c
    {
      ghost var m := View(starts, completed);
      ghost var begun := Step(key, m, Begin(c.start));
      assert begun.starts == starts + [c.start] && begun.completed == completed;
      CallEffect(key, m, c);
      CallsEffect(key, begun, c.children);
      hide Step, Run, GroupTime, GroupTimes, Events, Nested, GroupEffect, Credit, Elapsed, Size, EventsAll;
      Enter(c.start, starts, completed);
      ghost var now := begun;
      NoEvents(key, begun);
      assert c.children[..0] == [];
      for i := 0 to |c.children|
        invariant Nested(key, begun, EventsAll(c.children[..i]))
        invariant now == Run(key, begun, EventsAll(c.children[..i]))
        invariant now.starts == starts + [c.start]
        invariant View(now.starts, now.completed) == now
      {
        RunMore(key, begun, c.children, i);
        CallEffect(key, now, c.children[i]);
        Compile(c.children[i], now.starts, now.completed);
        now := Run(key, now, Events(c.children[i]));
      }
      assert c.children[..|c.children|] == c.children;
      RunCall(key, m, c);
      Leave(c.filename, c.start, c.end, starts, now.completed);
    }
  }

  lemma NoEvents(key: GroupKey, m: Machine)
    requires WellFormed(m)
    ensures Nested(key, m, EventsAll([])) && Run(key, m, EventsAll([])) == m
  {
  }

  lemma {:induction false} EventsAppend(a: seq<Call>, b: seq<Call>)
    ensures EventsAll(a + b) == EventsAll(a) + EventsAll(b)
  {
    if a == [] {
      assert a + b == b;
    } else {
      assert (a + b)[1..] == a[1..] + b;
      EventsAppend(a[1..], b);
    }
  }

  lemma RunMore(key: GroupKey, m: Machine, calls: seq<Call>, i: nat)
    requires i < |calls| && WellFormed(m)
    requires Nested(key, m, EventsAll(calls[..i]))
    ensures Nested(key, Run(key, m, EventsAll(calls[..i])), Events(calls[i]))
    ensures Nested(key, m, EventsAll(calls[..i + 1]))
    ensures Run(key, m, EventsAll(calls[..i + 1])) == Run(key, Run(key, m, EventsAll(calls[..i])), Events(calls[i]))
  {
    var before := Run(key, m, EventsAll(calls[..i]));
    CallEffect(key, before, calls[i]);
    RunAppend(key, m, EventsAll(calls[..i]), Events(calls[i]));
    EventsAppend(calls[..i], [calls[i]]);
    assert calls[..i + 1] == calls[..i] + [calls[i]];
    assert [calls[i]][1..] == [];
    assert EventsAll([calls[i]]) == Events(calls[i]);
  }
}

/** The call-tree analyser: windowed samples, time propagated up ancestor chains, and rollups by label. */
module CallTree {
  import opened Text
  import opened Sums

  type Id = int

  /** A profile node with the label and category its call frame is given. */
  datatype Node = Node(id: Id, children: seq<Id>, caption: string, category: string)

  /** Times are microseconds; a missing delta counts as 0. */
  datatype Profile = Profile(nodes: seq<Node>, samples: seq<Id>, timeDeltas: seq<real>, startTime: real)

  /** Bounds in microseconds; None is no bound. */
  datatype Window = Window(start: Option<real>, end: Option<real>)

  // ---------- the parent map ----------

  function AddChildren(m: map<Id, Id>, children: seq<Id>, id: Id): map<Id, Id> {
    if children == [] then m
    else AddChildren(m, children[..|children| - 1], id)[children[|children| - 1] := id]
  }

  function ParentMap(nodes: seq<Node>): map<Id, Id> {
    if nodes == [] then map[]
    else
      var last := nodes[|nodes| - 1];
      AddChildren(ParentMap(nodes[..|nodes| - 1]), last.children, last.id)
  }

  method BuildParentMap(nodes: seq<Node>) returns (parentOf: map<Id, Id>)
    ensures parentOf == ParentMap(nodes)
  {
    parentOf := map[];
    for i := 0 to |nodes|
      invariant parentOf == ParentMap(nodes[..i])
    {
      var n := nodes[i];
      ghost var before := parentOf;
      for j := 0 to |n.children|
        invariant parentOf == AddChildren(before, n.children[..j], n.id)
      {
        assert n.children[..j + 1][..j] == n.children[..j];
        parentOf := parentOf[n.children[j] := n.id];
      }
      assert n.children[..|n.children|] == n.children;
      assert nodes[..i + 1][..i] == nodes[..i];
    }
    assert nodes[..|nodes|] == nodes;
  }

  /** The first `n` nodes list `c` as a child of a node with this id, and no later one of them lists it. */
  ghost predicate LastListedBy(nodes: seq<Node>, n: nat, c: Id, id: Id)
    requires n <= |nodes|
  {
    exists k :: 0 <= k < n && nodes[k].id == id && c in nodes[k].children
                && forall m | k < m < n :: c !in nodes[m].children
  }

  lemma {:induction false} AddedChildren(m: map<Id, Id>, children: seq<Id>, id: Id, c: Id)
    ensures c in AddChildren(m, children, id) <==> c in m || c in children
    ensures c in AddChildren(m, children, id) ==>
              AddChildren(m, children, id)[c] == if c in children then id else m[c]
  {
    if children != [] {
      var front := children[..|children| - 1];
      AddedChildren(m, front, id, c);
      assert children == front + [children[|children| - 1]];
    }
  }

  /** One more node that does not list the child changes nothing. */
  lemma NotListedByLast(nodes: seq<Node>, c: Id, id: Id)
    requires nodes != [] && c !in nodes[|nodes| - 1].children
    ensures LastListedBy(nodes, |nodes|, c, id) <==> LastListedBy(nodes[..|nodes| - 1], |nodes| - 1, c, id)
  {
    var n := |nodes| - 1;
    var front := nodes[..n];
    assert forall m | 0 <= m < n :: front[m] == nodes[m];
    if LastListedBy(front, n, c, id) {
      var k :| 0 <= k < n && front[k].id == id && c in front[k].children
               && forall m | k < m < n :: c !in front[m].children;
      assert nodes[k].id == id && c in nodes[k].children;
      assert forall m | k < m < n + 1 :: c !in nodes[m].children;
    }
    if LastListedBy(nodes, n + 1, c, id) {
      var k :| 0 <= k < n + 1 && nodes[k].id == id && c in nodes[k].children
               && forall m | k < m < n + 1 :: c !in nodes[m].children;
      assert front[k].id == id && c in front[k].children;
      assert forall m | k < m < n :: c !in front[m].children;
    }
  }

  lemma ListedByLast(nodes: seq<Node>, c: Id, id: Id)
    requires nodes != [] && c in nodes[|nodes| - 1].children
    ensures LastListedBy(nodes, |nodes|, c, id) <==> nodes[|nodes| - 1].id == id
  {
    var n := |nodes| - 1;
    if nodes[n].id == id {
      assert c in nodes[n].children;
    }
  }

  /** A node's parent is the last node that lists it as a child; without one it has none. */
  lemma {:induction false} ParentMapIff(nodes: seq<Node>, c: Id, id: Id)
    ensures c in ParentMap(nodes) && ParentMap(nodes)[c] == id <==> LastListedBy(nodes, |nodes|, c, id)
    decreases |nodes|
  {
    if nodes != [] {
      hide LastListedBy, AddChildren;
      var n := |nodes| - 1;
      ParentMapIff(nodes[..n], c, id);
      AddedChildren(ParentMap(nodes[..n]), nodes[n].children, nodes[n].id, c);
      if c in nodes[n].children {
        ListedByLast(nodes, c, id);
      } else {
        NotListedByLast(nodes, c, id);
      }
    }
  }

  // ---------- ancestor chains ----------

  /** The ids met on the way up from `cur`, stopping at the first one already seen. */
  function Chain(parent: map<Id, Id>, cur: Id, seen: set<Id>): set<Id>
    decreases parent.Keys - seen
  {
    if cur in seen then {}
    else {cur} + (if cur in parent then Chain(parent, parent[cur], seen + {cur}) else {})
  }

  function Ancestry(parent: map<Id, Id>, leaf: Id): set<Id> {
    Chain(parent, leaf, {})
  }

  /** `n` steps up the parent map. */
  function Walk(parent: map<Id, Id>, x: Id, n: nat): Option<Id>
    decreases n
  {
    if n == 0 then Some(x) else if x in parent then Walk(parent, parent[x], n - 1) else None
  }

  ghost predicate Reaches(parent: map<Id, Id>, x: Id, y: Id) {
    exists n: nat :: Walk(parent, x, n) == Some(y)
  }

  /** Walking on from where a walk ended. */
  lemma {:induction false} WalkAdd(parent: map<Id, Id>, x: Id, m: nat, n: nat)
    requires Walk(parent, x, m).Some?
    ensures Walk(parent, x, m + n) == Walk(parent, Walk(parent, x, m).value, n)
    decreases m
  {
    if m > 0 {
      WalkAdd(parent, parent[x], m - 1, n);
    }
  }

  lemma {:induction false} ChainIsReachable(parent: map<Id, Id>, cur: Id, seen: set<Id>, y: Id)
    requires y in Chain(parent, cur, seen)
    ensures Reaches(parent, cur, y)
    decreases parent.Keys - seen
  {
    if y == cur {
      assert Walk(parent, cur, 0) == Some(y);
    } else {
      ChainIsReachable(parent, parent[cur], seen + {cur}, y);
      var n: nat :| Walk(parent, parent[cur], n) == Some(y);
      assert Walk(parent, cur, n + 1) == Some(y);
    }
  }

  /** With what was seen before, a chain is closed under taking parents. */
  lemma {:induction false} ChainIsClosed(parent: map<Id, Id>, cur: Id, seen: set<Id>, y: Id)
    requires y in Chain(parent, cur, seen) && y in parent
    ensures parent[y] in Chain(parent, cur, seen) + seen
    decreases parent.Keys - seen
  {
    if y == cur {
      assert parent[cur] in seen + {cur} || parent[cur] in Chain(parent, parent[cur], seen + {cur});
    } else {
      ChainIsClosed(parent, parent[cur], seen + {cur}, y);
    }
  }

  lemma {:induction false} ReachableIsInAncestry(parent: map<Id, Id>, leaf: Id, x: Id, n: nat, y: Id)
    requires x in Ancestry(parent, leaf) && Walk(parent, x, n) == Some(y)
    ensures y in Ancestry(parent, leaf)
    decreases n
  {
    if n > 0 {
      ChainIsClosed(parent, leaf, {}, x);
      ReachableIsInAncestry(parent, leaf, parent[x], n - 1, y);
    }
  }

  /** The loop with its set of seen ids visits exactly what the parent map reaches, cyclic or not. */
  lemma AncestryIsReachability(parent: map<Id, Id>, leaf: Id, y: Id)
    ensures y in Ancestry(parent, leaf) <==> Reaches(parent, leaf, y)
  {
    if y in Ancestry(parent, leaf) {
      ChainIsReachable(parent, leaf, {}, y);
    }
    if Reaches(parent, leaf, y) {
      var n: nat :| Walk(parent, leaf, n) == Some(y);
      ReachableIsInAncestry(parent, leaf, leaf, n, y);
    }
  }

  // ---------- windowed time ----------

  function Delta(p: Profile, i: nat): real {
    if i < |p.timeDeltas| then p.timeDeltas[i] else 0.0
  }

  /** The running clock before sample `i`. */
  function Clock(p: Profile, i: nat): real {
    if i == 0 then p.startTime else Clock(p, i - 1) + Delta(p, i - 1)
  }

  predicate InWindow(p: Profile, w: Window, i: nat) {
    var mid := Clock(p, i) + Delta(p, i) / 2.0;
    && (w.start.Some? ==> w.start.value <= mid)
    && (w.end.Some? ==> mid <= w.end.value)
  }

  /** The time of a sample, 0 outside the window. */
  function Weight(p: Profile, w: Window, i: nat): real {
    if InWindow(p, w, i) then Delta(p, i) else 0.0
  }

  /** The in-window time of the first `n` samples, each weighted by what `g` makes of its leaf. */
  function TimeOf(p: Profile, w: Window, n: nat, g: Id -> real): real
    requires n <= |p.samples|
  {
    if n == 0 then 0.0
    else TimeOf(p, w, n - 1, g) + Times(Weight(p, w, n - 1), g(p.samples[n - 1]))
  }

  function Indicator(b: bool): real {
    if b then 1.0 else 0.0
  }

  /** Time spent in `id` itself. */
  function SelfTime(p: Profile, w: Window, n: nat, id: Id): real
    requires n <= |p.samples|
  {
    TimeOf(p, w, n, leaf => Indicator(leaf == id))
  }

  /** Time of the samples that have `id` on their ancestor chain. */
  function InclusiveTime(p: Profile, w: Window, parent: map<Id, Id>, n: nat, id: Id): real
    requires n <= |p.samples|
  {
    TimeOf(p, w, n, leaf => Indicator(id in Ancestry(parent, leaf)))
  }

  function SampledTime(p: Profile, w: Window, n: nat): real
    requires n <= |p.samples|
  {
    TimeOf(p, w, n, leaf => 1.0)
  }

  // ---------- which samples count ----------

  /** The sum of the first `n` deltas, a missing one counting as 0. */
  function SumOfDeltas(deltas: seq<real>, n: nat): real {
    if n == 0 then 0.0 else SumOfDeltas(deltas, n - 1) + (if n <= |deltas| then deltas[n - 1] else 0.0)
  }

  lemma {:induction false} ClockIsSum(p: Profile, i: nat)
    ensures Clock(p, i) == p.startTime + SumOfDeltas(p.timeDeltas, i)
  {
    if i > 0 {
      ClockIsSum(p, i - 1);
    }
  }

  /** A sample counts exactly when the start time, all deltas before its own and half of its own lie in the window. */
  lemma SampleCountsIff(p: Profile, w: Window, i: nat)
    ensures var own := if i < |p.timeDeltas| then p.timeDeltas[i] else 0.0;
      var mid := p.startTime + SumOfDeltas(p.timeDeltas, i) + own / 2.0;
      InWindow(p, w, i) <==> (w.start == None || w.start.value <= mid) && (w.end == None || mid <= w.end.value)
  {
    ClockIsSum(p, i);
  }

  /** A sample adds its delta to the sampled time, its leaf's self time and its ancestors' inclusive times. */
  lemma SampleAdds(p: Profile, w: Window, parent: map<Id, Id>, i: nat, id: Id)
    requires i < |p.samples|
    ensures SampledTime(p, w, 0) == SelfTime(p, w, 0, id) == InclusiveTime(p, w, parent, 0, id) == 0.0
    ensures var own := if i < |p.timeDeltas| then p.timeDeltas[i] else 0.0;
      var mid := p.startTime + SumOfDeltas(p.timeDeltas, i) + own / 2.0;
      var d := if (w.start == None || w.start.value <= mid) && (w.end == None || mid <= w.end.value) then own else 0.0;
      && SampledTime(p, w, i + 1) == SampledTime(p, w, i) + d
      && SelfTime(p, w, i + 1, id) == SelfTime(p, w, i, id) + (if p.samples[i] == id then d else 0.0)
      && InclusiveTime(p, w, parent, i + 1, id)
           == InclusiveTime(p, w, parent, i, id) + (if Reaches(parent, p.samples[i], id) then d else 0.0)
  {
    NoTime(p, w, parent);
    SampleCountsIff(p, w, i);
    SampleTimes(p, w, parent, i, id);
    AncestryIsReachability(parent, p.samples[i], id);
    hide InWindow, Ancestry, Reaches, SelfTime, InclusiveTime, SampledTime;
  }

  /** The window asked for in milliseconds since the start of the profile. */
  function WindowOf(startTime: real, from: Option<real>, to: Option<real>): Window {
    Window(if from.Some? then Some(startTime + from.value * 1000.0) else None,
           if to.Some? then Some(startTime + to.value * 1000.0) else None)
  }

  /** A sample counts exactly when its middle, measured from the start of the profile, lies between those times. */
  lemma SampleCountsFromStart(p: Profile, from: Option<real>, to: Option<real>, i: nat)
    ensures var own := if i < |p.timeDeltas| then p.timeDeltas[i] else 0.0;
      var mid := SumOfDeltas(p.timeDeltas, i) + own / 2.0;
      InWindow(p, WindowOf(p.startTime, from, to), i) <==>
        (from == None || from.value * 1000.0 <= mid) && (to == None || mid <= to.value * 1000.0)
  {
    SampleCountsIff(p, WindowOf(p.startTime, from, to), i);
    hide InWindow;
  }

  function Later(p: Profile, d: real): Profile {
    p.(startTime := p.startTime + d)
  }

  function Shifted(w: Window, d: real): Window {
    Window(if w.start.Some? then Some(w.start.value + d) else None, if w.end.Some? then Some(w.end.value + d) else None)
  }

  lemma {:induction false} ShiftedTime(p: Profile, w: Window, d: real, n: nat, g: Id -> real)
    requires n <= |p.samples|
    ensures TimeOf(Later(p, d), Shifted(w, d), n, g) == TimeOf(p, w, n, g)
  {
    if n > 0 {
      ShiftedTime(p, w, d, n - 1, g);
      SampleCountsIff(p, w, n - 1);
      SampleCountsIff(Later(p, d), Shifted(w, d), n - 1);
      hide InWindow;
    }
  }

  /** Moving profile and window by the same time changes no self time, no inclusive time and not the sampled time. */
  lemma ShiftChangesNothing(p: Profile, w: Window, d: real, parent: map<Id, Id>, id: Id)
    ensures var n := |p.samples|;
      && SampledTime(Later(p, d), Shifted(w, d), n) == SampledTime(p, w, n)
      && SelfTime(Later(p, d), Shifted(w, d), n, id) == SelfTime(p, w, n, id)
      && InclusiveTime(Later(p, d), Shifted(w, d), parent, n, id) == InclusiveTime(p, w, parent, n, id)
  {
    hide TimeOf, Ancestry;
    var n := |p.samples|;
    ShiftedTime(p, w, d, n, leaf => 1.0);
    ShiftedTime(p, w, d, n, leaf => Indicator(leaf == id));
    ShiftedTime(p, w, d, n, leaf => Indicator(id in Ancestry(parent, leaf)));
  }

  // ---------- the sample loop ----------

  function Get(m: map<Id, real>, id: Id): real {
    if id in m then m[id] else 0.0
  }

  lemma IndicatorTime(p: Profile, w: Window, n: nat, g: Id -> real, b: bool)
    requires n < |p.samples| && g(p.samples[n]) == Indicator(b)
    ensures TimeOf(p, w, n + 1, g) == TimeOf(p, w, n, g) + (if b && InWindow(p, w, n) then Delta(p, n) else 0.0)
  {
  }

  lemma SampleTimes(p: Profile, w: Window, parent: map<Id, Id>, n: nat, id: Id)
    requires n < |p.samples|
    ensures var d := Weight(p, w, n);
      && SelfTime(p, w, n + 1, id) == SelfTime(p, w, n, id) + (if p.samples[n] == id then d else 0.0)
      && InclusiveTime(p, w, parent, n + 1, id)
           == InclusiveTime(p, w, parent, n, id) + (if id in Ancestry(parent, p.samples[n]) then d else 0.0)
      && SampledTime(p, w, n + 1) == SampledTime(p, w, n) + d
  {
    hide InWindow;
    IndicatorTime(p, w, n, leaf => Indicator(leaf == id), p.samples[n] == id);
    IndicatorTime(p, w, n, leaf => Indicator(id in Ancestry(parent, leaf)), id in Ancestry(parent, p.samples[n]));
    IndicatorTime(p, w, n, leaf => 1.0, true);
  }

  lemma NoTime(p: Profile, w: Window, parent: map<Id, Id>)
    ensures SampledTime(p, w, 0) == 0.0
    ensures forall id :: SelfTime(p, w, 0, id) == InclusiveTime(p, w, parent, 0, id) == 0.0
  {
  }

  /** One sample's walk up the tree: its delta is added once to every id of its ancestry. */
  method Propagate(parent: map<Id, Id>, leaf: Id, delta: real, before: map<Id, real>) returns (incl: map<Id, real>)
    ensures incl.Keys == before.Keys + Ancestry(parent, leaf)
    ensures forall id :: Get(incl, id) == Get(before, id) + (if id in Ancestry(parent, leaf) then delta else 0.0)
  {
    incl := before;
    var cur := Some(leaf);
    var seen: set<Id> := {};
    while cur.Some? && cur.value !in seen
      invariant Ancestry(parent, leaf) == seen + (if cur.Some? then Chain(parent, cur.value, seen) else {})
      invariant incl.Keys == before.Keys + seen
      invariant forall id :: Get(incl, id) == Get(before, id) + (if id in seen then delta else 0.0)
      decreases parent.Keys - seen, cur.Some?
    {
      var id := cur.value;
      seen := seen + {id};
      incl := incl[id := Get(incl, id) + delta];
      cur := if id in parent then Some(parent[id]) else None;
    }
  }

  /** Some in-window sample among the first `n` has the leaf `id`. */
  predicate IsWindowLeaf(p: Profile, w: Window, n: nat, id: Id)
    requires n <= |p.samples|
  {
    exists i :: 0 <= i < n && InWindow(p, w, i) && p.samples[i] == id
  }

  method Analyze(p: Profile, w: Window)
    returns (selfTimeUs: map<Id, real>, inclTimeUs: map<Id, real>, sampledUs: real, parentOf: map<Id, Id>)
    ensures parentOf == ParentMap(p.nodes)
    ensures sampledUs == SampledTime(p, w, |p.samples|)
    ensures forall id :: Get(selfTimeUs, id) == SelfTime(p, w, |p.samples|, id)
    ensures forall id :: Get(inclTimeUs, id) == InclusiveTime(p, w, parentOf, |p.samples|, id)
    ensures forall i | 0 <= i < |p.samples| && InWindow(p, w, i) ::
              p.samples[i] in selfTimeUs && Ancestry(parentOf, p.samples[i]) <= inclTimeUs.Keys
    ensures forall id | id in selfTimeUs :: IsWindowLeaf(p, w, |p.samples|, id)
  {
    hide InWindow, Ancestry, ParentMap, SelfTime, InclusiveTime, SampledTime;
    parentOf := BuildParentMap(p.nodes);
    selfTimeUs, inclTimeUs, sampledUs := map[], map[], 0.0;
    NoTime(p, w, parentOf);
    var clock := p.startTime;
    for i := 0 to |p.samples|
      invariant clock == Clock(p, i)
      invariant sampledUs == SampledTime(p, w, i)
      invariant forall id :: Get(selfTimeUs, id) == SelfTime(p, w, i, id)
      invariant forall id :: Get(inclTimeUs, id) == InclusiveTime(p, w, parentOf, i, id)
      invariant forall k | 0 <= k < i && InWindow(p, w, k) ::
                  p.samples[k] in selfTimeUs && Ancestry(parentOf, p.samples[k]) <= inclTimeUs.Keys
      invariant forall id | id in selfTimeUs :: IsWindowLeaf(p, w, i, id)
    {
      var delta := if i < |p.timeDeltas| then p.timeDeltas[i] else 0.0;
      var sampleMid := clock + delta / 2.0;
      clock := clock + delta;
      ghost var selfBefore, inclBefore := selfTimeUs, inclTimeUs;
      WindowTest(p, w, i, sampleMid);
      if !((w.start.Some? && sampleMid < w.start.value) || (w.end.Some? && sampleMid > w.end.value)) {
        sampledUs := sampledUs + delta;
        var leaf := p.samples[i];
        selfTimeUs := selfTimeUs[leaf := Get(selfTimeUs, leaf) + delta];
        inclTimeUs := Propagate(parentOf, leaf, delta, inclTimeUs);
      }
      SampleTimes(p, w, parentOf, i, p.samples[i]);
      forall id
        ensures Get(selfTimeUs, id) == SelfTime(p, w, i + 1, id)
        ensures Get(inclTimeUs, id) == InclusiveTime(p, w, parentOf, i + 1, id)
      {
        assert Get(selfBefore, id) == SelfTime(p, w, i, id);
        assert Get(inclBefore, id) == InclusiveTime(p, w, parentOf, i, id);
        SampleTimes(p, w, parentOf, i, id);
      }
    }
  }

  lemma WindowTest(p: Profile, w: Window, i: nat, mid: real)
    requires mid == Clock(p, i) + Delta(p, i) / 2.0
    ensures InWindow(p, w, i) <==> !((w.start.Some? && mid < w.start.value) || (w.end.Some? && mid > w.end.value))
  {
  }

  // ---------- laws of windowed time ----------

  lemma {:induction false} TimeSame(p: Profile, w: Window, n: nat, f: Id -> real, g: Id -> real)
    requires n <= |p.samples|
    requires forall i | 0 <= i < n && InWindow(p, w, i) :: f(p.samples[i]) == g(p.samples[i])
    ensures TimeOf(p, w, n, f) == TimeOf(p, w, n, g)
  {
    if n > 0 {
      TimeSame(p, w, n - 1, f, g);
      assert Weight(p, w, n - 1) == 0.0 || InWindow(p, w, n - 1);
      hide InWindow;
    }
  }

  lemma {:induction false} TimePlus(p: Profile, w: Window, n: nat, f: Id -> real, g: Id -> real, h: Id -> real)
    requires n <= |p.samples|
    requires forall x :: h(x) == f(x) + g(x)
    ensures TimeOf(p, w, n, h) == TimeOf(p, w, n, f) + TimeOf(p, w, n, g)
  {
    hide Weight, Times;
    if n > 0 {
      TimePlus(p, w, n - 1, f, g, h);
      var x := p.samples[n - 1];
      Distribute(Weight(p, w, n - 1), f(x), g(x));
    }
  }

  /** What ids of a set add up to for one leaf, and over time: summation may be exchanged. */
  lemma {:induction false} ExchangeSums(p: Profile, w: Window, n: nat, ids: set<Id>, weight: (Id, Id) -> real)
    requires n <= |p.samples|
    ensures SumOver(ids, id => TimeOf(p, w, n, leaf => weight(id, leaf)))
         == TimeOf(p, w, n, leaf => SumOver(ids, id => weight(id, leaf)))
  {
    var total: Id -> real := id => TimeOf(p, w, n, leaf => weight(id, leaf));
    if n == 0 {
      SumZero(ids, total);
    } else {
      hide Weight, Times;
      var earlier: Id -> real := id => TimeOf(p, w, n - 1, leaf => weight(id, leaf));
      var leaf := p.samples[n - 1];
      var d := Weight(p, w, n - 1);
      var now: Id -> real := id => weight(id, leaf);
      var scaled: Id -> real := id => Times(d, weight(id, leaf));
      SumPlus(ids, earlier, scaled, total);
      SumScale(ids, now, d, scaled);
      ExchangeSums(p, w, n - 1, ids, weight);
    }
  }

  // ---------- conservation ----------

  /** `id` is not its own proper ancestor. */
  predicate OffCycles(parent: map<Id, Id>, id: Id) {
    id in parent ==> id !in Ancestry(parent, parent[id])
  }

  function ChildrenOf(parent: map<Id, Id>, id: Id): set<Id> {
    set c | c in parent && parent[c] == id
  }

  lemma WayBackIsCycle(parent: map<Id, Id>, id: Id, n: nat)
    requires n > 0 && Walk(parent, id, n) == Some(id)
    ensures !OffCycles(parent, id)
  {
    assert Walk(parent, parent[id], n - 1) == Some(id);
    AncestryIsReachability(parent, parent[id], id);
  }

  /** Whatever lies on a chain, other than its start, has a child on the chain. */
  lemma {:induction false} ChainHasChild(parent: map<Id, Id>, cur: Id, seen: set<Id>, y: Id) returns (c: Id)
    requires y in Chain(parent, cur, seen) && y != cur
    ensures c in Chain(parent, cur, seen) && c in parent && parent[c] == y
    decreases parent.Keys - seen
  {
    if parent[cur] == y {
      c := cur;
    } else {
      c := ChainHasChild(parent, parent[cur], seen + {cur}, y);
    }
  }

  /** Two children of one node cannot both lie on a chain, unless the node is on a cycle. */
  lemma OneChildOnChain(parent: map<Id, Id>, leaf: Id, id: Id, c: Id, d: Id)
    requires OffCycles(parent, id)
    requires c in Ancestry(parent, leaf) && d in Ancestry(parent, leaf)
    requires c in ChildrenOf(parent, id) && d in ChildrenOf(parent, id)
    ensures c == d
  {
    AncestryIsReachability(parent, leaf, c);
    AncestryIsReachability(parent, leaf, d);
    var i: nat :| Walk(parent, leaf, i) == Some(c);
    var j: nat :| Walk(parent, leaf, j) == Some(d);
    if i < j {
      LaterChild(parent, leaf, id, c, i, d, j);
    } else if j < i {
      LaterChild(parent, leaf, id, d, j, c, i);
    }
  }

  lemma LaterChild(parent: map<Id, Id>, leaf: Id, id: Id, c: Id, i: nat, d: Id, j: nat)
    requires i < j
    requires c in ChildrenOf(parent, id) && d in ChildrenOf(parent, id)
    requires Walk(parent, leaf, i) == Some(c) && Walk(parent, leaf, j) == Some(d)
    ensures !OffCycles(parent, id)
  {
    WalkAdd(parent, leaf, i, j - i);
    assert Walk(parent, id, j - i - 1) == Some(d);
    ChildLeadsBack(parent, id, d, j - i - 1);
  }

  lemma ChildLeadsBack(parent: map<Id, Id>, id: Id, c: Id, n: nat)
    requires c in ChildrenOf(parent, id) && Walk(parent, id, n) == Some(c)
    ensures !OffCycles(parent, id)
  {
    WalkAdd(parent, id, n, 1);
    assert Walk(parent, parent[c], 0) == Some(id);
    assert Walk(parent, c, 1) == Some(id);
    WayBackIsCycle(parent, id, n + 1);
  }

  lemma LeafHasNoChildOnChain(parent: map<Id, Id>, id: Id, c: Id)
    requires c in ChildrenOf(parent, id)
    ensures c in Ancestry(parent, id) ==> !OffCycles(parent, id)
  {
    if c in Ancestry(parent, id) {
      AncestryIsReachability(parent, id, c);
      var n: nat :| Walk(parent, id, n) == Some(c);
      ChildLeadsBack(parent, id, c, n);
    }
  }

  /** For one leaf: being on its chain is being the leaf, or having exactly one child on the chain. */
  lemma OnChainSplits(parent: map<Id, Id>, id: Id, leaf: Id, onChain: Id -> real)
    requires OffCycles(parent, id)
    requires forall c :: onChain(c) == Indicator(c in Ancestry(parent, leaf))
    ensures Indicator(id in Ancestry(parent, leaf))
         == Indicator(leaf == id) + SumOver(ChildrenOf(parent, id), onChain)
  {
    hide Ancestry;
    var children := ChildrenOf(parent, id);
    if leaf == id {
      forall c | c in children
        ensures onChain(c) == 0.0
      {
        LeafHasNoChildOnChain(parent, id, c);
      }
      SumZero(children, onChain);
      AncestryIsReachability(parent, leaf, leaf);
      assert Walk(parent, leaf, 0) == Some(leaf);
    } else if id in Ancestry(parent, leaf) {
      var child := ChildOnChain(parent, leaf, id);
      forall c | c in children && c != child
        ensures onChain(c) == 0.0
      {
        if c in Ancestry(parent, leaf) {
          OneChildOnChain(parent, leaf, id, c, child);
        }
      }
      SumOne(children, onChain, child);
    } else {
      forall c | c in children
        ensures onChain(c) == 0.0
      {
        ParentOnChain(parent, leaf, c);
      }
      SumZero(children, onChain);
    }
  }

  lemma ChildOnChain(parent: map<Id, Id>, leaf: Id, id: Id) returns (c: Id)
    requires id in Ancestry(parent, leaf) && id != leaf
    ensures c in ChildrenOf(parent, id) && c in Ancestry(parent, leaf)
  {
    c := ChainHasChild(parent, leaf, {}, id);
  }

  lemma ParentOnChain(parent: map<Id, Id>, leaf: Id, c: Id)
    requires c in parent
    ensures c in Ancestry(parent, leaf) ==> parent[c] in Ancestry(parent, leaf)
  {
    if c in Ancestry(parent, leaf) {
      ChainIsClosed(parent, leaf, {}, c);
    }
  }

  /** Conservation: a node's inclusive time is its self time plus its children's inclusive times. */
  lemma InclusiveIsSelfPlusChildren(p: Profile, w: Window, parent: map<Id, Id>, id: Id)
    requires OffCycles(parent, id)
    ensures var n := |p.samples|;
      InclusiveTime(p, w, parent, n, id)
        == SelfTime(p, w, n, id) + SumOver(ChildrenOf(parent, id), c => InclusiveTime(p, w, parent, n, c))
  {
    hide Ancestry;
    var n, children := |p.samples|, ChildrenOf(parent, id);
    var weight: (Id, Id) -> real := (c, leaf) => Indicator(c in Ancestry(parent, leaf));
    var ofChildren: Id -> real := leaf => SumOver(children, c => weight(c, leaf));
    var own: Id -> real := leaf => Indicator(leaf == id);
    var onChain: Id -> real := leaf => Indicator(id in Ancestry(parent, leaf));
    forall leaf
      ensures onChain(leaf) == own(leaf) + ofChildren(leaf)
    {
      OnChainSplits(parent, id, leaf, c => weight(c, leaf));
    }
    TimePlus(p, w, n, own, ofChildren, onChain);
    ExchangeSums(p, w, n, children, weight);
    SumSame(children, c => TimeOf(p, w, n, leaf => weight(c, leaf)), c => InclusiveTime(p, w, parent, n, c)) by {
      forall c | c in children
        ensures TimeOf(p, w, n, leaf => weight(c, leaf)) == InclusiveTime(p, w, parent, n, c)
      {
        TimeSame(p, w, n, leaf => weight(c, leaf), leaf => Indicator(c in Ancestry(parent, leaf)));
      }
    }
  }

  /** The self times of a set of ids add up to the time of the samples whose leaf is in the set. */
  lemma SelfTimesOfIds(p: Profile, w: Window, ids: set<Id>)
    ensures SumOver(ids, id => SelfTime(p, w, |p.samples|, id))
         == TimeOf(p, w, |p.samples|, leaf => Indicator(leaf in ids))
  {
    var n := |p.samples|;
    var weight: (Id, Id) -> real := (id, leaf) => Indicator(leaf == id);
    var summed: Id -> real := leaf => SumOver(ids, id => weight(id, leaf));
    ExchangeSums(p, w, n, ids, weight);
    SumSame(ids, id => TimeOf(p, w, n, leaf => weight(id, leaf)), id => SelfTime(p, w, n, id)) by {
      forall id | id in ids
        ensures TimeOf(p, w, n, leaf => weight(id, leaf)) == SelfTime(p, w, n, id)
      {
        TimeSame(p, w, n, leaf => weight(id, leaf), leaf => Indicator(leaf == id));
      }
    }
    forall i | 0 <= i < n && InWindow(p, w, i)
      ensures summed(p.samples[i]) == Indicator(p.samples[i] in ids)
    {
      var leaf := p.samples[i];
      var ofLeaf: Id -> real := id => weight(id, leaf);
      assert forall id :: ofLeaf(id) == Indicator(leaf == id);
      if leaf in ids {
        SumOne(ids, ofLeaf, leaf);
      } else {
        SumZero(ids, ofLeaf);
      }
      SumSame(ids, ofLeaf, id => weight(id, leaf));
    }
    TimeSame(p, w, n, summed, leaf => Indicator(leaf in ids));
  }

  /** Self times over any set of ids that holds every in-window leaf add up to the sampled time. */
  lemma SelfTimesSumToSampled(p: Profile, w: Window, ids: set<Id>)
    requires forall i | 0 <= i < |p.samples| && InWindow(p, w, i) :: p.samples[i] in ids
    ensures SumOver(ids, id => SelfTime(p, w, |p.samples|, id)) == SampledTime(p, w, |p.samples|)
  {
    SelfTimesOfIds(p, w, ids);
    TimeSame(p, w, |p.samples|, leaf => Indicator(leaf in ids), leaf => 1.0);
  }

  /** A root on every sampled chain has the whole sampled time. */
  lemma RootHasAllTime(p: Profile, w: Window, parent: map<Id, Id>, root: Id)
    requires forall i | 0 <= i < |p.samples| && InWindow(p, w, i) :: root in Ancestry(parent, p.samples[i])
    ensures InclusiveTime(p, w, parent, |p.samples|, root) == SampledTime(p, w, |p.samples|)
  {
    TimeSame(p, w, |p.samples|, leaf => Indicator(root in Ancestry(parent, leaf)), leaf => 1.0);
  }

  // ---------- rollups ----------

  /** The ids with a given label. */
  function Labelled(labels: map<Id, string>, l: string): set<Id> {
    set id | id in labels && labels[id] == l
  }

  /** `new Map(nodes.map(n => [n.id, …]))`: the last node with an id wins. */
  function Captions(nodes: seq<Node>): map<Id, string> {
    if nodes == [] then map[] else Captions(nodes[..|nodes| - 1])[nodes[|nodes| - 1].id := nodes[|nodes| - 1].caption]
  }

  function Categories(nodes: seq<Node>): map<Id, string> {
    if nodes == [] then map[] else Categories(nodes[..|nodes| - 1])[nodes[|nodes| - 1].id := nodes[|nodes| - 1].category]
  }

  /** A known id has the caption and the category of the last node with that id. */
  lemma {:induction false} LastNodeNames(nodes: seq<Node>, k: nat)
    requires k < |nodes| && forall m | k < m < |nodes| :: nodes[m].id != nodes[k].id
    ensures nodes[k].id in Captions(nodes) && Captions(nodes)[nodes[k].id] == nodes[k].caption
    ensures nodes[k].id in Categories(nodes) && Categories(nodes)[nodes[k].id] == nodes[k].category
    decreases |nodes|
  {
    var n := |nodes| - 1;
    if k < n {
      assert forall m | k < m < n :: nodes[..n][m] == nodes[m];
      LastNodeNames(nodes[..n], k);
      assert nodes[n].id != nodes[k].id;
    }
  }

  ghost function GetSum(m: map<string, real>, l: string): real {
    if l in m then m[l] else 0.0
  }

  /** The sums so far are those of the ids done so far. */
  ghost predicate SumsOf(byLabel: map<string, real>, done: set<Id>, times: map<Id, real>, labels: map<Id, string>) {
    forall l :: SumFits(byLabel, done, times, labels, l)
  }

  ghost predicate SumFits(byLabel: map<string, real>, done: set<Id>, times: map<Id, real>, labels: map<Id, string>,
                          l: string)
  {
    && GetSum(byLabel, l) == SumOver(done * Labelled(labels, l), id => Get(times, id))
    && (l in byLabel <==> done * Labelled(labels, l) != {})
  }

  lemma OneMoreId(before: map<string, real>, after: map<string, real>, done: set<Id>, id: Id,
                  times: map<Id, real>, labels: map<Id, string>)
    requires SumsOf(before, done, times, labels) && id in times && id !in done
    requires after == if id in labels then before[labels[id] := GetSum(before, labels[id]) + times[id]] else before
    ensures SumsOf(after, done + {id}, times, labels)
  {
    var f: Id -> real := id => Get(times, id);
    forall l
      ensures SumFits(after, done + {id}, times, labels, l)
    {
      assert SumFits(before, done, times, labels, l);
      var earlier := done * Labelled(labels, l);
      SumSame(earlier, f, id => Get(times, id));
      if id in labels && labels[id] == l {
        assert (done + {id}) * Labelled(labels, l) == earlier + {id};
        SumAdd(earlier, f, id);
      } else {
        assert (done + {id}) * Labelled(labels, l) == earlier;
      }
      SumSame((done + {id}) * Labelled(labels, l), f, id => Get(times, id));
    }
  }

  lemma NothingSummed(times: map<Id, real>, labels: map<Id, string>)
    ensures SumsOf(map[], {}, times, labels)
  {
  }

  /** The loop that sums the times of known ids by label; unknown ids are skipped. */
  method RollUp(times: map<Id, real>, labels: map<Id, string>) returns (byLabel: map<string, real>)
    ensures SumsOf(byLabel, times.Keys, times, labels)
  {
    byLabel := map[];
    var todo := times.Keys;
    NothingSummed(times, labels);
    assert times.Keys - todo == {};
    hide SumsOf;
    while todo != {}
      invariant todo <= times.Keys
      invariant SumsOf(byLabel, times.Keys - todo, times, labels)
      decreases |todo|
    {
      ghost var someId := Member(todo);
      var id :| id in todo;
      ghost var done, before := times.Keys - todo, byLabel;
      if id in labels {
        var caption := labels[id];
        byLabel := byLabel[caption := (if caption in byLabel then byLabel[caption] else 0.0) + times[id]];
      }
      OneMoreId(before, byLabel, done, id, times, labels);
      todo := todo - {id};
      assert times.Keys - todo == done + {id};
    }
    assert times.Keys - todo == times.Keys;
  }

  /** When every id is known, the labels' sums add up to all the time there is. */
  lemma RollUpConserves(times: map<Id, real>, labels: map<Id, string>, byLabel: map<string, real>)
    requires times.Keys <= labels.Keys
    requires SumsOf(byLabel, times.Keys, times, labels)
    ensures SumOver(byLabel.Keys, l => GetSum(byLabel, l)) == SumOver(times.Keys, id => Get(times, id))
  {
    var f: Id -> real := id => Get(times, id);
    var g: string -> real := l => GetSum(byLabel, l);
    var labelOf: Id -> string := id => if id in labels then labels[id] else "";
    forall id | id in times.Keys
      ensures labelOf(id) in byLabel.Keys
    {
      assert SumFits(byLabel, times.Keys, times, labels, labelOf(id));
      assert id in times.Keys * Labelled(labels, labelOf(id));
    }
    forall l | l in byLabel.Keys
      ensures g(l) == SumOver(ClassOf(times.Keys, labelOf, l), f)
    {
      assert SumFits(byLabel, times.Keys, times, labels, l);
      assert ClassOf(times.Keys, labelOf, l) == times.Keys * Labelled(labels, l);
      SumSame(times.Keys * Labelled(labels, l), f, id => Get(times, id));
    }
    SumByClass(times.Keys, f, labelOf, byLabel.Keys, g);
    SumSame(byLabel.Keys, g, l => GetSum(byLabel, l));
    SumSame(times.Keys, f, id => Get(times, id));
  }

  // ---------- inclusive time by label ----------

  lemma {:induction false} CountIsCardinality(ids: set<Id>, on: set<Id>, f: Id -> real)
    requires forall id | id in ids :: f(id) == Indicator(id in on)
    ensures SumOver(ids, f) == |ids * on| as real
    decreases |ids|
  {
    if ids == {} {
      assert ids * on == {};
    } else {
      var x := Member(ids);
      SumRemove(ids, f, x);
      CountIsCardinality(ids - {x}, on, f);
      CardinalityStep(ids, on, x);
    }
  }

  lemma CardinalityStep(ids: set<Id>, on: set<Id>, x: Id)
    requires x in ids
    ensures |ids * on| == |(ids - {x}) * on| + (if x in on then 1 else 0)
  {
    var rest := (ids - {x}) * on;
    if x in on {
      assert ids * on == rest + {x};
    } else {
      assert ids * on == rest;
    }
  }

  /** How many ids with the label lie on a leaf's chain. */
  function LabelCount(parent: map<Id, Id>, labels: map<Id, string>, l: string, leaf: Id): real {
    |Labelled(labels, l) * Ancestry(parent, leaf)| as real
  }

  /** Exactly what the sum over a label's ids measures: each sample as often as its chain holds the label. */
  lemma LabelTimeCountsOccurrences(p: Profile, w: Window, parent: map<Id, Id>, labels: map<Id, string>, l: string,
                                   timed: set<Id>)
    requires forall i | 0 <= i < |p.samples| && InWindow(p, w, i) :: Ancestry(parent, p.samples[i]) <= timed
    ensures SumOver(timed * Labelled(labels, l), id => InclusiveTime(p, w, parent, |p.samples|, id))
         == TimeOf(p, w, |p.samples|, leaf => LabelCount(parent, labels, l, leaf))
  {
    hide Ancestry, InWindow;
    var n, ids := |p.samples|, timed * Labelled(labels, l);
    var weight: (Id, Id) -> real := (id, leaf) => Indicator(id in Ancestry(parent, leaf));
    var summed: Id -> real := leaf => SumOver(ids, id => weight(id, leaf));
    ExchangeSums(p, w, n, ids, weight);
    SumSame(ids, id => TimeOf(p, w, n, leaf => weight(id, leaf)), id => InclusiveTime(p, w, parent, n, id)) by {
      forall id | id in ids
        ensures TimeOf(p, w, n, leaf => weight(id, leaf)) == InclusiveTime(p, w, parent, n, id)
      {
        TimeSame(p, w, n, leaf => weight(id, leaf), leaf => Indicator(id in Ancestry(parent, leaf)));
      }
    }
    forall i | 0 <= i < n && InWindow(p, w, i)
      ensures summed(p.samples[i]) == LabelCount(parent, labels, l, p.samples[i])
    {
      var leaf := p.samples[i];
      CountIsCardinality(ids, Ancestry(parent, leaf), id => weight(id, leaf));
      assert ids * Ancestry(parent, leaf) == Labelled(labels, l) * Ancestry(parent, leaf);
    }
    TimeSame(p, w, n, summed, leaf => LabelCount(parent, labels, l, leaf));
  }

  /** Smaller weights give no more time, and the same time only if they agree wherever time was spent. */
  lemma {:induction false} TimeMonotone(p: Profile, w: Window, n: nat, f: Id -> real, g: Id -> real)
    requires n <= |p.samples|
    requires forall i | 0 <= i < n :: Delta(p, i) >= 0.0
    requires forall x :: f(x) <= g(x)
    ensures TimeOf(p, w, n, f) <= TimeOf(p, w, n, g)
    ensures TimeOf(p, w, n, f) == TimeOf(p, w, n, g) <==>
              forall i | 0 <= i < n && Weight(p, w, i) > 0.0 :: f(p.samples[i]) == g(p.samples[i])
  {
    hide InWindow;
    if n > 0 {
      TimeMonotone(p, w, n - 1, f, g);
      var d, x := Weight(p, w, n - 1), p.samples[n - 1];
      TimesMonotone(d, f(x), g(x));
      assert (forall i | 0 <= i < n && Weight(p, w, i) > 0.0 :: f(p.samples[i]) == g(p.samples[i])) <==>
             (forall i | 0 <= i < n - 1 && Weight(p, w, i) > 0.0 :: f(p.samples[i]) == g(p.samples[i]))
               && (d > 0.0 ==> f(x) == g(x));
      hide Weight, Times;
    }
  }

  lemma TimesMonotone(d: real, a: real, b: real)
    requires d >= 0.0 && a <= b
    ensures Times(d, a) <= Times(d, b)
    ensures Times(d, a) == Times(d, b) <==> d == 0.0 || a == b
  {
    Distribute(d, a, b - a);
    assert a + (b - a) == b;
    if d > 0.0 && a < b {
      PositiveProduct(d, b - a);
    }
  }

  lemma PositiveProduct(a: real, b: real)
    requires a > 0.0 && b > 0.0
    ensures Times(a, b) > 0.0
  {
  }

  predicate HoldsLabel(parent: map<Id, Id>, labels: map<Id, string>, l: string, leaf: Id) {
    Labelled(labels, l) * Ancestry(parent, leaf) != {}
  }

  /**
   * With non-negative deltas the inclusive time of a label is at least the time of the samples whose chain holds
   * the label, and equals it exactly when no sample that took time holds it twice.
   */
  lemma LabelTimeIsUpperBound(p: Profile, w: Window, parent: map<Id, Id>, labels: map<Id, string>, l: string,
                              timed: set<Id>)
    requires forall i | 0 <= i < |p.samples| && InWindow(p, w, i) :: Ancestry(parent, p.samples[i]) <= timed
    requires forall i | 0 <= i < |p.samples| :: Delta(p, i) >= 0.0
    ensures var total := SumOver(timed * Labelled(labels, l), id => InclusiveTime(p, w, parent, |p.samples|, id));
      var once := TimeOf(p, w, |p.samples|, leaf => Indicator(HoldsLabel(parent, labels, l, leaf)));
      && once <= total
      && (once == total <==>
            forall i | 0 <= i < |p.samples| && Weight(p, w, i) > 0.0 ::
              |Labelled(labels, l) * Ancestry(parent, p.samples[i])| <= 1)
  {
    hide Ancestry, InWindow, Labelled, Delta;
    var n := |p.samples|;
    var once: Id -> real := leaf => Indicator(HoldsLabel(parent, labels, l, leaf));
    var count: Id -> real := leaf => LabelCount(parent, labels, l, leaf);
    LabelTimeCountsOccurrences(p, w, parent, labels, l, timed);
    forall leaf
      ensures once(leaf) <= count(leaf)
      ensures once(leaf) == count(leaf) <==> |Labelled(labels, l) * Ancestry(parent, leaf)| <= 1
    {
    }
    TimeMonotone(p, w, n, once, count);
  }

  /** The whole analysis: samples, then the rollups by caption and by category. */
  method Report(p: Profile, w: Window)
    returns (sampledUs: real, inclByLabel: map<string, real>, selfByLabel: map<string, real>, catSelf: map<string, real>)
    ensures sampledUs == SampledTime(p, w, |p.samples|)
    ensures forall l ::
              GetSum(inclByLabel, l)
                == TimeOf(p, w, |p.samples|, leaf => LabelCount(ParentMap(p.nodes), Captions(p.nodes), l, leaf))
    ensures forall l ::
              GetSum(selfByLabel, l)
                == TimeOf(p, w, |p.samples|, leaf => Indicator(leaf in Labelled(Captions(p.nodes), l)))
    ensures (forall i | 0 <= i < |p.samples| && InWindow(p, w, i) :: p.samples[i] in Categories(p.nodes)) ==>
              SumOver(catSelf.Keys, c => GetSum(catSelf, c)) == sampledUs
  {
    hide InWindow, Ancestry, ParentMap, Captions, Categories, SelfTime, InclusiveTime, SampledTime, LabelCount, TimeOf;
    var captions, categories := Captions(p.nodes), Categories(p.nodes);
    var selfTimeUs, inclTimeUs, sampled, parentOf := Analyze(p, w);
    sampledUs := sampled;
    inclByLabel := RollUp(inclTimeUs, captions);
    selfByLabel := RollUp(selfTimeUs, captions);
    catSelf := RollUp(selfTimeUs, categories);
    forall l
      ensures GetSum(inclByLabel, l) == TimeOf(p, w, |p.samples|, leaf => LabelCount(parentOf, captions, l, leaf))
    {
      assert SumFits(inclByLabel, inclTimeUs.Keys, inclTimeUs, captions, l);
      SumSame(inclTimeUs.Keys * Labelled(captions, l), id => Get(inclTimeUs, id),
              id => InclusiveTime(p, w, parentOf, |p.samples|, id));
      LabelTimeCountsOccurrences(p, w, parentOf, captions, l, inclTimeUs.Keys);
    }
    forall l
      ensures GetSum(selfByLabel, l) == TimeOf(p, w, |p.samples|, leaf => Indicator(leaf in Labelled(captions, l)))
    {
      assert SumFits(selfByLabel, selfTimeUs.Keys, selfTimeUs, captions, l);
      var ids := selfTimeUs.Keys * Labelled(captions, l);
      SumSame(ids, id => Get(selfTimeUs, id), id => SelfTime(p, w, |p.samples|, id));
      SelfTimesOfIds(p, w, ids);
      TimeSame(p, w, |p.samples|, leaf => Indicator(leaf in ids), leaf => Indicator(leaf in Labelled(captions, l)));
    }
    if forall i | 0 <= i < |p.samples| && InWindow(p, w, i) :: p.samples[i] in categories {
      forall id | id in selfTimeUs
        ensures id in categories
      {
        assert IsWindowLeaf(p, w, |p.samples|, id);
      }
      RollUpConserves(selfTimeUs, categories, catSelf);
      SumSame(selfTimeUs.Keys, id => Get(selfTimeUs, id), id => SelfTime(p, w, |p.samples|, id));
      SelfTimesSumToSampled(p, w, selfTimeUs.Keys);
    }
  }
}

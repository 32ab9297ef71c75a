/** The table of linked groups behind a changeset, what it must look like to stand for a scheduler state, and
    what the link operations do to it (internal/metastructure/changeset/changeset.go). */
module PipelineLinks {
  import opened Common
  import opened Digraph
  import opened Operations
  import opened Scheduler
  import opened UpdateGroup

  type Arena = map<OpUri, Group>

  /** The links stay among the groups that Init made. */
  ghost predicate GroupKnown(g: Group, keys: set<OpUri>) {
    && g.count <= |g.backing|
    && NoDup(g.upstream)
    && (forall m | m in g.upstream :: m in keys)
    && (forall m | m in g.backing :: m in keys)
  }

  ghost predicate LinksKnown(arena: Arena, keys: set<OpUri>) {
    forall n {:trigger arena[n]} | n in arena :: GroupKnown(arena[n], keys)
  }

  /** A live group waits exactly for those of its predecessors that have not succeeded yet, and its downstream
      list holds all its live successors and no strangers; it may keep successors that are gone. */
  ghost predicate LinksMatch(
    up: seq<OpUri>, down: seq<OpUri>, n: OpUri, edges: set<(OpUri, OpUri)>, succeeded: set<OpUri>, live: set<OpUri>)
  {
    && NoDup(up)
    && Elements(up) == Preds(edges, n) - succeeded
    && NoDup(down)
    && Elements(down) <= Succs(edges, n)
    && Succs(edges, n) * live <= Elements(down)
  }

  /** Everything but the states of the updates. */
  ghost predicate Structure(arena: Arena, model: Sched) {
    && model.Inv()
    && model.ops.Keys == arena.Keys
    && (forall n | n in model.ops :: model.ops[n].Node() == n)
    && LinksKnown(arena, model.ops.Keys)
    && (forall n | n in model.Live() ::
          LinksMatch(arena[n].upstream, arena[n].Downstream(), n, model.edges, model.succeeded, model.Live()))
    && (forall n | n in arena && n !in model.Live() :: arena[n].updates == [])
  }

  lemma {:induction false} NothingUpstream(
    up: seq<OpUri>, down: seq<OpUri>, n: OpUri, edges: set<(OpUri, OpUri)>, succeeded: set<OpUri>, live: set<OpUri>)
    requires LinksMatch(up, down, n, edges, succeeded, live)
    ensures |up| == 0 <==> Preds(edges, n) <= succeeded
  {
    if |up| != 0 {
      assert up[0] in Elements(up);
    } else {
      forall p | p in Preds(edges, n) ensures p in succeeded {
        assert p !in Elements(up);
      }
    }
  }

  ghost function StateOf(model: Sched, n: OpUri): UpdateState {
    if n in model.started then InProgress else NotStarted
  }

  /** Starting an operation changes no link. */
  lemma {:induction false} StartStructure(arena: Arena, model: Sched, n: OpUri, us: seq<ResourceUpdate>)
    requires Structure(arena, model) && n in model.Live() && model.IsReady(n)
    ensures Structure(arena[n := arena[n].(updates := us)], model.Start({n}))
  {
    StartKeepsInv(model, {n});
    hide Sched.Inv, LinksMatch, GroupKnown, Sched.IsReady;
    var r, t := arena[n := arena[n].(updates := us)], model.Start({n});
    assert r.Keys == arena.Keys && t.Live() == model.Live();
    forall m | m in r ensures GroupKnown(r[m], t.ops.Keys) {
      assert GroupKnown(arena[m], model.ops.Keys);
      GroupKnownLinks(arena[m], r[m], model.ops.Keys);
    }
  }

  lemma {:induction false} GroupKnownLinks(g: Group, h: Group, keys: set<OpUri>)
    requires GroupKnown(g, keys) && h == g.(updates := h.updates)
    ensures GroupKnown(h, keys)
  {
  }

  /** How many of these operations fall in each namespace. */
  function Tally(ops: map<OpUri, ResourceUpdate>, s: seq<OpUri>): map<string, int>
    requires forall n | n in s :: n in ops
  {
    if s == [] then map[]
    else
      var rest, ns := Tally(ops, s[..|s| - 1]), ops[s[|s| - 1]].Namespace();
      rest[ns := if ns in rest then rest[ns] + 1 else 1]
  }

  ghost function InNamespace(ops: map<OpUri, ResourceUpdate>, s: seq<OpUri>, namespace: string): set<OpUri>
    requires forall n | n in s :: n in ops
  {
    set n | n in s && ops[n].Namespace() == namespace
  }

  lemma {:induction false} TallyCounts(ops: map<OpUri, ResourceUpdate>, s: seq<OpUri>, ns: string)
    requires forall n | n in s :: n in ops
    requires NoDup(s)
    ensures ns in Tally(ops, s) <==> InNamespace(ops, s, ns) != {}
    ensures ns in Tally(ops, s) ==> Tally(ops, s)[ns] == |InNamespace(ops, s, ns)|
  {
    hide FirstFragment, InNamespace;
    if s != [] {
      TallyCounts(ops, s[..|s| - 1], ns);
      OneMoreInNamespace(ops, s, ns);
    } else {
      NoneInNamespace(ops, ns);
    }
  }

  lemma {:induction false} NoneInNamespace(ops: map<OpUri, ResourceUpdate>, ns: string)
    ensures InNamespace(ops, [], ns) == {}
  {
  }

  lemma {:induction false} OneMoreInNamespace(ops: map<OpUri, ResourceUpdate>, s: seq<OpUri>, ns: string)
    requires (forall n | n in s :: n in ops) && NoDup(s) && s != []
    ensures var init, last := s[..|s| - 1], s[|s| - 1];
            && InNamespace(ops, s, ns) ==
               InNamespace(ops, init, ns) + (if ops[last].Namespace() == ns then {last} else {})
            && last !in InNamespace(ops, init, ns)
  {
    hide FirstFragment;
    assert s == s[..|s| - 1] + [s[|s| - 1]];
  }

  /** The ready operations among those looked at, each once. */
  ghost predicate IsFound(m: Sched, done: set<OpUri>, found: seq<OpUri>) {
    NoDup(found) && forall n :: n in found <==> n in done && n in m.ops && m.IsReady(n)
  }

  lemma {:induction false} NothingFound(m: Sched)
    ensures IsFound(m, {}, []) && Tally(m.ops, []) == map[]
  {
  }

  lemma {:induction false} FindMore(m: Sched, done: set<OpUri>, found: seq<OpUri>, n: OpUri)
    requires IsFound(m, done, found) && n !in done && n in m.ops
    ensures IsFound(m, done + {n}, if m.IsReady(n) then found + [n] else found)
    ensures var ns, t := m.ops[n].Namespace(), Tally(m.ops, found);
            m.IsReady(n) ==> Tally(m.ops, found + [n]) == t[ns := if ns in t then t[ns] + 1 else 1]
  {
    hide FirstFragment, Sched.IsReady;
    assert (found + [n])[..|found|] == found;
  }

  lemma {:induction false} AllFound(m: Sched, done: set<OpUri>, found: seq<OpUri>, ns: string)
    requires IsFound(m, done, found) && done == m.Live()
    ensures ns in Tally(m.ops, found) <==> m.Ready(ns) != {}
    ensures ns in Tally(m.ops, found) ==> Tally(m.ops, found)[ns] == |m.Ready(ns)|
  {
    hide Tally, FirstFragment, Sched.IsReady;
    TallyCounts(m.ops, found, ns);
    assert InNamespace(m.ops, found, ns) == m.Ready(ns);
  }

  lemma {:induction false} NoDupElements<T>(s: seq<T>)
    requires NoDup(s)
    ensures |Elements(s)| == |s|
  {
    if s != [] {
      var init, last := s[..|s| - 1], s[|s| - 1];
      NoDupElements(init);
      assert s == init + [last];
      assert Elements(s) == Elements(init) + {last};
    }
  }

  lemma {:induction false} BatchSize(m: Sched, namespace: string, order: seq<OpUri>, max: int)
    requires NoDup(order) && forall n | n in order :: n in m.Ready(namespace)
    requires |order| <= max || |order| == 0
    requires |order| >= max || forall n | n in m.Ready(namespace) :: n in order
    ensures Elements(order) <= m.Ready(namespace)
    ensures |order| == (if max < 0 then 0 else if max < |m.Ready(namespace)| then max
                                  else |m.Ready(namespace)|)
  {
    NoDupElements(order);
    SubsetSize(Elements(order), m.Ready(namespace));
    if |order| < max {
      assert Elements(order) == m.Ready(namespace);
    }
  }

  /** The ready operations of a namespace collected from those looked at, up to a number. */
  ghost predicate Collected(m: Sched, namespace: string, done: set<OpUri>, order: seq<OpUri>, max: int) {
    && NoDup(order) && (forall n | n in order :: n in done && n in m.Ready(namespace))
    && (|order| <= max || order == [])
    && (|order| >= max || forall n | n in done && n in m.Ready(namespace) :: n in order)
  }

  lemma {:induction false} NothingCollected(m: Sched, namespace: string, max: int)
    ensures Collected(m, namespace, {}, [], max) && m == m.Start(Elements([]))
  {
  }

  /** One more operation is looked at: it is ready now exactly if it was at first, and is taken if there is room. */
  lemma {:induction false} CollectMore(
    m: Sched, namespace: string, done: set<OpUri>, order: seq<OpUri>, max: int, n: OpUri)
    requires Collected(m, namespace, done, order, max) && n !in done && n in m.ops
    ensures var take := |order| < max && m.Start(Elements(order)).IsReady(n) && m.ops[n].Namespace() == namespace;
            Collected(m, namespace, done + {n}, if take then order + [n] else order, max)
    ensures m.Start(Elements(order)).Start({n}) == m.Start(Elements(order + [n]))
  {
    assert m.Start(Elements(order)).IsReady(n) <==> m.IsReady(n);
    assert Elements(order + [n]) == Elements(order) + {n};
    assert m.started + Elements(order) + {n} == m.started + Elements(order + [n]);
  }

  lemma {:induction false} AllCollected(m: Sched, namespace: string, done: set<OpUri>, order: seq<OpUri>, max: int)
    requires Collected(m, namespace, done, order, max) && done == m.Live()
    ensures NoDup(order) && Elements(order) <= m.Ready(namespace)
    ensures |order| == (if max < 0 then 0 else if max < |m.Ready(namespace)| then max
                                  else |m.Ready(namespace)|)
  {
    BatchSize(m, namespace, order, max);
  }

  // ----- The link operations -----

  /** Group `d` no longer lists `n` upstream. */
  function RemoveUp(arena: Arena, d: OpUri, n: OpUri): Arena
    requires d in arena
  {
    arena[d := arena[d].(upstream := Without(arena[d].upstream, n))]
  }

  /** Groups `d` and `n` no longer list each other, and the array behind n's downstream slice has shifted. */
  function Unlink(arena: Arena, d: OpUri, n: OpUri): Arena
    requires d in arena && n in arena && d != n && arena[n].count <= |arena[n].backing|
  {
    RemoveUp(arena, d, n)[n := Shrink(arena[n], d)]
  }

  /** Takes `d` out of the downstream slice by shifting the array behind it. */
  function Shrink(g: Group, d: OpUri): Group
    requires g.count <= |g.backing|
  {
    g.(backing := ShiftedDown(g.backing, g.count, d), count := if d in g.Downstream() then g.count - 1 else g.count)
  }

  lemma {:induction false} ShrinkSlice(g: Group, d: OpUri, bound: nat, slice: seq<OpUri>)
    requires g.count <= bound <= |g.backing| && NoDup(g.Downstream())
    requires forall i | 0 <= i < bound :: g.backing[i] in slice
    ensures Shrink(g, d).count <= g.count && |Shrink(g, d).backing| == |g.backing|
    ensures NoDup(Shrink(g, d).Downstream())
    ensures forall m :: m in Shrink(g, d).Downstream() <==> m in g.Downstream() && m != d
    ensures forall m | m in Shrink(g, d).backing :: m in g.backing
    ensures forall i | 0 <= i < bound :: Shrink(g, d).backing[i] in slice
  {
    ShiftedDownSlice(g.backing, g.count, d);
    ShiftStaysInside(g.backing, g.count, bound, d, slice);
    WithoutRemoves(g.Downstream(), d);
    hide ShiftedDown, Without;
    assert Shrink(g, d).Downstream() == Without(g.Downstream(), d);
    forall m ensures m in Shrink(g, d).Downstream() <==> m in g.Downstream() && m != d {
      assert m in Elements(Without(g.Downstream(), d)) <==> m in Elements(g.Downstream()) - {d};
    }
  }

  /** `n` is done and everything else is as in `before`, except that some groups have stopped waiting for `n`:
      all of its original downstream groups but those in `rest`. */
  ghost predicate Unlinking(before: Arena, after: Arena, n: OpUri, rest: seq<OpUri>)
    requires n in before
  {
    && after.Keys == before.Keys
    && Shrunken(before[n], after[n])
    && (forall m | m in before && m != n :: after[m] == before[m] || after[m] == StoppedWaiting(before[m], n))
    && (forall m | m in before[n].Downstream() && m in before && m !in rest :: after[m] == StoppedWaiting(before[m], n))
  }

  /** A finished group whose downstream slice has lost elements to shifts within itself. */
  ghost predicate Shrunken(g: Group, h: Group) {
    && h.updates == []
    && |h.backing| == |g.backing|
    && h.count <= g.count <= |g.backing|
    && NoDup(h.Downstream())
    && h.upstream == g.upstream
    && (forall m | m in h.backing :: m in g.backing)
    && (forall i | 0 <= i < g.count :: h.backing[i] in g.Downstream())
  }

  lemma {:induction false} ShrinkAgain(g: Group, h: Group, d: OpUri)
    requires Shrunken(g, h)
    ensures h.count <= |h.backing| && Shrunken(g, Shrink(h, d))
    ensures forall m :: m in Shrink(h, d).Downstream() <==> m in h.Downstream() && m != d
  {
    ShrinkSlice(h, d, g.count, g.Downstream());
    hide ShiftedDown;
  }

  ghost function StoppedWaiting(g: Group, n: OpUri): Group { g.(upstream := Without(g.upstream, n)) }

  lemma {:induction false} SameDownstream(g: Group, n: OpUri)
    ensures StoppedWaiting(g, n).Downstream() == g.Downstream()
  {
  }

  lemma {:induction false} StoppedWaitingTwice(g: Group, n: OpUri)
    requires NoDup(g.upstream)
    ensures StoppedWaiting(StoppedWaiting(g, n), n) == StoppedWaiting(g, n)
  {
    WithoutRemoves(g.upstream, n);
    WithoutRemoves(Without(g.upstream, n), n);
  }

  /** Shifting a part of the slice moves elements only inside the original slice. */
  lemma {:induction false} ShiftStaysInside(backing: seq<OpUri>, count: nat, bound: nat, x: OpUri, slice: seq<OpUri>)
    requires count <= bound <= |backing| && forall i | 0 <= i < bound :: backing[i] in slice
    ensures forall i | 0 <= i < bound :: ShiftedDown(backing, count, x)[i] in slice
  {
    var k := IndexOf(backing[..count], x);
    var r := ShiftedDown(backing, count, x);
    if k < count {
      assert forall i | 0 <= i < bound :: r[i] == if k <= i < count - 1 then backing[i + 1] else backing[i];
    }
  }

  /** One round of the loop over the shifting slice. */
  lemma {:induction false} UnlinkStep(before: Arena, arena: Arena, n: OpUri, d: OpUri)
    requires n in before && n in arena && Unlinking(before, arena, n, arena[n].Downstream())
    requires d in before && d != n && d in before[n].Downstream() && NoDup(before[d].upstream)
    ensures Unlinking(before, Unlink(arena, d, n), n, Unlink(arena, d, n)[n].Downstream())
  {
    hide Shrunken, Shrink, Without, NoDup, Group.Downstream;
    ShrinkAgain(before[n], arena[n], d);
    StoppedWaitingTwice(before[d], n);
    var r := Unlink(arena, d, n);
    assert r.Keys == before.Keys && r[n] == Shrink(arena[n], d) && r[d] == StoppedWaiting(before[d], n);
    assert forall m | m in before && m != n && m != d :: r[m] == arena[m];
    forall m | m in before[n].Downstream() && m in before && m !in r[n].Downstream()
      ensures r[m] == StoppedWaiting(before[m], n)
    {
      assert m !in arena[n].Downstream() || m == d;
      SameDownstream(before[m], n);
    }
  }

  /** One round of the loop that covers the groups the first loop skipped. */
  lemma {:induction false} RemoveUpStep(before: Arena, arena: Arena, n: OpUri, rest: seq<OpUri>)
    requires n in before && rest != [] && Unlinking(before, arena, n, rest)
    requires rest[0] in before && rest[0] != n && NoDup(before[rest[0]].upstream)
    ensures Unlinking(before, RemoveUp(arena, rest[0], n), n, rest[1..])
  {
    var d := rest[0];
    StoppedWaitingTwice(before[d], n);
    assert RemoveUp(arena, d, n)[d] == StoppedWaiting(before[d], n);
    assert rest == [d] + rest[1..];
  }

  /** What a live group lists downstream. */
  lemma {:induction false} DownstreamOf(arena: Arena, model: Sched, n: OpUri)
    requires Structure(arena, model) && n in model.Live()
    ensures arena[n].count <= |arena[n].backing| && NoDup(arena[n].Downstream())
    ensures forall d | d in arena[n].Downstream() :: d in arena && d != n && NoDup(arena[d].upstream)
  {
    assert GroupKnown(arena[n], model.ops.Keys);
    assert LinksMatch(arena[n].upstream, arena[n].Downstream(), n, model.edges, model.succeeded, model.Live());
    forall d | d in arena[n].Downstream() ensures d in arena && d != n && NoDup(arena[d].upstream) {
      assert d in Elements(arena[n].Downstream());
      assert (n, d) in model.edges;
      assert GroupKnown(arena[d], model.ops.Keys);
      if d == n {
        assert IsClosedWalk(model.edges, [n, n]);
      }
    }
  }

  lemma {:induction false} NothingUnlinked(arena: Arena, model: Sched, n: OpUri)
    requires Structure(arena, model) && n in model.Live() && arena[n].updates == []
    ensures n in arena && Unlinking(arena, arena, n, arena[n].Downstream())
  {
    DownstreamOf(arena, model, n);
  }

  /** Nobody that is left still waits for the finished operation, whichever loop took it out. */
  lemma {:induction false} SuccessStructure(before: Arena, after: Arena, model: Sched, n: OpUri)
    requires Structure(before, model) && n in model.Running() && Unlinking(before, after, n, [])
    ensures Structure(after, model.Succeed(n))
    ensures forall m | m in before && m != n :: after[m].updates == before[m].updates
  {
    SucceedKeepsInv(model, n);
    var t := model.Succeed(n);
    forall m | m in t.Live()
      ensures LinksMatch(after[m].upstream, after[m].Downstream(), m, t.edges, t.succeeded, t.Live())
    {
      SuccessLinks(before, after, model, n, m);
    }
    forall m | m in after ensures GroupKnown(after[m], t.ops.Keys) {
      UnlinkingKnown(before, after, model.ops.Keys, n, m);
    }
  }

  lemma {:induction false} UnlinkingKnown(before: Arena, after: Arena, keys: set<OpUri>, n: OpUri, m: OpUri)
    requires LinksKnown(before, keys) && n in before && m in before && Unlinking(before, after, n, [])
    ensures GroupKnown(after[m], keys)
  {
    assert GroupKnown(before[m], keys);
    WithoutSubset(before[m].upstream, n);
    if m == n {
      forall x | x in after[n].backing ensures x in keys {
        var i :| 0 <= i < |after[n].backing| && after[n].backing[i] == x;
      }
    }
  }

  lemma {:induction false} SuccessLinks(before: Arena, after: Arena, model: Sched, n: OpUri, m: OpUri)
    requires Structure(before, model) && n in model.Running() && Unlinking(before, after, n, [])
    requires m in model.Live() && m != n
    ensures LinksMatch(after[m].upstream, after[m].Downstream(), m,
                       model.edges, model.succeeded + {n}, model.Live() - {n})
  {
    var up := before[m].upstream;
    assert LinksMatch(up, before[m].Downstream(), m, model.edges, model.succeeded, model.Live());
    assert LinksMatch(before[n].upstream, before[n].Downstream(), n, model.edges, model.succeeded, model.Live());
    WithoutRemoves(up, n);
    if n in up {
      assert n in Elements(up);
      assert (n, m) in model.edges;
      assert m in Succs(model.edges, n) * model.Live();
      assert m in Elements(before[n].Downstream());
      assert after[m].upstream == Without(up, n);
    } else {
      assert after[m].upstream == up;
    }
    assert Elements(after[m].upstream) == Elements(up) - {n};
  }

  // ----- Cascading failures -----

  /** The failure of `root` is being passed on: its group is empty, the groups in `marked` have been set to
      Failed and the rest are as before. */
  ghost predicate Cascading(arena: Arena, model: Sched, root: OpUri, marked: set<OpUri>) {
    && Structure(arena, model) && arena.Keys == model.ops.Keys
    && root in model.Running() && root in model.Live() && arena[root].updates == []
    && marked <= model.Live() - {root} && marked !! model.started
    && (forall m | m in model.Live() && m != root ::
          arena[m].updates == [model.ops[m].(state := if m in marked then Failed else StateOf(model, m))])
  }

  /** Everything live that directly waits for `x` has been marked. */
  ghost predicate PassedOn(model: Sched, x: OpUri, marked: set<OpUri>, root: OpUri) {
    Succs(model.edges, x) * model.Live() <= marked + {root}
  }

  /** Between two points of a cascade that started from `from`, the operations in `order` have been marked, each
      once, and each has passed the failure on. */
  ghost predicate Cascaded(
    model: Sched, root: OpUri, from: OpUri, marked: set<OpUri>, marked': set<OpUri>, order: seq<OpUri>)
  {
    && NoDup(order) && Elements(order) !! marked && marked' == marked + Elements(order)
    && (forall x | x in order :: Reaches(model.edges, from, x) && PassedOn(model, x, marked', root))
  }

  /** The list `us'` is `us` followed by the failed updates of the operations in `order`. */
  ghost predicate Reported(
    us: seq<ResourceUpdate>, us': seq<ResourceUpdate>, ops: map<OpUri, ResourceUpdate>, order: seq<OpUri>)
  {
    && |us'| == |us| + |order|
    && us <= us'
    && forall i | 0 <= i < |order| :: order[i] in ops && us'[|us| + i] == ops[order[i]].(state := Failed)
  }

  lemma {:induction false} ReportedTwice(
    a: seq<ResourceUpdate>, b: seq<ResourceUpdate>, c: seq<ResourceUpdate>,
    ops: map<OpUri, ResourceUpdate>, o1: seq<OpUri>, o2: seq<OpUri>)
    requires Reported(a, b, ops, o1) && Reported(b, c, ops, o2)
    ensures Reported(a, c, ops, o1 + o2)
  {
    forall i | 0 <= i < |o1 + o2|
      ensures (o1 + o2)[i] in ops && c[|a| + i] == ops[(o1 + o2)[i]].(state := Failed)
    {
      if i < |o1| {
        assert c[|a| + i] == b[|a| + i];
      } else {
        assert |b| + (i - |o1|) == |a| + i && (o1 + o2)[i] == o2[i - |o1|];
      }
    }
  }

  lemma {:induction false} ReportedFirst(
    a: seq<ResourceUpdate>, u: ResourceUpdate, c: seq<ResourceUpdate>,
    ops: map<OpUri, ResourceUpdate>, d: OpUri, order: seq<OpUri>)
    requires d in ops && u == ops[d].(state := Failed) && Reported(a + [u], c, ops, order)
    ensures Reported(a, c, ops, [d] + order)
  {
    assert Reported(a, a + [u], ops, [d]);
    ReportedTwice(a, a + [u], c, ops, [d], order);
  }

  lemma {:induction false} CascadedTwice(
    model: Sched, root: OpUri, from: OpUri, m0: set<OpUri>, m1: set<OpUri>, m2: set<OpUri>,
    o1: seq<OpUri>, o2: seq<OpUri>)
    requires Cascaded(model, root, from, m0, m1, o1) && Cascaded(model, root, from, m1, m2, o2)
    ensures Cascaded(model, root, from, m0, m2, o1 + o2)
  {
    var o := o1 + o2;
    assert Elements(o) == Elements(o1) + Elements(o2);
    forall i, j | 0 <= i < j < |o| ensures o[i] != o[j] {
      if i < |o1| <= j {
        assert o[i] in Elements(o1) && o[j] in Elements(o2);
      }
    }
  }

  lemma {:induction false} CascadedThrough(
    model: Sched, root: OpUri, n: OpUri, d: OpUri, m0: set<OpUri>, m2: set<OpUri>, o: seq<OpUri>)
    requires (n, d) in model.edges && d !in m0
    requires Cascaded(model, root, d, m0 + {d}, m2, o) && PassedOn(model, d, m2, root)
    ensures Cascaded(model, root, n, m0, m2, [d] + o)
  {
    assert Elements([d] + o) == {d} + Elements(o);
    forall x | x in [d] + o ensures Reaches(model.edges, n, x) && PassedOn(model, x, m2, root) {
      if x == d {
        ReachesSelf(model.edges, d);
      }
      ReachesEdgeFirst(model.edges, n, d, x);
    }
    forall i, j | 0 <= i < j < |[d] + o| ensures ([d] + o)[i] != ([d] + o)[j] {
      if i == 0 {
        assert ([d] + o)[j] in Elements(o);
      }
    }
  }

  lemma {:induction false} CascadedIncludes(
    model: Sched, root: OpUri, from: OpUri, marked: set<OpUri>, marked': set<OpUri>, order: seq<OpUri>)
    requires Cascaded(model, root, from, marked, marked', order) && order != []
    ensures order[0] in marked'
  {
    assert order[0] in Elements(order);
  }

  /** The states of the updates of live groups are no part of the structure. */
  lemma {:induction false} SetUpdates(arena: Arena, model: Sched, n: OpUri, us: seq<ResourceUpdate>)
    requires Structure(arena, model) && n in model.Live()
    ensures Structure(arena[n := arena[n].(updates := us)], model)
  {
    hide Sched.Inv, LinksMatch, GroupKnown;
    var r := arena[n := arena[n].(updates := us)];
    assert r.Keys == arena.Keys;
    forall m | m in r ensures GroupKnown(r[m], model.ops.Keys) {
      assert GroupKnown(arena[m], model.ops.Keys);
      GroupKnownLinks(arena[m], r[m], model.ops.Keys);
    }
  }

  lemma {:induction false} CascadeBegins(arena: Arena, model: Sched, root: OpUri)
    requires Structure(arena, model) && root in model.Running() && root in model.Live() && arena[root].updates == []
    requires forall m | m in model.Live() && m != root :: arena[m].updates == [model.ops[m].(state :=
              StateOf(model, m))]
    ensures Cascading(arena, model, root, {})
  {
    hide LinksMatch, LinksKnown, Sched.Inv;
  }

  /** The failed updates, root last, with the operations they belong to. */
  ghost predicate FailedList(failed: seq<ResourceUpdate>, nodes: seq<OpUri>) {
    && NoDup(nodes) && |failed| == |nodes|
    && forall i | 0 <= i < |nodes| :: failed[i].Node() == nodes[i]
  }

  lemma {:induction false} FailedListOf(
    arena: Arena, model: Sched, root: OpUri, marked: set<OpUri>, order: seq<OpUri>,
    failed: seq<ResourceUpdate>, update: ResourceUpdate)
    requires Cascading(arena, model, root, marked) && Cascaded(model, root, root, {}, marked, order)
    requires Reported([], failed, model.ops, order) && update.Node() == root
    ensures FailedList(failed + [update], order + [root])
    ensures Elements(order + [root]) == marked + {root}
  {
    hide LinksMatch, LinksKnown, Sched.Inv, PassedOn;
    forall i | 0 <= i < |order| ensures failed[i].Node() == order[i] && order[i] != root {
      assert failed[0 + i] == model.ops[order[i]].(state := Failed);
      assert order[i] in Elements(order);
    }
  }

  /** What a group that has not been taken out yet still holds is the failed update, or nothing. */
  lemma {:induction false} StillToPop(
    before: Arena, arena: Arena, model: Sched, root: OpUri, marked: set<OpUri>, gone: set<OpUri>, f: OpUri)
    requires Cascading(before, model, root, marked) && Dropped(before, arena, model, gone)
    requires f in marked + {root} && f !in gone
    ensures f in arena && f in model.Live() && WithoutUpdate(arena[f].updates, f) == []
  {
    assert Released(before[f], arena[f], gone);
  }

  lemma {:induction false} MarkStep(arena: Arena, model: Sched, root: OpUri, marked: set<OpUri>, d: OpUri)
    requires Cascading(arena, model, root, marked)
    requires d in model.Live() && d != root && d !in marked && d !in model.started
    ensures Cascading(arena[d := arena[d].(updates := [model.ops[d].(state := Failed)])], model, root, marked + {d})
  {
    SetUpdates(arena, model, d, [model.ops[d].(state := Failed)]);
    hide Structure;
  }

  /** The updates a cascade finds in a group that has not been started. */
  lemma {:induction false} UpdatesMet(arena: Arena, model: Sched, root: OpUri, marked: set<OpUri>, d: OpUri)
    requires Cascading(arena, model, root, marked) && d in arena && d !in model.started
    ensures d in model.ops && d != root
    ensures d !in model.Live() ==> arena[d].updates == []
    ensures d in model.Live() ==> arena[d].updates == [model.ops[d].(state :=
              if d in marked then Failed else NotStarted)]
    ensures d in marked ==> d in model.Live()
  {
  }

  /** What a live group lists downstream, as seen by the cascade. */
  lemma {:induction false} DownstreamView(arena: Arena, model: Sched, root: OpUri, marked: set<OpUri>, n: OpUri)
    requires Cascading(arena, model, root, marked) && n in model.Live()
    ensures forall d | d in arena[n].Downstream() :: d in arena && (n, d) in model.edges && d !in model.started
    ensures Succs(model.edges, n) * model.Live() <= Elements(arena[n].Downstream())
  {
    assert LinksMatch(arena[n].upstream, arena[n].Downstream(), n, model.edges, model.succeeded, model.Live());
    forall d | d in arena[n].Downstream() ensures d in arena && (n, d) in model.edges && d !in model.started {
      assert d in Elements(arena[n].Downstream());
      assert (n, d) in model.edges;
    }
  }

  /** A group whose downstream groups have all been dealt with has passed the failure on. */
  lemma {:induction false} PassedOnTo(model: Sched, n: OpUri, down: seq<OpUri>, marked: set<OpUri>, root: OpUri)
    requires Succs(model.edges, n) * model.Live() <= Elements(down)
    requires forall k | 0 <= k < |down| && down[k] in model.Live() :: down[k] in marked + {root}
    ensures PassedOn(model, n, marked, root)
  {
    forall d | d in Succs(model.edges, n) * model.Live() ensures d in marked + {root} {
      assert d in Elements(down);
      var k :| 0 <= k < |down| && down[k] == d;
    }
  }

  lemma {:induction false} CascadedNothing(
    model: Sched, root: OpUri, from: OpUri, marked: set<OpUri>, failed: seq<ResourceUpdate>)
    ensures Cascaded(model, root, from, marked, marked, []) && Reported(failed, failed, model.ops, [])
  {
  }

  lemma {:induction false} CascadeOver(
    arena: Arena, model: Sched, root: OpUri, marked: set<OpUri>, order: seq<OpUri>)
    requires Cascading(arena, model, root, marked)
    requires Cascaded(model, root, root, {}, marked, order) && PassedOn(model, root, marked, root)
    ensures marked == model.Dependents(root) && Structure(arena, model)
    ensures forall m | m in model.Live() && m != root && m !in marked ::
              m in arena && m in model.ops && arena[m].updates == [model.ops[m].(state := StateOf(model, m))]
  {
    CascadeIsDependents(model, root, marked, order);
  }

  /** A cascade that has passed on from its root has marked exactly the live dependents. */
  lemma {:induction false} CascadeIsDependents(model: Sched, root: OpUri, marked: set<OpUri>, order: seq<OpUri>)
    requires model.Inv() && root in model.Running() && marked <= model.Live() - {root}
    requires Cascaded(model, root, root, {}, marked, order) && PassedOn(model, root, marked, root)
    ensures marked == model.Dependents(root)
  {
    var closed := marked + {root} + model.failed;
    forall e | e in model.edges && e.0 in closed ensures e.1 in closed {
      if e.0 !in model.failed {
        assert e.1 !in model.started;
        if e.1 in model.Live() {
          assert e.1 in Succs(model.edges, e.0) * model.Live();
          assert PassedOn(model, e.0, marked, root);
        }
      }
    }
    forall d | d in model.Dependents(root) ensures d in marked {
      var w :| WalkFromTo(model.edges, root, d, w);
      ClosedUnderReach(model.edges, closed, w);
    }
  }

  // ----- Taking failed groups out -----

  /** A group that waits for nobody in `gone` any more and for the same others as before. */
  ghost predicate Released(before: Group, after: Group, gone: set<OpUri>) {
    && after.updates == before.updates
    && NoDup(after.upstream)
    && Elements(after.upstream) == Elements(before.upstream) - gone
  }

  ghost predicate SameOrLess(before: Group, after: Group) {
    && after.backing == before.backing && after.count == before.count
    && (forall x | x in after.upstream :: x in before.upstream)
    && (NoDup(before.upstream) ==> NoDup(after.upstream))
  }

  /** The operations in `gone` have been taken out; `f` is being taken out, with the groups in `rest` still to
      be told. */
  ghost predicate Dropping(
    before: Arena, after: Arena, model: Sched, gone: set<OpUri>, f: OpUri, rest: seq<OpUri>)
    requires model.ops.Keys == before.Keys
  {
    && after.Keys == before.Keys
    && (forall m {:trigger after[m]} | m in before :: SameOrLess(before[m], after[m]))
    && (forall m {:trigger after[m]} | m in before && (m in gone || m == f || m !in model.Live()) ::
        after[m].updates == [])
    && (forall m {:trigger after[m]} | m in model.Live() && m !in gone && m != f ::
          Released(before[m], after[m], if m in rest then gone else gone + {f}))
  }

  lemma {:induction false} ReleasedMore(before: Group, after: Group, gone: set<OpUri>, f: OpUri)
    requires Released(before, after, gone)
    ensures Released(before, StoppedWaiting(after, f), gone + {f})
    ensures f !in before.upstream ==> Released(before, after, gone + {f})
    ensures f in gone ==> StoppedWaiting(after, f) == after
  {
    WithoutRemoves(after.upstream, f);
    if f in after.upstream {
      assert f in Elements(after.upstream);
    }
    if f !in before.upstream {
      assert f !in Elements(before.upstream);
      assert Elements(before.upstream) - (gone + {f}) == Elements(before.upstream) - gone;
    }
    assert Elements(before.upstream) - (gone + {f}) == Elements(before.upstream) - gone - {f};
  }

  lemma {:induction false} WithoutSubset<T>(s: seq<T>, x: T)
    ensures forall y | y in Without(s, x) :: y in s
    ensures NoDup(s) ==> NoDup(Without(s, x))
  {
    if NoDup(s) {
      WithoutRemoves(s, x);
    }
  }

  /** The operations in `gone` have been taken out. */
  ghost predicate Dropped(before: Arena, after: Arena, model: Sched, gone: set<OpUri>)
    requires model.ops.Keys == before.Keys
  {
    && after.Keys == before.Keys
    && (forall m {:trigger after[m]} | m in before :: SameOrLess(before[m], after[m]))
    && (forall m {:trigger after[m]} | m in before && (m in gone || m !in model.Live()) :: after[m].updates == [])
    && (forall m {:trigger after[m]} | m in model.Live() && m !in gone :: Released(before[m], after[m], gone))
  }

  lemma {:induction false} DropNothing(arena: Arena, model: Sched)
    requires Structure(arena, model)
    ensures Dropped(arena, arena, model, {})
  {
    forall m | m in model.Live() ensures Released(arena[m], arena[m], {}) {
      assert GroupKnown(arena[m], model.ops.Keys);
    }
  }

  lemma {:induction false} DropEnd(before: Arena, arena: Arena, model: Sched, gone: set<OpUri>, f: OpUri)
    requires model.ops.Keys == before.Keys && Dropping(before, arena, model, gone, f, [])
    ensures Dropped(before, arena, model, gone + {f})
  {
  }

  /** A live group that the finished group does not list downstream does not wait for it. */
  lemma {:induction false} DropStart(before: Arena, arena: Arena, model: Sched, gone: set<OpUri>, f: OpUri, m: OpUri)
    requires Structure(before, model) && f in model.Live() && m in model.Live() && m in arena
    requires Released(before[m], arena[m], gone)
    ensures m !in before[f].Downstream() ==> Released(before[m], arena[m], gone + {f})
  {
    assert LinksMatch(before[m].upstream, before[m].Downstream(), m, model.edges, model.succeeded, model.Live());
    assert LinksMatch(before[f].upstream, before[f].Downstream(), f, model.edges, model.succeeded, model.Live());
    ReleasedMore(before[m], arena[m], gone, f);
    if f in before[m].upstream {
      assert f in Elements(before[m].upstream);
      assert (f, m) in model.edges;
      assert m in Succs(model.edges, f) * model.Live();
      assert m in Elements(before[f].Downstream());
    }
  }

  /** A failed operation's update is popped. */
  lemma {:induction false} EmptiedIsLess(before: Group, after: Group)
    requires SameOrLess(before, after)
    ensures SameOrLess(before, after.(updates := []))
  {
  }

  lemma {:induction false} DropPop(before: Arena, arena: Arena, model: Sched, gone: set<OpUri>, f: OpUri)
    requires Structure(before, model) && Dropped(before, arena, model, gone)
    requires f in model.Live() && f !in gone
    ensures Dropping(before, arena[f := arena[f].(updates := [])], model, gone, f, before[f].Downstream())
  {
    hide Released, SameOrLess, LinksMatch, LinksKnown, Sched.Inv, GroupKnown, Group.Downstream;
    var r := arena[f := arena[f].(updates := [])];
    assert f in before && SameOrLess(before[f], arena[f]);
    EmptiedIsLess(before[f], arena[f]);
    assert r.Keys == before.Keys;
    forall m | m in model.Live() && m !in gone && m != f
      ensures Released(before[m], r[m], if m in before[f].Downstream() then gone else gone + {f})
    {
      DropStart(before, arena, model, gone, f, m);
    }
  }

  lemma {:induction false} DropRest(
    before: Arena, arena: Arena, model: Sched, gone: set<OpUri>, f: OpUri, rest: seq<OpUri>)
    requires model.ops.Keys == before.Keys && rest != [] && NoDup(rest) && rest[0] in before
    requires Dropping(before, arena, model, gone, f, rest)
    ensures Dropping(before, RemoveUp(arena, rest[0], f), model, gone, f, rest[1..])
  {
    var d := rest[0];
    var r := RemoveUp(arena, d, f);
    assert r.Keys == before.Keys;
    assert rest == [d] + rest[1..];
    WithoutSubset(arena[d].upstream, f);
    forall m | m in before ensures SameOrLess(before[m], r[m]) {
      assert SameOrLess(before[m], arena[m]);
    }
    forall m | m in model.Live() && m !in gone && m != f
      ensures Released(before[m], r[m], if m in rest[1..] then gone else gone + {f})
    {
      assert Released(before[m], arena[m], if m in rest then gone else gone + {f});
      if m == d {
        ReleasedMore(before[d], arena[d], gone, f);
      }
    }
  }

  lemma {:induction false} DroppedDownstream(before: Arena, arena: Arena, model: Sched, gone: set<OpUri>, n: OpUri)
    requires Structure(before, model) && n in model.Live() && Dropped(before, arena, model, gone)
    ensures n in arena && arena[n].Downstream() == before[n].Downstream()
    ensures forall d | d in before[n].Downstream() :: d in before && d in arena
  {
    DownstreamOf(before, model, n);
    assert SameOrLess(before[n], arena[n]);
  }

  lemma {:induction false} DroppingDownstream(
    before: Arena, arena: Arena, model: Sched, gone: set<OpUri>, f: OpUri, rest: seq<OpUri>)
    requires Structure(before, model) && f in model.Live() && Dropping(before, arena, model, gone, f, rest)
    ensures model.ops.Keys == before.Keys == arena.Keys
    ensures f in arena && arena[f].Downstream() == before[f].Downstream() && NoDup(before[f].Downstream())
    ensures forall d | d in before[f].Downstream() :: d in before && d in arena
  {
    DownstreamOf(before, model, f);
    assert SameOrLess(before[f], arena[f]);
  }

  /** Telling a group once more changes nothing that matters. */
  lemma {:induction false} DropAgain(before: Arena, arena: Arena, model: Sched, gone: set<OpUri>, f: OpUri, d: OpUri)
    requires model.ops.Keys == before.Keys && d in before && f in gone && Dropped(before, arena, model, gone)
    ensures Dropped(before, RemoveUp(arena, d, f), model, gone)
  {
    var r := RemoveUp(arena, d, f);
    assert r.Keys == before.Keys;
    WithoutSubset(arena[d].upstream, f);
    forall m | m in before ensures SameOrLess(before[m], r[m]) {
      assert SameOrLess(before[m], arena[m]);
    }
    if d in model.Live() && d !in gone {
      assert Released(before[d], arena[d], gone);
      ReleasedMore(before[d], arena[d], gone, f);
      assert r[d] == arena[d];
    }
  }

  /** With a failed operation and all its dependents out, nobody that is left waits for any of them. */
  lemma {:induction false} FailStructure(before: Arena, after: Arena, model: Sched, root: OpUri, gone: set<OpUri>)
    requires Structure(before, model) && root in model.Running()
    requires gone == {root} + model.Dependents(root)
    requires Dropped(before, after, model, gone)
    ensures Structure(after, model.Fail(root))
    ensures forall m | m in model.Fail(root).Live() :: after[m].updates == before[m].updates
  {
    FailKeepsInv(model, root);
    DroppedKnown(before, after, model, gone);
    hide LinksMatch, Sched.Inv, LinksKnown, SameOrLess, Released, Sched.Dependents;
    var t := model.Fail(root);
    assert t.Live() == model.Live() - gone;
    forall m | m in t.Live()
      ensures LinksMatch(after[m].upstream, after[m].Downstream(), m, t.edges, t.succeeded, t.Live())
      ensures after[m].updates == before[m].updates
    {
      assert Released(before[m], after[m], gone) && SameOrLess(before[m], after[m]);
      FailLinks(before, after, model, root, gone, m);
    }
  }

  lemma {:induction false} DroppedKnown(before: Arena, after: Arena, model: Sched, gone: set<OpUri>)
    requires model.ops.Keys == before.Keys && LinksKnown(before, model.ops.Keys)
    requires Dropped(before, after, model, gone)
    ensures LinksKnown(after, model.ops.Keys)
  {
    forall m | m in after ensures GroupKnown(after[m], model.ops.Keys) {
      assert GroupKnown(before[m], model.ops.Keys) && SameOrLess(before[m], after[m]);
    }
  }

  lemma {:induction false} FailLinks(
    before: Arena, after: Arena, model: Sched, root: OpUri, gone: set<OpUri>, m: OpUri)
    requires Structure(before, model) && root in model.Running() && gone == {root} + model.Dependents(root)
    requires m in model.Live() && m !in gone && m in after
    requires Released(before[m], after[m], gone) && SameOrLess(before[m], after[m])
    ensures LinksMatch(after[m].upstream, after[m].Downstream(), m,
                       model.edges, model.succeeded, model.Live() - gone)
    ensures after[m].updates == before[m].updates
  {
    var up := before[m].upstream;
    assert LinksMatch(up, before[m].Downstream(), m, model.edges, model.succeeded, model.Live());
    forall p | p in Elements(up) ensures p !in gone {
      assert (p, m) in model.edges;
      if p in gone {
        FailedSuccessor(model, root, (p, m));
      }
    }
    assert Elements(after[m].upstream) == Elements(up);
    assert after[m].Downstream() == before[m].Downstream();
  }
}

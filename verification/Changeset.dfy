/** The changeset: a mutable graph of update groups that is executed, unlinked and cascaded in place
    (internal/metastructure/changeset/changeset.go). The ghost field `model` is the scheduler state that the
    linked groups stand for; `Valid` ties the two together, and every method says how `model` moves. */
module ChangesetPipeline {
  import opened Common
  import opened Digraph
  import opened Operations
  import opened Scheduler
  import opened UpdateGroup
  import opened PipelineLinks
  import opened PipelineBuild

  class Changeset {
    // The groups, in the pipeline or not: links of others may still lead to groups that have left it.
    var arena: Arena
    // The keys of the pipeline's map of groups.
    var live: set<OpUri>
    var tracked: set<OpUri>
    ghost var model: Sched

    ghost predicate Valid()
      reads this
    {
      && Structure(arena, model)
      && live == model.Live() && live <= arena.Keys && tracked == model.started
      && (forall n | n in live :: arena[n].updates == [model.ops[n].(state := StateOf(model, n))])
    }

    /** Like Valid, but the running update for `f` already carries the state that was reported for it. */
    ghost predicate ValidFinishing(f: OpUri, reported: UpdateState)
      reads this
    {
      && Structure(arena, model)
      && live == model.Live() && live <= arena.Keys && tracked == model.started
      && f in model.Running() && f in live
      && (forall n | n in live ::
            arena[n].updates == [model.ops[n].(state := if n == f then reported else StateOf(model, n))])
    }

    // ----- Building the pipeline -----

    constructor ()
      ensures arena == map[] && live == {} && tracked == {} && model == Fresh(map[], {})
    {
      arena, live, tracked := map[], {}, {};
      model := Fresh(map[], {});
    }

    /** Builds one group per operation and links them; the result says whether the references form a cycle. A
        pipeline without one, of updates that have not been started, is ready to run. */
    method Init(updates: seq<ResourceUpdate>) returns (cycles: bool)
      modifies this
      ensures var ops := SplitReplaces(updates);
              && (cycles <==> Cyclic(Edges(ops)))
              && model == Fresh(GroupOps(ops), Edges(ops))
              && (!cycles && (forall u | u in updates :: u.state == NotStarted) ==> Valid())
    {
      var ops := [];
      for i := 0 to |updates|
        invariant ops == SplitReplaces(updates[..i])
      {
        var u := updates[i];
        assert updates[..i + 1][..i] == updates[..i];
        if u.operation == Replace {
          ops := ops + [u.(operation := Delete)] + [u.(operation := Create)];
        } else {
          ops := ops + [u];
        }
      }
      assert updates[..|updates|] == updates;
      CreateGroups(ops);
      BuildOperationRelationships(ops);
      live := arena.Keys;
      tracked := {};
      model := Fresh(GroupOps(ops), Edges(ops));
      cycles := HasCycles(GroupOps(ops), Edges(ops));
      if !cycles && forall u | u in updates :: u.state == NotStarted {
        SplitNotStarted(updates);
        ReadyToRun(ops);
      }
    }

    lemma ReadyToRun(ops: seq<ResourceUpdate>)
      requires Built(arena, GroupOps(ops), Edges(ops)) && !Cyclic(Edges(ops))
      requires model == Fresh(GroupOps(ops), Edges(ops)) && live == arena.Keys && tracked == {}
      requires forall o | o in ops :: o.state == NotStarted
      ensures Valid()
    {
      hide Structure, Edges, GroupOps, DeleteOps, CreateUpdateOps;
      BuiltStructure(arena, ops);
      TablesConsistent(ops);
      forall n | n in live ensures arena[n].updates == [model.ops[n].(state := StateOf(model, n))] {
        assert BuiltGroup(arena[n], model.ops[n], n, model.edges);
      }
    }

    method CreateGroups(ops: seq<ResourceUpdate>)
      modifies this`arena
      ensures Built(arena, GroupOps(ops), {})
    {
      arena := map[];
      for i := 0 to |ops|
        invariant arena.Keys == GroupOps(ops[..i]).Keys
        invariant forall n | n in arena :: arena[n] == FreshGroup(GroupOps(ops[..i])[n])
      {
        assert ops[..i + 1][..i] == ops[..i];
        arena := arena[ops[i].Node() := FreshGroup(ops[i])];
      }
      assert ops[..|ops|] == ops;
      forall n | n in arena ensures BuiltGroup(arena[n], GroupOps(ops)[n], n, {}) {
        assert Elements<OpUri>([]) == {};
      }
    }

    /** Group `a` waits for group `b`; a link that exists already is not added again. */
    method LinkWith(a: OpUri, b: OpUri)
      requires a in arena && b in arena && arena[b].count == |arena[b].backing|
      modifies this`arena
      ensures arena == Link(old(arena), a, b)
    {
      for i := 0 to |arena[a].upstream|
        invariant arena == old(arena)
        invariant b !in arena[a].upstream[..i]
      {
        if arena[a].upstream[i] == b {
          return;
        }
      }
      arena := arena[a := arena[a].(upstream := arena[a].upstream + [b])];
      arena := arena[b := arena[b].(backing := arena[b].Downstream() + [a], count := arena[b].count + 1)];
    }

    method BuildOperationRelationships(ops: seq<ResourceUpdate>)
      requires Built(arena, GroupOps(ops), {})
      modifies this`arena
      ensures Built(arena, GroupOps(ops), Edges(ops))
    {
      BuildDeleteDependencies(ops);
      assert {} + DeleteEdges(ops) == DeleteEdges(ops);
      BuildCreateUpdateDependencies(ops, DeleteEdges(ops));
      ConnectDeleteToCreate(ops, DeleteEdges(ops) + CreateUpdateEdges(ops));
    }

    /** Deletes in reverse: what is referenced waits for its referrer. */
    method BuildDeleteDependencies(ops: seq<ResourceUpdate>)
      requires Built(arena, GroupOps(ops), {})
      modifies this`arena
      ensures Built(arena, GroupOps(ops), DeleteEdges(ops))
    {
      ghost var table := GroupOps(ops);
      TablesConsistent(ops);
      var deleteOps := CollectDeletes(ops);
      hide GroupOps, DeleteOps, Built;
      var todo := deleteOps.Keys;
      ghost var done: set<FormaeUri> := {};
      assert DeleteEdgesFrom(deleteOps, {}) == {};
      while todo != {}
        invariant todo + done == deleteOps.Keys && todo !! done
        invariant Built(arena, table, DeleteEdgesFrom(deleteOps, done))
        decreases todo
      {
        var d :| d in todo;
        todo := todo - {d};
        LinkDelete(deleteOps, d, table, DeleteEdgesFrom(deleteOps, done));
        DeleteEdgesNext(deleteOps, done, d);
        done := done + {d};
      }
      assert DeleteEdgesFrom(deleteOps, done) == DeleteEdges(ops);
    }

    method LinkDelete(
      deleteOps: map<FormaeUri, ResourceUpdate>, d: FormaeUri,
      ghost table: map<OpUri, ResourceUpdate>, ghost edges: set<(OpUri, OpUri)>)
      requires Built(arena, table, edges) && d in deleteOps
      requires forall x | x in deleteOps :: OpUri(x, Delete) in table
      modifies this`arena
      ensures Built(arena, table, edges + DeleteEdgesOf(deleteOps, d, deleteOps[d].resolvables))
    {
      var rs := deleteOps[d].resolvables;
      assert DeleteEdgesOf(deleteOps, d, rs[..0]) == {};
      for i := 0 to |rs|
        invariant Built(arena, table, edges + DeleteEdgesOf(deleteOps, d, rs[..i]))
      {
        DeleteEdgesMore(deleteOps, d, rs, i);
        ghost var now := edges + DeleteEdgesOf(deleteOps, d, rs[..i]);
        var dependency := rs[i].Stripped();
        if dependency in deleteOps {
          LinkStep(arena, table, now, OpUri(dependency, Delete), OpUri(d, Delete));
          assert BuiltGroup(arena[OpUri(d, Delete)], table[OpUri(d, Delete)], OpUri(d, Delete), now);
          LinkWith(OpUri(dependency, Delete), OpUri(d, Delete));
          assert edges + DeleteEdgesOf(deleteOps, d, rs[..i + 1]) ==
                 now + {(OpUri(d, Delete), OpUri(dependency, Delete))};
        } else {
          assert edges + DeleteEdgesOf(deleteOps, d, rs[..i + 1]) == now;
        }
      }
      assert rs[..|rs|] == rs;
    }

    method CollectDeletes(ops: seq<ResourceUpdate>) returns (m: map<FormaeUri, ResourceUpdate>)
      ensures m == DeleteOps(ops)
    {
      m := map[];
      for i := 0 to |ops|
        invariant m == DeleteOps(ops[..i])
      {
        assert ops[..i + 1][..i] == ops[..i];
        if ops[i].operation == Delete {
          m := m[ops[i].Uri() := ops[i]];
        }
      }
      assert ops[..|ops|] == ops;
    }

    /** Creates and updates in order: a referrer waits for what it references. */
    method BuildCreateUpdateDependencies(ops: seq<ResourceUpdate>, ghost edges: set<(OpUri, OpUri)>)
      requires Built(arena, GroupOps(ops), edges)
      modifies this`arena
      ensures Built(arena, GroupOps(ops), edges + CreateUpdateEdges(ops))
    {
      ghost var table := GroupOps(ops);
      TablesConsistent(ops);
      var createUpdateOps := CollectCreatesAndUpdates(ops);
      hide GroupOps, CreateUpdateOps, Built;
      var todo := createUpdateOps.Keys;
      ghost var done: set<FormaeUri> := {};
      assert edges + CreateUpdateEdgesFrom(createUpdateOps, {}) == edges;
      while todo != {}
        invariant todo + done == createUpdateOps.Keys && todo !! done
        invariant Built(arena, table, edges + CreateUpdateEdgesFrom(createUpdateOps, done))
        decreases todo
      {
        var c :| c in todo;
        todo := todo - {c};
        LinkCreateOrUpdate(createUpdateOps, c, table, edges + CreateUpdateEdgesFrom(createUpdateOps, done));
        CreateUpdateEdgesNext(createUpdateOps, done, c);
        assert edges + CreateUpdateEdgesFrom(createUpdateOps, done + {c}) ==
               edges + CreateUpdateEdgesFrom(createUpdateOps, done) +
               CreateUpdateEdgesOf(createUpdateOps, c, createUpdateOps[c].resolvables);
        done := done + {c};
      }
      assert CreateUpdateEdgesFrom(createUpdateOps, done) == CreateUpdateEdges(ops);
    }

    method LinkCreateOrUpdate(
      createUpdateOps: map<FormaeUri, ResourceUpdate>, c: FormaeUri,
      ghost table: map<OpUri, ResourceUpdate>, ghost edges: set<(OpUri, OpUri)>)
      requires Built(arena, table, edges) && c in createUpdateOps
      requires forall x | x in createUpdateOps :: OpUri(x, createUpdateOps[x].operation) in table
      modifies this`arena
      ensures Built(arena, table, edges + CreateUpdateEdgesOf(createUpdateOps, c, createUpdateOps[c].resolvables))
    {
      var rs := createUpdateOps[c].resolvables;
      var a := OpUri(c, createUpdateOps[c].operation);
      assert CreateUpdateEdgesOf(createUpdateOps, c, rs[..0]) == {};
      for i := 0 to |rs|
        invariant Built(arena, table, edges + CreateUpdateEdgesOf(createUpdateOps, c, rs[..i]))
      {
        CreateUpdateEdgesMore(createUpdateOps, c, rs, i);
        ghost var now := edges + CreateUpdateEdgesOf(createUpdateOps, c, rs[..i]);
        var dependency := rs[i].Stripped();
        if dependency in createUpdateOps {
          var b := OpUri(dependency, createUpdateOps[dependency].operation);
          LinkStep(arena, table, now, a, b);
          assert BuiltGroup(arena[b], table[b], b, now);
          LinkWith(a, b);
          assert edges + CreateUpdateEdgesOf(createUpdateOps, c, rs[..i + 1]) == now + {(b, a)};
        } else {
          assert edges + CreateUpdateEdgesOf(createUpdateOps, c, rs[..i + 1]) == now;
        }
      }
      assert rs[..|rs|] == rs;
    }

    method CollectCreatesAndUpdates(ops: seq<ResourceUpdate>) returns (m: map<FormaeUri, ResourceUpdate>)
      ensures m == CreateUpdateOps(ops)
    {
      m := map[];
      for i := 0 to |ops|
        invariant m == CreateUpdateOps(ops[..i])
      {
        assert ops[..i + 1][..i] == ops[..i];
        if ops[i].operation == Create || ops[i].operation == Update {
          m := m[ops[i].Uri() := ops[i]];
        }
      }
      assert ops[..|ops|] == ops;
    }

    /** A create waits for the delete with the same stack, label and type. */
    method ConnectDeleteToCreate(ops: seq<ResourceUpdate>, ghost edges: set<(OpUri, OpUri)>)
      requires Built(arena, GroupOps(ops), edges)
      modifies this`arena
      ensures Built(arena, GroupOps(ops), edges + DeleteToCreateEdges(ops))
    {
      ghost var table := GroupOps(ops);
      KeysHaveGroups(ops, Delete);
      KeysHaveGroups(ops, Create);
      var deleteOps := CollectByKey(ops, Delete);
      var createOps := CollectByKey(ops, Create);
      hide GroupOps, ByKey, Built;
      var todo := deleteOps.Keys;
      ghost var done: set<string> := {};
      assert edges + DeleteToCreateEdgesFrom(deleteOps, createOps, {}) == edges;
      while todo != {}
        invariant todo + done == deleteOps.Keys && todo !! done
        invariant Built(arena, table, edges + DeleteToCreateEdgesFrom(deleteOps, createOps, done))
        decreases todo
      {
        var k :| k in todo;
        todo := todo - {k};
        ghost var now := edges + DeleteToCreateEdgesFrom(deleteOps, createOps, done);
        DeleteToCreateEdgesNext(deleteOps, createOps, done, k);
        hide DeleteToCreateEdgesFrom;
        if k in createOps {
          ConnectPair(createOps[k].Node(), deleteOps[k].Node(), table, now);
          assert edges + DeleteToCreateEdgesFrom(deleteOps, createOps, done + {k}) ==
                 now + {(deleteOps[k].Node(), createOps[k].Node())};
        } else {
          assert edges + DeleteToCreateEdgesFrom(deleteOps, createOps, done + {k}) == now;
        }
        done := done + {k};
      }
      assert DeleteToCreateEdgesFrom(deleteOps, createOps, done) == DeleteToCreateEdges(ops);
    }

    method ConnectPair(
      a: OpUri, b: OpUri, ghost table: map<OpUri, ResourceUpdate>, ghost edges: set<(OpUri, OpUri)>)
      requires Built(arena, table, edges) && a in table && b in table
      modifies this`arena
      ensures Built(arena, table, edges + {(b, a)})
    {
      if b in arena && a in arena {
        LinkStep(arena, table, edges, a, b);
        assert BuiltGroup(arena[b], table[b], b, edges);
        LinkWith(a, b);
      }
    }

    method CollectByKey(ops: seq<ResourceUpdate>, operation: OperationType) returns (m: map<string, ResourceUpdate>)
      ensures m == ByKey(ops, operation)
    {
      m := map[];
      for i := 0 to |ops|
        invariant m == ByKey(ops[..i], operation)
      {
        assert ops[..i + 1][..i] == ops[..i];
        if ops[i].operation == operation {
          m := m[ops[i].ResourceKey() := ops[i]];
        }
      }
      assert ops[..|ops|] == ops;
    }

    /** Looks for a cycle from every group. */
    method HasCycles(ghost table: map<OpUri, ResourceUpdate>, ghost edges: set<(OpUri, OpUri)>) returns (found: bool)
      requires Built(arena, table, edges) && live == arena.Keys
      ensures found <==> Cyclic(edges)
    {
      var todo := live;
      ghost var done: set<OpUri> := {};
      while todo != {}
        invariant todo + done == live
        invariant forall n | n in done :: CleanFrom(edges, n, {})
        decreases todo
      {
        var n :| n in todo;
        todo, done := todo - {n}, done + {n};
        var r := Dfs(n, {}, table, edges, []);
        if r {
          return true;
        }
      }
      AllCleanMeansAcyclic(table, edges);
      return false;
    }

    /** Depth-first search with its own copy of the visited set on every path: it reports a group met twice on one
        path and nothing else, so a diamond is no cycle. */
    method Dfs(
      n: OpUri, visited: set<OpUri>, ghost table: map<OpUri, ResourceUpdate>, ghost edges: set<(OpUri, OpUri)>,
      ghost path: seq<OpUri>) returns (found: bool)
      requires Built(arena, table, edges) && n in arena
      requires visited == Elements(path) && visited <= arena.Keys
      requires path == [] || (IsWalk(edges, path) && (path[|path| - 1], n) in edges)
      ensures found ==> Cyclic(edges)
      ensures !found ==> CleanFrom(edges, n, visited)
      decreases arena.Keys - visited
    {
      hide Built, IsWalk, Elements, CleanFrom, Cyclic, Group.Downstream;
      PathMember(path, n);
      if n in visited {
        PathCloses(edges, path, n);
        return true;
      }
      var visited' := visited + {n};
      ghost var path' := path + [n];
      PathGrows(edges, path, n);
      BuiltDownstream(arena, table, edges, n);
      var down := arena[n].Downstream();
      for i := 0 to |down|
        invariant forall k | 0 <= k < i :: CleanFrom(edges, down[k], visited')
      {
        var r := Dfs(down[i], visited', table, edges, path');
        if r {
          return true;
        }
      }
      forall h | h in Succs(edges, n) ensures CleanFrom(edges, h, visited') {
        assert h in down;
      }
      CleanStep(edges, n, visited);
      return false;
    }

    // ----- Starting updates -----

    /** The next update of a group that nothing blocks. */
    method Executable(n: OpUri) returns (next: Option<ResourceUpdate>)
      requires Valid() && n in live
      ensures next.Some? <==> model.IsReady(n)
      ensures next.Some? ==> next.value == model.ops[n].(state := NotStarted)
    {
      var g := arena[n];
      NothingUpstream(g.upstream, g.Downstream(), n, model.edges, model.succeeded, model.Live());
      assert |g.updates| == 1 && g.updates[0].Node() == n;
      if g.HasRunningUpdate() {
        return None;
      }
      if |g.upstream| == 0 && !g.Done() && |g.updates| > 0 {
        next := NextUpdate(g);
        if next.Some? && next.value.Node() !in tracked {
          return;
        }
      }
      next := None;
    }

    /** How many updates of each namespace can be started now. */
    method AvailableExecutableUpdates() returns (result: map<string, int>)
      requires Valid()
      ensures forall ns :: ns in result <==> model.Ready(ns) != {}
      ensures forall ns | ns in result :: result[ns] == |model.Ready(ns)|
    {
      hide Structure, Tally, NoDup, Sched.IsReady, Sched.Ready, FirstFragment, Changeset.Valid;
      result := map[];
      var todo := live;
      ghost var m, found, done := model, [], {};
      LiveIsModel();
      NothingFound(m);
      while todo != {}
        invariant todo + done == live && todo !! done
        invariant IsFound(m, done, found)
        invariant result == Tally(m.ops, found)
        decreases todo
      {
        var n :| n in todo;
        var next := Executable(n);
        FindMore(m, done, found, n);
        todo, done := todo - {n}, done + {n};
        if next.Some? {
          var ns := next.value.Namespace();
          found := found + [n];
          if ns in result {
            result := result[ns := result[ns] + 1];
          } else {
            result := result[ns := 1];
          }
        }
      }
      forall ns
        ensures ns in result <==> m.Ready(ns) != {}
        ensures ns in result ==> result[ns] == |m.Ready(ns)|
      {
        AllFound(m, done, found, ns);
      }
    }

    /** Starts up to `max` updates of one namespace, whichever the map yields first: as many as are ready or as
        many as were asked for, each for the first time. */
    method GetExecutableUpdates(namespace: string, max: int)
      returns (executable: seq<ResourceUpdate>, ghost order: seq<OpUri>)
      requires Valid()
      modifies this
      ensures Valid() && live == old(live)
      ensures NoDup(order) && Elements(order) <= old(model.Ready(namespace))
      ensures model == old(model).Start(Elements(order))
      ensures |order| == (if max < 0 then 0 else if max < |old(model.Ready(namespace))| then max
                          else |old(model.Ready(namespace))|)
      ensures |executable| == |order|
      ensures forall i | 0 <= i < |order| :: executable[i] == model.ops[order[i]].(state := InProgress)
    {
      hide Structure, Collected, NoDup, Elements, Sched.IsReady, Sched.Ready, Changeset.Valid;
      executable, order := [], [];
      var total, todo := 0, live;
      ghost var m, done := model, {};
      LiveIsModel();
      NothingCollected(m, namespace, max);
      while todo != {}
        invariant Valid() && live == old(live)
        invariant todo + done == live && todo !! done
        invariant model == m.Start(Elements(order)) && Collected(m, namespace, done, order, max)
        invariant total == |executable| == |order|
        invariant forall i | 0 <= i < |order| ::
            order[i] in m.ops && executable[i] == m.ops[order[i]].(state := InProgress)
        decreases todo
      {
        var n :| n in todo;
        LiveIsModel();
        var next := Executable(n);
        CollectMore(m, namespace, done, order, max, n);
        todo, done := todo - {n}, done + {n};
        if total < max && next.Some? && next.value.Namespace() == namespace {
          var started := next.value.(state := InProgress);
          executable := executable + [started];
          total := total + 1;
          MarkStarted(n, started);
          order := order + [n];
        }
      }
      AllCollected(m, namespace, done, order, max);
    }

    lemma LiveIsModel()
      requires Valid()
      ensures live == model.Live()
    {
    }

    method MarkStarted(n: OpUri, started: ResourceUpdate)
      requires Valid() && model.IsReady(n) && started == model.ops[n].(state := InProgress)
      modifies this
      ensures Valid() && live == old(live) && model == old(model).Start({n})
    {
      StartStructure(arena, model, n, [started]);
      hide Structure, Sched.IsReady;
      tracked := tracked + {n};
      arena := arena[n := arena[n].(updates := [started])];
      model := model.Start({n});
      assert model.Live() == old(model).Live();
    }

    /** No groups are left, or all that is left has failed; for a valid changeset these come to the same. */
    method IsComplete() returns (complete: bool)
      requires Valid()
      ensures complete <==> model.Live() == {}
    {
      hide Structure;
      if |live| == 0 {
        return true;
      }
      complete := true;
      var todo := live;
      while todo != {} && complete
        invariant todo <= live
        invariant complete ==> todo == live
        decreases todo
      {
        var n :| n in todo;
        todo := todo - {n};
        for i := 0 to |arena[n].updates|
          invariant complete ==> i == 0
        {
          if arena[n].updates[i].state != Failed && arena[n].updates[i].state != Rejected {
            complete := false;
            break;
          }
        }
      }
    }

    // ----- Links -----

    method RemoveUpstreamGroup(d: OpUri, n: OpUri)
      requires d in arena
      modifies this`arena
      ensures arena == RemoveUp(old(arena), d, n)
    {
      var up := arena[d].upstream;
      var i := Find(up, n);
      if i < |up| {
        arena := arena[d := arena[d].(upstream := up[..i] + up[i + 1..])];
      }
    }

    /** Takes each of the two groups out of the other's list. The downstream slice shrinks by moving its elements
        inside the array that a running loop may still be reading. */
    method UnlinkWith(d: OpUri, n: OpUri)
      requires d in arena && n in arena && d != n && arena[n].count <= |arena[n].backing|
      modifies this`arena
      ensures arena == Unlink(old(arena), d, n)
    {
      RemoveUpstreamGroup(d, n);
      var g := arena[n];
      var i := Find(g.backing[..g.count], d);
      if i < g.count {
        arena := arena[n := g.(backing := g.backing[..i] + g.backing[i + 1..g.count] + g.backing[g.count - 1..],
                               count := g.count - 1)];
      }
    }

    // ----- Finishing updates -----

    /** The loop that releases the groups waiting for this very resource. It ranges over the slice as it was, by
        position, while each release shifts the array under it; it may skip groups and meet others twice. */
    method UnlinkReferrers(n: OpUri, uri: FormaeUri)
      requires Structure(arena, model) && n in model.Live() && arena[n].updates == []
      modifies this`arena
      ensures n in arena && arena[n].updates == [] && Unlinking(old(arena), arena, n, arena[n].Downstream())
    {
      DownstreamOf(arena, model, n);
      ghost var before := arena;
      hide Structure;
      var length := arena[n].count;
      for i := 0 to length
        invariant n in arena && Unlinking(before, arena, n, arena[n].Downstream())
      {
        var d := arena[n].backing[i];
        var us := arena[d].updates;
        for j := 0 to |us|
          invariant n in arena && Unlinking(before, arena, n, arena[n].Downstream())
        {
          if us[j].References(uri) {
            UnlinkStep(before, arena, n, d);
            UnlinkWith(d, n);
          }
        }
      }
    }

    /** Every group still listed downstream stops waiting for `n`. */
    method ReleaseDownstream(n: OpUri, ghost before: Arena)
      requires Structure(before, model) && n in model.Live() && n in arena
      requires Unlinking(before, arena, n, arena[n].Downstream())
      modifies this`arena
      ensures Unlinking(before, arena, n, [])
    {
      DownstreamOf(before, model, n);
      hide Structure;
      var down := arena[n].Downstream();
      assert forall i | 0 <= i < |down| :: down[i] in before[n].Downstream();
      for i := 0 to |down|
        invariant Unlinking(before, arena, n, down[i..])
      {
        RemoveUpStep(before, arena, n, down[i..]);
        assert down[i..][1..] == down[i + 1..];
        RemoveUpstreamGroup(down[i], n);
      }
      assert down[|down|..] == [];
    }

    /** Takes the finished update out of its group, which leaves the group empty. */
    method PopFinished(update: ResourceUpdate)
      requires ValidFinishing(update.Node(), update.state)
      modifies this`arena
      ensures arena == old(arena)[update.Node() := old(arena)[update.Node()].(updates := [])]
      ensures Structure(arena, model)
    {
      var n := update.Node();
      SetUpdates(arena, model, n, []);
      hide Structure;
      var g := Pop(arena[n], update);
      assert g.updates == [];
      arena := arena[n := g];
    }

    method CompleteSuccess(update: ResourceUpdate)
      requires update.state == Success && ValidFinishing(update.Node(), Success)
      modifies this
      ensures Valid() && model == old(model).Succeed(update.Node())
    {
      hide Structure, Unlinking;
      var n := update.Node();
      PopFinished(update);
      ghost var before := arena;
      NothingUnlinked(before, model, n);
      if update.operation == Create || update.operation == Update {
        UnlinkReferrers(n, update.Uri());
      }
      if arena[n].Done() {
        ReleaseDownstream(n, before);
        SuccessStructure(before, arena, model, n);
        live := live - {n};
        model := model.Succeed(n);
        assert model.Live() == live;
      }
    }

    /** Depth-first passing on of a failure: every group downstream of `n` whose update has not been started is
        set to Failed, reported, and passes the failure on in turn. */
    method RecursivelyFailDependencies(
      n: OpUri, failed: seq<ResourceUpdate>, visited: set<OpUri>, ghost root: OpUri, ghost marked: set<OpUri>)
      returns (failed': seq<ResourceUpdate>, visited': set<OpUri>, ghost marked': set<OpUri>, ghost order: seq<OpUri>)
      requires Cascading(arena, model, root, marked) && live == model.Live() && arena.Keys == model.ops.Keys
      requires visited <= marked + {root}
      requires n in live ==> n in marked + {root}
      requires n in visited && n in live ==> PassedOn(model, n, marked, root)
      modifies this`arena
      ensures Cascading(arena, model, root, marked') && visited' <= marked' + {root}
      ensures arena.Keys == model.ops.Keys && marked <= marked'
      ensures Cascaded(model, root, n, marked, marked', order)
      ensures n in live ==> PassedOn(model, n, marked', root)
      ensures Reported(failed, failed', model.ops, order)
      decreases model.Live() - marked, 2
    {
      hide Structure, Cascading, Cascaded, Reported, PassedOn, Elements;
      failed', visited', marked', order := failed, visited, marked, [];
      CascadedNothing(model, root, n, marked, failed);
      if n in visited {
        return;
      }
      if n !in live {
        return;
      }
      visited' := visited' + {n};
      var down := arena[n].Downstream();
      DownstreamView(arena, model, root, marked, n);
      for i := 0 to |down|
        invariant Cascading(arena, model, root, marked') && visited' <= marked' + {root}
        invariant arena.Keys == model.ops.Keys && marked <= marked'
        invariant Cascaded(model, root, n, marked, marked', order)
        invariant forall k | 0 <= k < i && down[k] in live :: down[k] in marked' + {root}
        invariant Reported(failed, failed', model.ops, order)
      {
        ghost var more, marked1, failed1 := [], marked', failed';
        failed', visited', marked', more := FailGroup(n, down[i], failed', visited', root, marked1);
        CascadedTwice(model, root, n, marked, marked1, marked', order, more);
        ReportedTwice(failed, failed1, failed', model.ops, order, more);
        order := order + more;
      }
      PassedOnTo(model, n, down, marked', root);
    }

    /** The updates of one downstream group. */
    method FailGroup(
      n: OpUri, d: OpUri, failed: seq<ResourceUpdate>, visited: set<OpUri>, ghost root: OpUri, ghost marked: set<OpUri>)
      returns (failed': seq<ResourceUpdate>, visited': set<OpUri>, ghost marked': set<OpUri>, ghost order: seq<OpUri>)
      requires Cascading(arena, model, root, marked) && live == model.Live() && arena.Keys == model.ops.Keys
      requires visited <= marked + {root}
      requires d in arena && (n, d) in model.edges && d !in model.started
      modifies this`arena
      ensures Cascading(arena, model, root, marked') && visited' <= marked' + {root}
      ensures arena.Keys == model.ops.Keys && marked <= marked'
      ensures Cascaded(model, root, n, marked, marked', order)
      ensures d in live ==> d in marked' + {root}
      ensures Reported(failed, failed', model.ops, order)
      decreases model.Live() - marked, 1
    {
      hide Structure, Cascading, Cascaded, Reported, PassedOn;
      failed', visited', marked', order := failed, visited, marked, [];
      var us := arena[d].updates;
      UpdatesMet(arena, model, root, marked, d);
      CascadedNothing(model, root, n, marked, failed);
      for j := 0 to |us|
        invariant Cascading(arena, model, root, marked') && visited' <= marked' + {root}
        invariant arena.Keys == model.ops.Keys && marked <= marked'
        invariant Cascaded(model, root, n, marked, marked', order)
        invariant j == 0 ==> marked' == marked && order == [] && failed' == failed
        invariant j > 0 ==> d in marked'
        invariant Reported(failed, failed', model.ops, order)
      {
        if us[j].state == NotStarted {
          failed', visited', marked', order := FailUpdate(n, d, us[j], failed', visited', root, marked');
        }
      }
    }

    /** An update that has not been started fails, is reported and passes the failure on. */
    method FailUpdate(
      n: OpUri, d: OpUri, update: ResourceUpdate, failed: seq<ResourceUpdate>, visited: set<OpUri>,
      ghost root: OpUri, ghost marked: set<OpUri>)
      returns (failed': seq<ResourceUpdate>, visited': set<OpUri>, ghost marked': set<OpUri>, ghost order: seq<OpUri>)
      requires Cascading(arena, model, root, marked) && live == model.Live() && arena.Keys == model.ops.Keys
      requires visited <= marked + {root}
      requires (n, d) in model.edges && d in live && d != root && d !in model.started && d !in marked
      requires d in model.ops && update == model.ops[d].(state := NotStarted)
      modifies this`arena
      ensures Cascading(arena, model, root, marked') && visited' <= marked' + {root}
      ensures arena.Keys == model.ops.Keys && marked <= marked'
      ensures Cascaded(model, root, n, marked, marked', order) && d in marked'
      ensures Reported(failed, failed', model.ops, order)
      decreases model.Live() - marked, 0
    {
      hide Structure, Cascading, Cascaded, Reported, PassedOn;
      var u := update.(state := Failed);
      MarkStep(arena, model, root, marked, d);
      arena := arena[d := arena[d].(updates := [u])];
      ghost var more := [];
      failed', visited', marked', more := RecursivelyFailDependencies(d, failed + [u], visited, root, marked + {d});
      CascadedThrough(model, root, n, d, marked, marked', more);
      ReportedFirst(failed, u, failed', model.ops, d, more);
      order := [d] + more;
      CascadedIncludes(model, root, n, marked, marked', order);
    }

    /** Tells every group downstream of a failed one. */
    method ReleaseFailed(f: OpUri, ghost before: Arena, ghost gone: set<OpUri>)
      requires Structure(before, model) && f in model.Live()
      requires model.ops.Keys == before.Keys && arena.Keys == before.Keys
      requires Dropping(before, arena, model, gone, f, before[f].Downstream())
      modifies this`arena
      ensures arena.Keys == before.Keys && Dropped(before, arena, model, gone + {f})
    {
      hide Structure, Dropping, Dropped;
      DroppingDownstream(before, arena, model, gone, f, before[f].Downstream());
      var down := arena[f].Downstream();
      for i := 0 to |down|
        invariant arena.Keys == before.Keys && Dropping(before, arena, model, gone, f, down[i..])
      {
        DropRest(before, arena, model, gone, f, down[i..]);
        assert down[i..][1..] == down[i + 1..];
        RemoveUpstreamGroup(down[i], f);
      }
      assert down[|down|..] == [];
      DropEnd(before, arena, model, gone, f);
    }

    /** Takes one failed update and its group out of the pipeline. */
    method DropFailed(update: ResourceUpdate, ghost before: Arena, ghost gone: set<OpUri>)
      requires Structure(before, model) && Dropped(before, arena, model, gone)
      requires live == model.Live() - gone && update.Node() in live
      requires update.Node() in arena && WithoutUpdate(arena[update.Node()].updates, update.Node()) == []
      modifies this`arena, this`live
      ensures arena.Keys == before.Keys && Dropped(before, arena, model, gone + {update.Node()})
      ensures live == model.Live() - (gone + {update.Node()})
    {
      var f := update.Node();
      DropPop(before, arena, model, gone, f);
      hide Structure, Released, SameOrLess;
      if f in live {
        var g := Pop(arena[f], update);
        arena := arena[f := g];
        if g.Done() {
          ReleaseFailed(f, before, gone);
          live := live - {f};
          assert live == model.Live() - (gone + {f});
        }
      }
    }

    /** Takes the failed updates out one by one. */
    method DropAll(failed: seq<ResourceUpdate>, ghost nodes: seq<OpUri>, ghost root: OpUri, ghost marked: set<OpUri>)
      requires Cascading(arena, model, root, marked) && Structure(arena, model) && live == model.Live()
      requires model.ops.Keys == arena.Keys
      requires FailedList(failed, nodes) && Elements(nodes) == marked + {root}
      modifies this`arena, this`live
      ensures arena.Keys == old(arena.Keys) && Dropped(old(arena), arena, model, marked + {root})
      ensures live == model.Live() - (marked + {root})
    {
      ghost var before := arena;
      hide Dropped, Structure, Cascading, NoDup;
      DropNothing(before, model);
      ghost var gone := Elements(nodes[..0]);
      assert gone == {};
      for i := 0 to |failed|
        invariant gone == Elements(nodes[..i])
        invariant arena.Keys == before.Keys && Dropped(before, arena, model, gone) && live == model.Live() - gone
      {
        ghost var f := nodes[i];
        PrefixElements(nodes, i);
        StillToPop(before, arena, model, root, marked, gone, f);
        DropFailed(failed[i], before, gone);
        gone := gone + {f};
      }
      assert nodes[..|nodes|] == nodes;
    }

    /** The second pass over the root's own group finds nothing left to do. */
    method DropRootAgain(n: OpUri, ghost before: Arena, ghost gone: set<OpUri>)
      requires Structure(before, model) && n in model.Live() && n in gone && n in arena
      requires model.ops.Keys == before.Keys == arena.Keys && Dropped(before, arena, model, gone) &&
                live == model.Live() - gone
      modifies this`arena, this`live
      ensures arena.Keys == before.Keys && Dropped(before, arena, model, gone) && live == model.Live() - gone
    {
      hide Structure, Dropped;
      DroppedDownstream(before, arena, model, gone, n);
      if arena[n].Done() {
        var down := arena[n].Downstream();
        for i := 0 to |down|
          invariant arena.Keys == before.Keys && Dropped(before, arena, model, gone) && live == model.Live() - gone
        {
          DropAgain(before, arena, model, gone, n, down[i]);
          RemoveUpstreamGroup(down[i], n);
        }
        assert n !in live;
        live := live - {n};
      }
    }

    /** A failed or rejected update takes all live updates that wait for it with it. */
    method CompleteFailure(update: ResourceUpdate) returns (failed: seq<ResourceUpdate>, ghost order: seq<OpUri>)
      requires update.state == Failed || update.state == Rejected
      requires ValidFinishing(update.Node(), update.state)
      modifies this
      ensures Valid() && model == old(model).Fail(update.Node())
      ensures NoDup(order) && Elements(order) == old(model).Dependents(update.Node())
      ensures |failed| == |order| + 1 && failed[|order|] == update
      ensures Reported([], failed[..|order|], old(model).ops, order)
    {
      hide Structure;
      var n := update.Node();
      PopFinished(update);
      CascadeBegins(arena, model, n);
      ghost var marked;
      var cascaded, visited;
      cascaded, visited, marked, order := RecursivelyFailDependencies(n, [], {}, n, {});
      ghost var before := arena;
      failed := cascaded + [update];
      assert failed[..|order|] == cascaded;
      FailedListOf(arena, model, n, marked, order, cascaded, update);
      FinishCascade(failed, n, order, marked);
    }

    method FinishCascade(failed: seq<ResourceUpdate>, n: OpUri, ghost order: seq<OpUri>, ghost marked: set<OpUri>)
      requires Cascading(arena, model, n, marked) && live == model.Live() && tracked == model.started
      requires arena.Keys == model.ops.Keys && n in model.Running() && n in live
      requires Cascaded(model, n, n, {}, marked, order) && PassedOn(model, n, marked, n)
      requires FailedList(failed, order + [n]) && Elements(order + [n]) == marked + {n}
      modifies this
      ensures Valid() && model == old(model).Fail(n) && marked == old(model).Dependents(n)
    {
      hide Structure, Dropped, Cascading, Cascaded, FailedList, PassedOn, Elements, Sched.Dependents;
      CascadeOver(arena, model, n, marked, order);
      ghost var before := arena;
      DropAll(failed, order + [n], n, marked);
      DropRootAgain(n, before, marked + {n});
      FailStructure(before, arena, model, n, marked + {n});
      model := model.Fail(n);
      assert live == model.Live();
    }

    /** The running update takes the state that was reported for it. */
    method SetState(finished: ResourceUpdate)
      requires Valid() && finished.Node() in model.Running()
      requires finished.Node() in model.ops && finished == model.ops[finished.Node()].(state := finished.state)
      modifies this`arena
      ensures ValidFinishing(finished.Node(), finished.state)
    {
      assert finished.Node() in live;
      SetUpdates(arena, model, finished.Node(), [finished]);
      hide Structure;
      arena := arena[finished.Node() := arena[finished.Node()].(updates := [finished])];
    }

    /** Handles a finished update, which already carries its new state. The error result is for an update whose
        group has left the pipeline. A success returns nothing; a failure returns the live updates that waited for
        it, each once, and then the update itself; any other state changes nothing. */
    method UpdatePipeline(update: ResourceUpdate)
      returns (result: Option<seq<ResourceUpdate>>, ghost order: seq<OpUri>)
      requires update.Node() in live ==> ValidFinishing(update.Node(), update.state)
      modifies this
      ensures result.None? <==> update.Node() !in old(live)
      ensures result.None? || update.state !in {Success, Failed, Rejected} ==> unchanged(this)
      ensures result.Some? ==> model == old(model).Finish(update.Node(), update.state)
      ensures result.Some? && update.state in {Success, Failed, Rejected} ==> Valid()
      ensures result.Some? && update.state != Failed && update.state != Rejected ==> result.value == []
      ensures result.Some? && (update.state == Failed || update.state == Rejected) ==>
                && NoDup(order) && Elements(order) == old(model).Dependents(update.Node())
                && |result.value| == |order| + 1 && result.value[|order|] == update
                && Reported([], result.value[..|order|], old(model).ops, order)
    {
      hide Structure;
      order := [];
      if update.Node() !in live {
        return None, [];
      }
      if update.state == Success {
        CompleteSuccess(update);
        return Some([]), [];
      }
      if update.state == Failed || update.state == Rejected {
        var failed;
        failed, order := CompleteFailure(update);
        return Some(failed), order;
      }
      return Some([]), [];
    }
  }
}

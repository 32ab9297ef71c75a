/** Building the pipeline: linking groups two by two and searching the result for cycles
    (internal/metastructure/changeset/changeset.go, `Init`). */
module PipelineBuild {
  import opened Common
  import opened Digraph
  import opened Operations
  import opened Scheduler
  import opened UpdateGroup
  import opened PipelineLinks

  function FreshGroup(op: ResourceUpdate): Group { Group([op], [], [], 0) }

  /** The table holds one group per operation, linked exactly as the edges say. */
  ghost predicate Built(arena: Arena, ops: map<OpUri, ResourceUpdate>, edges: set<(OpUri, OpUri)>) {
    && arena.Keys == ops.Keys
    && (forall e | e in edges :: e.0 in ops && e.1 in ops)
    && (forall n {:trigger arena[n]} | n in arena :: BuiltGroup(arena[n], ops[n], n, edges))
  }

  ghost predicate BuiltGroup(g: Group, op: ResourceUpdate, n: OpUri, edges: set<(OpUri, OpUri)>) {
    && g.updates == [op]
    && g.count == |g.backing|
    && NoDup(g.upstream) && Elements(g.upstream) == Preds(edges, n)
    && NoDup(g.backing) && Elements(g.backing) == Succs(edges, n)
  }

  /** Group `a` waits for group `b`, noted once on both sides. */
  function Link(arena: Arena, a: OpUri, b: OpUri): Arena
    requires a in arena && b in arena
  {
    if b in arena[a].upstream then arena
    else
      var m := arena[a := arena[a].(upstream := arena[a].upstream + [b])];
      m[b := m[b].(backing := m[b].Downstream() + [a], count := m[b].count + 1)]
  }

  lemma {:induction false} AddedEdge(edges: set<(OpUri, OpUri)>, a: OpUri, b: OpUri, n: OpUri)
    ensures Preds(edges + {(b, a)}, n) == Preds(edges, n) + (if n == a then {b} else {})
    ensures Succs(edges + {(b, a)}, n) == Succs(edges, n) + (if n == b then {a} else {})
  {
    var more := edges + {(b, a)};
    forall x ensures x in Preds(more, n) <==> x in Preds(edges, n) || (n == a && x == b) {
      assert x in Preds(edges, n) <==> (x, n) in edges;
      assert x in Preds(more, n) <==> (x, n) in more;
    }
    forall x ensures x in Succs(more, n) <==> x in Succs(edges, n) || (n == b && x == a) {
      assert x in Succs(edges, n) <==> (n, x) in edges;
      assert x in Succs(more, n) <==> (n, x) in more;
    }
  }

  lemma {:induction false} AppendElement<T>(s: seq<T>, x: T)
    requires NoDup(s)
    ensures Elements(s + [x]) == Elements(s) + {x}
    ensures x !in s ==> NoDup(s + [x])
  {
  }

  lemma {:induction false} LinkStep(
    arena: Arena, ops: map<OpUri, ResourceUpdate>, edges: set<(OpUri, OpUri)>, a: OpUri, b: OpUri)
    requires Built(arena, ops, edges) && a in ops && b in ops
    ensures Built(Link(arena, a, b), ops, edges + {(b, a)})
  {
    var r, more := Link(arena, a, b), edges + {(b, a)};
    assert BuiltGroup(arena[a], ops[a], a, edges) && BuiltGroup(arena[b], ops[b], b, edges);
    assert b in Preds(edges, a) <==> (b, a) in edges;
    assert a in Succs(edges, b) <==> (b, a) in edges;
    assert b in arena[a].upstream <==> b in Elements(arena[a].upstream);
    assert a in arena[b].backing <==> a in Elements(arena[b].backing);
    if (b, a) in edges {
      assert more == edges;
    } else {
      assert r.Keys == arena.Keys;
      forall n | n in r ensures BuiltGroup(r[n], ops[n], n, more) {
        assert BuiltGroup(arena[n], ops[n], n, edges);
        AddedEdge(edges, a, b, n);
        AppendElement(arena[n].upstream, b);
        AppendElement(arena[n].backing, a);
      }
    }
  }

  /** No walk from `n` meets a node twice or comes across `visited`. */
  ghost predicate CleanFrom(edges: set<(OpUri, OpUri)>, n: OpUri, visited: set<OpUri>) {
    forall w: seq<OpUri> | IsWalk(edges, w) && w[0] == n :: NoDup(w) && Elements(w) !! visited
  }

  lemma {:induction false} CleanStep(edges: set<(OpUri, OpUri)>, n: OpUri, visited: set<OpUri>)
    requires n !in visited && forall h | h in Succs(edges, n) :: CleanFrom(edges, h, visited + {n})
    ensures CleanFrom(edges, n, visited)
  {
    forall w: seq<OpUri> | IsWalk(edges, w) && w[0] == n ensures NoDup(w) && Elements(w) !! visited {
      if |w| > 1 {
        var v := w[1..];
        assert (w[0], w[1]) in edges;
        assert forall i | 0 <= i < |v| - 1 :: (v[i], v[i + 1]) == (w[i + 1], w[i + 2]);
        assert CleanFrom(edges, w[1], visited + {n});
        assert NoDup(v) && Elements(v) !! visited + {n};
        assert w == [n] + v;
        assert Elements(w) == {n} + Elements(v);
        forall i, j | 0 <= i < j < |w| ensures w[i] != w[j] {
          assert w[j] == v[j - 1] && w[j] in Elements(v);
        }
      } else {
        assert w == [n];
      }
    }
  }

  /** A path that comes back to one of its own nodes closes a cycle. */
  lemma {:induction false} PathCloses(edges: set<(OpUri, OpUri)>, path: seq<OpUri>, n: OpUri)
    requires IsWalk(edges, path) && (path[|path| - 1], n) in edges && n in path
    ensures Cyclic(edges)
  {
    var w := path + [n];
    assert IsWalk(edges, w);
    var i :| 0 <= i < |path| && path[i] == n;
    assert w[i] == w[|path|];
    RepeatGivesCycle(edges, w);
  }

  lemma {:induction false} PathMember(path: seq<OpUri>, n: OpUri)
    ensures n in Elements(path) <==> n in path
  {
  }

  lemma {:induction false} PathGrows(edges: set<(OpUri, OpUri)>, path: seq<OpUri>, n: OpUri)
    requires path == [] || (IsWalk(edges, path) && (path[|path| - 1], n) in edges)
    ensures IsWalk(edges, path + [n]) && Elements(path + [n]) == Elements(path) + {n}
  {
  }

  /** The groups listed downstream are those that the edges lead to. */
  lemma {:induction false} BuiltDownstream(
    arena: Arena, table: map<OpUri, ResourceUpdate>, edges: set<(OpUri, OpUri)>, n: OpUri)
    requires Built(arena, table, edges) && n in arena
    ensures forall h :: h in arena[n].Downstream() <==> h in Succs(edges, n)
    ensures forall h | h in arena[n].Downstream() :: h in arena && (n, h) in edges
  {
    assert BuiltGroup(arena[n], table[n], n, edges);
    var down := arena[n].Downstream();
    assert down == arena[n].backing;
    forall h ensures h in down <==> h in Succs(edges, n) {
      assert h in down <==> h in Elements(down);
    }
  }

  lemma {:induction false} AllCleanMeansAcyclic(ops: map<OpUri, ResourceUpdate>, edges: set<(OpUri, OpUri)>)
    requires forall e | e in edges :: e.0 in ops && e.1 in ops
    requires forall n | n in ops :: CleanFrom(edges, n, {})
    ensures !Cyclic(edges)
  {
    forall w: seq<OpUri> | IsWalk(edges, w) && |w| >= 2 ensures w[0] != w[|w| - 1] {
      assert (w[0], w[1]) in edges;
      assert CleanFrom(edges, w[0], {});
    }
  }

  // ----- The edges of a builder that has come part of the way -----

  ghost function DeleteEdgesFrom(m: map<FormaeUri, ResourceUpdate>, done: set<FormaeUri>): set<(OpUri, OpUri)> {
    set d, r | d in done && d in m && r in m[d].resolvables && r.Stripped() in m
      :: (OpUri(d, Delete), OpUri(r.Stripped(), Delete))
  }

  ghost function CreateUpdateEdgesFrom(m: map<FormaeUri, ResourceUpdate>, done: set<FormaeUri>): set<(OpUri, OpUri)> {
    set c, r | c in done && c in m && r in m[c].resolvables && r.Stripped() in m
      :: (OpUri(r.Stripped(), m[r.Stripped()].operation), OpUri(c, m[c].operation))
  }

  ghost function DeleteToCreateEdgesFrom(
    dels: map<string, ResourceUpdate>, creates: map<string, ResourceUpdate>, done: set<string>): set<(OpUri, OpUri)>
  {
    set k | k in done && k in dels && k in creates :: (dels[k].Node(), creates[k].Node())
  }

  /** The edges of one delete for the first references in its list. */
  ghost function DeleteEdgesOf(m: map<FormaeUri, ResourceUpdate>, d: FormaeUri, rs: seq<FormaeUri>): set<(OpUri,
      OpUri)> {
    set r | r in rs && r.Stripped() in m :: (OpUri(d, Delete), OpUri(r.Stripped(), Delete))
  }

  ghost function CreateUpdateEdgesOf(m: map<FormaeUri, ResourceUpdate>, c: FormaeUri,
      rs: seq<FormaeUri>): set<(OpUri, OpUri)>
    requires c in m
  {
    set r | r in rs && r.Stripped() in m :: (OpUri(r.Stripped(), m[r.Stripped()].operation), OpUri(c, m[c].operation))
  }

  lemma {:induction false} DeleteEdgesMore(m: map<FormaeUri, ResourceUpdate>, d: FormaeUri, rs: seq<FormaeUri>, i: nat)
    requires i < |rs|
    ensures DeleteEdgesOf(m, d, rs[..i + 1]) == DeleteEdgesOf(m, d, rs[..i]) +
            (if rs[i].Stripped() in m then {(OpUri(d, Delete), OpUri(rs[i].Stripped(), Delete))} else {})
  {
    assert rs[..i + 1] == rs[..i] + [rs[i]];
  }

  lemma {:induction false} CreateUpdateEdgesMore(m: map<FormaeUri, ResourceUpdate>, c: FormaeUri,
      rs: seq<FormaeUri>, i: nat)
    requires c in m && i < |rs|
    ensures CreateUpdateEdgesOf(m, c, rs[..i + 1]) == CreateUpdateEdgesOf(m, c, rs[..i]) +
            (if rs[i].Stripped() in m
             then {(OpUri(rs[i].Stripped(), m[rs[i].Stripped()].operation), OpUri(c, m[c].operation))} else {})
  {
    assert rs[..i + 1] == rs[..i] + [rs[i]];
  }

  lemma {:induction false} DeleteEdgesNext(m: map<FormaeUri, ResourceUpdate>, done: set<FormaeUri>, d: FormaeUri)
    requires d in m
    ensures DeleteEdgesFrom(m, done + {d}) == DeleteEdgesFrom(m, done) + DeleteEdgesOf(m, d, m[d].resolvables)
  {
  }

  lemma {:induction false} CreateUpdateEdgesNext(m: map<FormaeUri, ResourceUpdate>, done: set<FormaeUri>, c: FormaeUri)
    requires c in m
    ensures CreateUpdateEdgesFrom(m, done + {c}) ==
            CreateUpdateEdgesFrom(m, done) + CreateUpdateEdgesOf(m, c, m[c].resolvables)
  {
  }

  lemma {:induction false} DeleteToCreateEdgesNext(
    dels: map<string, ResourceUpdate>, creates: map<string, ResourceUpdate>, done: set<string>, k: string)
    requires k in dels
    ensures DeleteToCreateEdgesFrom(dels, creates, done + {k}) ==
            DeleteToCreateEdgesFrom(dels, creates, done) +
            (if k in creates then {(dels[k].Node(), creates[k].Node())} else {})
  {
  }

  /** A pipeline as `Init` leaves it stands for a scheduler that has not started anything. */
  lemma {:induction false} BuiltStructure(arena: Arena, ops: seq<ResourceUpdate>)
    requires Built(arena, GroupOps(ops), Edges(ops)) && !Cyclic(Edges(ops))
    ensures Structure(arena, Fresh(GroupOps(ops), Edges(ops)))
  {
    var m, edges := GroupOps(ops), Edges(ops);
    TablesConsistent(ops);
    EdgesWellFormed(ops);
    hide Edges, GroupOps, DeleteOps, CreateUpdateOps;
    var t := Fresh(m, edges);
    assert t.Live() == m.Keys;
    forall n | n in arena
      ensures LinksMatch(arena[n].upstream, arena[n].Downstream(), n, edges, {}, t.Live())
      ensures GroupKnown(arena[n], m.Keys)
    {
      BuiltLinks(arena, m, edges, n);
    }
  }

  lemma {:induction false} BuiltLinks(
    arena: Arena, m: map<OpUri, ResourceUpdate>, edges: set<(OpUri, OpUri)>, n: OpUri)
    requires Built(arena, m, edges) && n in arena
    ensures LinksMatch(arena[n].upstream, arena[n].Downstream(), n, edges, {}, m.Keys)
    ensures GroupKnown(arena[n], m.Keys)
  {
    var g := arena[n];
    assert BuiltGroup(g, m[n], n, edges);
    assert g.Downstream() == g.backing;
    forall x | x in g.upstream ensures x in m {
      assert x in Elements(g.upstream);
      assert (x, n) in edges;
    }
    forall x | x in g.backing ensures x in m {
      assert x in Elements(g.backing);
      assert (n, x) in edges;
    }
  }

  lemma {:induction false} SplitNotStarted(updates: seq<ResourceUpdate>)
    requires forall u | u in updates :: u.state == NotStarted
    ensures forall o | o in SplitReplaces(updates) :: o.state == NotStarted
  {
    if updates != [] {
      SplitNotStarted(updates[..|updates| - 1]);
      assert updates[|updates| - 1] in updates;
    }
  }
}

/** Commands in which the operations on one resource are a single one or a replacement
    (internal/metastructure/changeset/changeset.go, `connectDeleteToCreate`). */
module Replacements {
  import opened Digraph
  import opened Operations
  import opened Scheduler

  /** Operations on one resource are a single one, or one delete and one create of the same stack, label and
      type that no other delete or create shares. */
  ghost predicate SingleOrReplacement(ops: seq<ResourceUpdate>) {
    && DistinctNodes(ops)
    && forall a, b | a in ops && b in ops && a.Node() != b.Node() && a.Uri() == b.Uri() ::
      && {a.operation, b.operation} == {Delete, Create}
      && a.ResourceKey() == b.ResourceKey()
      && forall x | x in ops && x.ResourceKey() == a.ResourceKey() ::
           (x.operation == Delete || x.operation == Create) ==> x == a || x == b
  }

  lemma {:induction false} PairOrdered(ops: seq<ResourceUpdate>, a: ResourceUpdate, b: ResourceUpdate)
    requires SingleOrReplacement(ops)
    requires a in ops && b in ops && a.Node() != b.Node() && a.Uri() == b.Uri()
    ensures Reaches(Edges(ops), a.Node(), b.Node()) || Reaches(Edges(ops), b.Node(), a.Node())
  {
    hide Edges;
    var edges := Edges(ops);
    assert {a.operation, b.operation} == {Delete, Create};
    if a.operation == Delete {
      DeleteFirst(ops, a, b);
      assert WalkFromTo(edges, a.Node(), b.Node(), [a.Node(), b.Node()]);
    } else {
      DeleteFirst(ops, b, a);
      assert WalkFromTo(edges, b.Node(), a.Node(), [b.Node(), a.Node()]);
    }
  }

  /** The create of a replacement is linked behind its delete. */
  lemma {:induction false} DeleteFirst(ops: seq<ResourceUpdate>, d: ResourceUpdate, c: ResourceUpdate)
    requires SingleOrReplacement(ops) && d in ops && c in ops && d.Uri() == c.Uri()
    requires d.operation == Delete && c.operation == Create
    ensures (d.Node(), c.Node()) in Edges(ops)
  {
    hide Edges;
    CreateWaitsForDelete(ops, d.Node(), c.Node());
    var i :| 0 <= i < |ops| && ops[i] == d;
    var j :| 0 <= j < |ops| && ops[j] == c;
    assert d.Node() != c.Node();
    OnlyOneByKey(ops, d, c, i, d);
    OnlyOneByKey(ops, d, c, j, c);
  }

  lemma {:induction false} OnlyOneByKey(
    ops: seq<ResourceUpdate>, d: ResourceUpdate, c: ResourceUpdate, i: nat, x: ResourceUpdate)
    requires SingleOrReplacement(ops) && d in ops && c in ops && d.Uri() == c.Uri()
    requires d.operation == Delete && c.operation == Create && (x == d || x == c) && i < |ops| && ops[i] == x
    ensures IsLastByKey(ops, x.operation, i) && d.ResourceKey() == c.ResourceKey()
  {
    assert d.Node() != c.Node();
    forall j | i < j < |ops| && ops[j].operation == x.operation ensures ops[j].ResourceKey() != x.ResourceKey() {
      assert ops[j] in ops && ops[i].Node() != ops[j].Node();
    }
  }

  lemma {:induction false} SingleOrReplacementOrdered(ops: seq<ResourceUpdate>)
    requires SingleOrReplacement(ops)
    ensures SameUriOrdered(Fresh(GroupOps(ops), Edges(ops)))
  {
    var m, edges := GroupOps(ops), Edges(ops);
    forall p, q | p in m && q in m && p != q && p.uri == q.uri
      ensures Reaches(edges, p, q) || Reaches(edges, q, p)
    {
      TablesConsistent(ops);
      PairOrdered(ops, m[p], m[q]);
    }
  }

  /** In a run of operations that are single or replacements, no resource ever has two operations in progress,
      so a finish report's URI names the operation that finished. */
  lemma {:induction false} RunOneOperationPerUri(updates: seq<ResourceUpdate>, b: seq<Exec>, i: nat, n: OpUri, m: OpUri)
    requires SingleOrReplacement(updates) && !Cyclic(Edges(updates))
    requires IsRun(GroupOps(updates), Edges(updates), b) && i < |b|
    requires n in b[i].sched.Running() && m in b[i].sched.Running() && n.uri == m.uri
    ensures n == m
  {
    EdgesWellFormed(updates);
    RunInvariant(GroupOps(updates), Edges(updates), b, 0, i);
    SingleOrReplacementOrdered(updates);
    AtMostOneRunningPerUri(b[i].sched, n, m);
  }
}

/** Resource updates and the dependency graph that a changeset builds from them
    (internal/metastructure/changeset/changeset.go, `Init` and the three dependency builders). */
module Operations {
  import opened Digraph

  /** A KSUID-based resource URI with an optional property path. */
  datatype FormaeUri = FormaeUri(ksuid: string, property: string) {
    function Stripped(): FormaeUri { FormaeUri(ksuid, "") }
  }

  datatype OperationType = Create | Update | Delete | Read | Replace

  datatype UpdateState =
    | Unknown | NotStarted | Pending | InProgress | Failed | Success
    | CancelInProgress | CancelComplete | Rejected

  /** The operation URI that identifies one group: KSUID, property path and operation. */
  datatype OpUri = OpUri(uri: FormaeUri, op: OperationType)

  datatype ResourceUpdate = ResourceUpdate(
    ksuid: string,
    stack: string,
    resourceLabel: string,
    resourceType: string,
    operation: OperationType,
    resolvables: seq<FormaeUri>,
    state: UpdateState)
  {
    function Uri(): FormaeUri { FormaeUri(ksuid, "") }
    function Node(): OpUri { OpUri(Uri(), operation) }
    function ResourceKey(): string { stack + "/" + resourceLabel + "/" + resourceType }
    function Namespace(): string { FirstFragment(resourceType) }
    predicate IsCreateOrUpdate() { operation == Create || operation == Update }
    predicate References(uri: FormaeUri) { exists r :: r in resolvables && r.Stripped() == uri }
  }

  /** The part of a resource type before its first "::". */
  function FirstFragment(typ: string): string {
    if |typ| < 2 then typ
    else if typ[..2] == "::" then ""
    else [typ[0]] + FirstFragment(typ[1..])
  }

  /** One operation per update, a replace giving a delete followed by a create. */
  function SplitReplaces(updates: seq<ResourceUpdate>): seq<ResourceUpdate> {
    if updates == [] then []
    else
      var u := updates[|updates| - 1];
      SplitReplaces(updates[..|updates| - 1]) +
      (if u.operation == Replace then [u.(operation := Delete), u.(operation := Create)] else [u])
  }

  // The lookup tables that `Init` and the builders fill in operation order; a later entry for the same key wins.

  function GroupOps(ops: seq<ResourceUpdate>): map<OpUri, ResourceUpdate> {
    if ops == [] then map[]
    else
      var o := ops[|ops| - 1];
      GroupOps(ops[..|ops| - 1])[o.Node() := o]
  }

  function DeleteOps(ops: seq<ResourceUpdate>): map<FormaeUri, ResourceUpdate> {
    if ops == [] then map[]
    else
      var m, o := DeleteOps(ops[..|ops| - 1]), ops[|ops| - 1];
      if o.operation == Delete then m[o.Uri() := o] else m
  }

  function CreateUpdateOps(ops: seq<ResourceUpdate>): map<FormaeUri, ResourceUpdate> {
    if ops == [] then map[]
    else
      var m, o := CreateUpdateOps(ops[..|ops| - 1]), ops[|ops| - 1];
      if o.IsCreateOrUpdate() then m[o.Uri() := o] else m
  }

  function ByKey(ops: seq<ResourceUpdate>, operation: OperationType): map<string, ResourceUpdate> {
    if ops == [] then map[]
    else
      var m, o := ByKey(ops[..|ops| - 1], operation), ops[|ops| - 1];
      if o.operation == operation then m[o.ResourceKey() := o] else m
  }

  // The edges of the graph, as sets: `(a, b)` means b waits for a.

  /** Reversed order for deletes: what is referenced waits for its referrer. */
  ghost function DeleteEdges(ops: seq<ResourceUpdate>): set<(OpUri, OpUri)> {
    var m := DeleteOps(ops);
    set d, r | d in m && r in m[d].resolvables && r.Stripped() in m
      :: (OpUri(d, Delete), OpUri(r.Stripped(), Delete))
  }

  /** Reference order for creates and updates: a referrer waits for what it references. */
  ghost function CreateUpdateEdges(ops: seq<ResourceUpdate>): set<(OpUri, OpUri)> {
    var m := CreateUpdateOps(ops);
    set c, r | c in m && r in m[c].resolvables && r.Stripped() in m
      :: (OpUri(r.Stripped(), m[r.Stripped()].operation), OpUri(c, m[c].operation))
  }

  /** A create waits for the delete with the same stack, label and type. */
  ghost function DeleteToCreateEdges(ops: seq<ResourceUpdate>): set<(OpUri, OpUri)> {
    var dels, creates := ByKey(ops, Delete), ByKey(ops, Create);
    set k | k in dels && k in creates :: (dels[k].Node(), creates[k].Node())
  }

  ghost function Edges(ops: seq<ResourceUpdate>): set<(OpUri, OpUri)> {
    DeleteEdges(ops) + CreateUpdateEdges(ops) + DeleteToCreateEdges(ops)
  }

  /** Who references whom among the operations of one table: `(a, b)` means a references b. */
  ghost function ReferenceEdges(m: map<FormaeUri, ResourceUpdate>): set<(FormaeUri, FormaeUri)> {
    set a, r | a in m && r in m[a].resolvables && FormaeUri(r.ksuid, "") in m :: (a, FormaeUri(r.ksuid, ""))
  }

  // ----- What the tables hold -----

  lemma {:induction false} TablesConsistent(ops: seq<ResourceUpdate>)
    ensures forall n | n in GroupOps(ops) :: GroupOps(ops)[n] in ops && GroupOps(ops)[n].Node() == n
    ensures forall o | o in ops :: o.Node() in GroupOps(ops)
    ensures forall d | d in DeleteOps(ops) ::
              && OpUri(d, Delete) in GroupOps(ops)
              && DeleteOps(ops)[d] == GroupOps(ops)[OpUri(d, Delete)]
    ensures forall o | o in ops && o.operation == Delete :: o.Uri() in DeleteOps(ops)
    ensures forall c | c in CreateUpdateOps(ops) ::
              && CreateUpdateOps(ops)[c].IsCreateOrUpdate()
              && CreateUpdateOps(ops)[c].Node() == OpUri(c, CreateUpdateOps(ops)[c].operation)
              && CreateUpdateOps(ops)[c].Node() in GroupOps(ops)
              && CreateUpdateOps(ops)[c] == GroupOps(ops)[CreateUpdateOps(ops)[c].Node()]
    ensures forall o | o in ops && o.IsCreateOrUpdate() :: o.Uri() in CreateUpdateOps(ops)
  {
    hide GroupOps, DeleteOps, CreateUpdateOps;
    GroupTableConsistent(ops);
    DeleteTableConsistent(ops);
    CreateUpdateTableConsistent(ops);
  }

  lemma {:induction false} GroupTableConsistent(ops: seq<ResourceUpdate>)
    ensures forall n | n in GroupOps(ops) :: GroupOps(ops)[n] in ops && GroupOps(ops)[n].Node() == n
    ensures forall o | o in ops :: o.Node() in GroupOps(ops)
  {
    if ops != [] {
      var init, o := ops[..|ops| - 1], ops[|ops| - 1];
      GroupTableConsistent(init);
      assert ops == init + [o];
    }
  }

  lemma {:induction false} DeleteTableConsistent(ops: seq<ResourceUpdate>)
    ensures forall d | d in DeleteOps(ops) ::
              && OpUri(d, Delete) in GroupOps(ops)
              && DeleteOps(ops)[d] == GroupOps(ops)[OpUri(d, Delete)]
    ensures forall o | o in ops && o.operation == Delete :: o.Uri() in DeleteOps(ops)
  {
    if ops != [] {
      var init, o := ops[..|ops| - 1], ops[|ops| - 1];
      DeleteTableConsistent(init);
      assert ops == init + [o];
    }
  }

  lemma {:induction false} CreateUpdateTableConsistent(ops: seq<ResourceUpdate>)
    ensures forall c | c in CreateUpdateOps(ops) ::
              && CreateUpdateOps(ops)[c].IsCreateOrUpdate()
              && CreateUpdateOps(ops)[c].Node() == OpUri(c, CreateUpdateOps(ops)[c].operation)
              && CreateUpdateOps(ops)[c].Node() in GroupOps(ops)
              && CreateUpdateOps(ops)[c] == GroupOps(ops)[CreateUpdateOps(ops)[c].Node()]
    ensures forall o | o in ops && o.IsCreateOrUpdate() :: o.Uri() in CreateUpdateOps(ops)
  {
    if ops != [] {
      var init, o := ops[..|ops| - 1], ops[|ops| - 1];
      CreateUpdateTableConsistent(init);
      assert ops == init + [o];
    }
  }

  lemma {:induction false} KeyTableConsistent(ops: seq<ResourceUpdate>, operation: OperationType)
    ensures forall k | k in ByKey(ops, operation) ::
              && ByKey(ops, operation)[k] in ops
              && ByKey(ops, operation)[k].ResourceKey() == k
              && ByKey(ops, operation)[k].operation == operation
    ensures forall o | o in ops && o.operation == operation :: o.ResourceKey() in ByKey(ops, operation)
  {
    if ops != [] {
      var init, o := ops[..|ops| - 1], ops[|ops| - 1];
      KeyTableConsistent(init, operation);
      assert ops == init + [o];
    }
  }

  lemma {:induction false} KeysHaveGroups(ops: seq<ResourceUpdate>, operation: OperationType)
    ensures forall k | k in ByKey(ops, operation) :: ByKey(ops, operation)[k].Node() in GroupOps(ops)
  {
    TablesConsistent(ops);
    KeyTableConsistent(ops, operation);
  }

  /** The kinds of operation an edge joins, builder by builder. */
  lemma {:induction false} EdgeShape(ops: seq<ResourceUpdate>, e: (OpUri, OpUri))
    requires e in Edges(ops)
    ensures e.0 in GroupOps(ops) && e.1 in GroupOps(ops)
    ensures e in DeleteEdges(ops) ==> e.0.op == Delete && e.1.op == Delete
    ensures e in CreateUpdateEdges(ops) ==> e.0.op != Delete && e.1.op != Delete
    ensures e in DeleteToCreateEdges(ops) ==> e.0.op == Delete && e.1.op == Create
  {
    hide GroupOps, DeleteEdges, CreateUpdateEdges, DeleteToCreateEdges;
    if e in DeleteEdges(ops) {
      DeleteEdgeShape(ops, e);
    }
    if e in CreateUpdateEdges(ops) {
      CreateUpdateEdgeShape(ops, e);
    }
    if e in DeleteToCreateEdges(ops) {
      DeleteToCreateEdgeShape(ops, e);
    }
  }

  lemma {:induction false} DeleteEdgeShape(ops: seq<ResourceUpdate>, e: (OpUri, OpUri))
    requires e in DeleteEdges(ops)
    ensures e.0 in GroupOps(ops) && e.1 in GroupOps(ops) && e.0.op == Delete && e.1.op == Delete
  {
    hide GroupOps, DeleteOps;
    DeleteTableConsistent(ops);
  }

  lemma {:induction false} CreateUpdateEdgeShape(ops: seq<ResourceUpdate>, e: (OpUri, OpUri))
    requires e in CreateUpdateEdges(ops)
    ensures e.0 in GroupOps(ops) && e.1 in GroupOps(ops) && e.0.op != Delete && e.1.op != Delete
  {
    hide GroupOps, CreateUpdateOps;
    CreateUpdateTableConsistent(ops);
    var m := CreateUpdateOps(ops);
    var c, r :| c in m && r in m[c].resolvables && r.Stripped() in m
      && e == (OpUri(r.Stripped(), m[r.Stripped()].operation), OpUri(c, m[c].operation));
  }

  lemma {:induction false} DeleteToCreateEdgeShape(ops: seq<ResourceUpdate>, e: (OpUri, OpUri))
    requires e in DeleteToCreateEdges(ops)
    ensures e.0 in GroupOps(ops) && e.1 in GroupOps(ops) && e.0.op == Delete && e.1.op == Create
  {
    hide GroupOps, ByKey;
    KeyTableConsistent(ops, Delete);
    KeyTableConsistent(ops, Create);
    KeysHaveGroups(ops, Delete);
    KeysHaveGroups(ops, Create);
  }

  lemma {:induction false} EdgesWellFormed(ops: seq<ResourceUpdate>)
    ensures forall e | e in Edges(ops) :: e.0 in GroupOps(ops) && e.1 in GroupOps(ops)
    ensures forall e | e in Edges(ops) && e.1.op == Delete :: e.0.op == Delete && e in DeleteEdges(ops)
    ensures forall e | e in Edges(ops) && e.0.op != Delete :: e.1.op != Delete && e in CreateUpdateEdges(ops)
  {
    forall e | e in Edges(ops)
      ensures e.0 in GroupOps(ops) && e.1 in GroupOps(ops)
      ensures e.1.op == Delete ==> e.0.op == Delete && e in DeleteEdges(ops)
      ensures e.0.op != Delete ==> e.1.op != Delete && e in CreateUpdateEdges(ops)
    {
      EdgeShape(ops, e);
    }
  }

  // ----- Cycles -----

  ghost function MapSeq<A, B>(f: A -> B, s: seq<A>): (r: seq<B>)
    ensures |r| == |s| && forall i | 0 <= i < |s| :: r[i] == f(s[i])
  {
    seq(|s|, i requires 0 <= i < |s| => f(s[i]))
  }

  /** A map of nodes that turns every edge of a closed walk round carries the walk to a closed walk. */
  lemma {:induction false} TransportReversed<A(!new), B(!new)>(
    edges: set<(A, A)>, target: set<(B, B)>, f: A -> B, w: seq<A>)
    requires IsClosedWalk(edges, w)
    requires forall i | 0 <= i < |w| - 1 :: (f(w[i + 1]), f(w[i])) in target
    ensures Cyclic(target)
  {
    var v := seq(|w|, i requires 0 <= i < |w| => f(w[|w| - 1 - i]));
    forall i | 0 <= i < |v| - 1 ensures (v[i], v[i + 1]) in target {
      var k := |w| - 2 - i;
      assert v[i] == f(w[k + 1]) && v[i + 1] == f(w[k]);
    }
    assert IsClosedWalk(target, v);
  }

  /** Once a walk has left the deletes it stays away from them. */
  lemma {:induction false} NoReturnToDeletes(ops: seq<ResourceUpdate>, w: seq<OpUri>, i: nat, j: nat)
    requires IsWalk(Edges(ops), w) && i <= j < |w| && w[i].op != Delete
    ensures w[j].op != Delete
    decreases j - i
  {
    if i < j {
      assert (w[i], w[i + 1]) in Edges(ops);
      EdgesWellFormed(ops);
      NoReturnToDeletes(ops, w, i + 1, j);
    }
  }

  /** A closed walk runs through deletes only or through creates and updates only. */
  lemma {:induction false} ClosedWalkStaysInPhase(ops: seq<ResourceUpdate>, w: seq<OpUri>)
    requires IsClosedWalk(Edges(ops), w)
    ensures (forall i | 0 <= i < |w| :: w[i].op == Delete) || (forall i | 0 <= i < |w| :: w[i].op != Delete)
  {
    forall i | 0 <= i < |w| && w[0].op != Delete ensures w[i].op != Delete {
      NoReturnToDeletes(ops, w, 0, i);
    }
    forall i | 0 <= i < |w| && w[0].op == Delete ensures w[i].op == Delete {
      if w[i].op != Delete {
        NoReturnToDeletes(ops, w, i, |w| - 1);
      }
    }
  }

  /** `Init` meets a cycle exactly when the references among deleted resources, or those among created and
      updated ones, contain one. Splitting replaces and putting creates behind deletes adds none. */
  lemma {:induction false} CycleCharacterisation(ops: seq<ResourceUpdate>)
    ensures Cyclic(Edges(ops)) <==>
            Cyclic(ReferenceEdges(DeleteOps(ops))) || Cyclic(ReferenceEdges(CreateUpdateOps(ops)))
  {
    if Cyclic(Edges(ops)) {
      OperationCycleIsReferenceCycle(ops);
    }
    if Cyclic(ReferenceEdges(DeleteOps(ops))) {
      var refs := ReferenceEdges(DeleteOps(ops));
      var w: seq<FormaeUri> :| IsClosedWalk(refs, w);
      var f := (u: FormaeUri) => OpUri(u, Delete);
      forall i | 0 <= i < |w| - 1 ensures (f(w[i]), f(w[i + 1])) in Edges(ops) {
        DeleteReference(ops, w[i], w[i + 1]);
      }
      DirectTransport(refs, Edges(ops), f, w);
    }
    if Cyclic(ReferenceEdges(CreateUpdateOps(ops))) {
      var m := CreateUpdateOps(ops);
      var refs := ReferenceEdges(m);
      var w: seq<FormaeUri> :| IsClosedWalk(refs, w);
      var f := (u: FormaeUri) => OpUri(u, if u in m then m[u].operation else Read);
      forall i | 0 <= i < |w| - 1 ensures (f(w[i + 1]), f(w[i])) in Edges(ops) {
        CreateUpdateReference(ops, w[i], w[i + 1]);
      }
      TransportReversed(refs, Edges(ops), f, w);
    }
  }

  lemma {:induction false} DeleteReference(ops: seq<ResourceUpdate>, a: FormaeUri, b: FormaeUri)
    requires (a, b) in ReferenceEdges(DeleteOps(ops))
    ensures (OpUri(a, Delete), OpUri(b, Delete)) in Edges(ops)
  {
    hide DeleteOps, CreateUpdateEdges, DeleteToCreateEdges;
    var m := DeleteOps(ops);
    var r :| r in m[a].resolvables && FormaeUri(r.ksuid, "") in m && b == FormaeUri(r.ksuid, "");
    assert r.Stripped() == b;
    assert (OpUri(a, Delete), OpUri(r.Stripped(), Delete)) in DeleteEdges(ops);
  }

  lemma {:induction false} CreateUpdateReference(ops: seq<ResourceUpdate>, a: FormaeUri, b: FormaeUri)
    requires (a, b) in ReferenceEdges(CreateUpdateOps(ops))
    ensures var m := CreateUpdateOps(ops);
            a in m && b in m && (OpUri(b, m[b].operation), OpUri(a, m[a].operation)) in Edges(ops)
  {
    hide CreateUpdateOps, DeleteEdges, DeleteToCreateEdges;
    var m := CreateUpdateOps(ops);
    var r :| r in m[a].resolvables && FormaeUri(r.ksuid, "") in m && b == FormaeUri(r.ksuid, "");
    assert r.Stripped() == b;
    assert (OpUri(r.Stripped(), m[r.Stripped()].operation), OpUri(a, m[a].operation)) in CreateUpdateEdges(ops);
  }

  lemma {:induction false} DirectTransport<A(!new), B(!new)>(
    edges: set<(A, A)>, target: set<(B, B)>, f: A -> B, w: seq<A>)
    requires IsClosedWalk(edges, w)
    requires forall i | 0 <= i < |w| - 1 :: (f(w[i]), f(w[i + 1])) in target
    ensures Cyclic(target)
  {
    var v := MapSeq(f, w);
    assert IsClosedWalk(target, v);
  }

  lemma {:induction false} OperationCycleIsReferenceCycle(ops: seq<ResourceUpdate>)
    requires Cyclic(Edges(ops))
    ensures Cyclic(ReferenceEdges(DeleteOps(ops))) || Cyclic(ReferenceEdges(CreateUpdateOps(ops)))
  {
    var w: seq<OpUri> :| IsClosedWalk(Edges(ops), w);
    ClosedWalkStaysInPhase(ops, w);
    EdgesWellFormed(ops);
    var f := (n: OpUri) => n.uri;
    if w[0].op == Delete {
      var refs := ReferenceEdges(DeleteOps(ops));
      forall i | 0 <= i < |w| - 1 ensures (f(w[i]), f(w[i + 1])) in refs {
        assert (w[i], w[i + 1]) in DeleteEdges(ops);
      }
      DirectTransport(Edges(ops), refs, f, w);
    } else {
      var refs := ReferenceEdges(CreateUpdateOps(ops));
      forall i | 0 <= i < |w| - 1 ensures (f(w[i + 1]), f(w[i])) in refs {
        assert (w[i], w[i + 1]) in CreateUpdateEdges(ops);
      }
      TransportReversed(Edges(ops), refs, f, w);
    }
  }

  // ----- What the edges mean for the operations of a command -----

  ghost predicate DistinctNodes(ops: seq<ResourceUpdate>) {
    forall i, j | 0 <= i < j < |ops| :: ops[i].Node() != ops[j].Node()
  }

  /** The last operation of one of these kinds on its resource. */
  ghost predicate IsLast(ops: seq<ResourceUpdate>, kinds: set<OperationType>, i: int) {
    0 <= i < |ops| && ops[i].operation in kinds &&
    forall j | i < j < |ops| && ops[j].operation in kinds :: ops[j].ksuid != ops[i].ksuid
  }

  lemma {:induction false} ShorterLast(ops: seq<ResourceUpdate>, kinds: set<OperationType>, i: nat)
    requires IsLast(ops, kinds, i) && i < |ops| - 1
    ensures IsLast(ops[..|ops| - 1], kinds, i)
    ensures ops[|ops| - 1].operation in kinds ==> ops[|ops| - 1].ksuid != ops[i].ksuid
  {
    var init := ops[..|ops| - 1];
    assert forall j | 0 <= j < |init| :: init[j] == ops[j];
  }

  /** In each table the last operation on a resource wins. */
  lemma {:induction false} LastDeleteWins(ops: seq<ResourceUpdate>, i: nat)
    requires IsLast(ops, {Delete}, i)
    ensures var uri := FormaeUri(ops[i].ksuid, ""); uri in DeleteOps(ops) && DeleteOps(ops)[uri] == ops[i]
  {
    if i < |ops| - 1 {
      ShorterLast(ops, {Delete}, i);
      LastDeleteWins(ops[..|ops| - 1], i);
    }
  }

  lemma {:induction false} LastCreateOrUpdateWins(ops: seq<ResourceUpdate>, i: nat)
    requires IsLast(ops, {Create, Update}, i)
    ensures var uri := FormaeUri(ops[i].ksuid, ""); uri in CreateUpdateOps(ops) && CreateUpdateOps(ops)[uri] == ops[i]
  {
    if i < |ops| - 1 {
      ShorterLast(ops, {Create, Update}, i);
      LastCreateOrUpdateWins(ops[..|ops| - 1], i);
    }
  }

  /** The last one of an operation on a resource is the one that its group holds. */
  lemma {:induction false} LastOperationWins(ops: seq<ResourceUpdate>, i: nat)
    requires i < |ops| && IsLast(ops, {ops[i].operation}, i)
    ensures var n := OpUri(FormaeUri(ops[i].ksuid, ""), ops[i].operation);
            n in GroupOps(ops) && GroupOps(ops)[n] == ops[i]
  {
    if i < |ops| - 1 {
      ShorterLast(ops, {ops[i].operation}, i);
      LastOperationWins(ops[..|ops| - 1], i);
    }
  }

  lemma {:induction false} LastDelete(ops: seq<ResourceUpdate>, uri: FormaeUri) returns (i: nat)
    requires uri in DeleteOps(ops)
    ensures IsLast(ops, {Delete}, i) && uri == FormaeUri(ops[i].ksuid, "") && DeleteOps(ops)[uri] == ops[i]
  {
    var n := |ops| - 1;
    if ops[n].operation == Delete && ops[n].Uri() == uri {
      i := n;
    } else {
      i := LastDelete(ops[..n], uri);
      assert forall j | 0 <= j < n :: ops[..n][j] == ops[j];
    }
  }

  lemma {:induction false} LastCreateOrUpdate(ops: seq<ResourceUpdate>, uri: FormaeUri) returns (i: nat)
    requires uri in CreateUpdateOps(ops)
    ensures IsLast(ops, {Create, Update}, i)
    ensures uri == FormaeUri(ops[i].ksuid, "") && CreateUpdateOps(ops)[uri] == ops[i]
  {
    var n := |ops| - 1;
    if ops[n].IsCreateOrUpdate() && ops[n].Uri() == uri {
      i := n;
    } else {
      i := LastCreateOrUpdate(ops[..n], uri);
      assert forall j | 0 <= j < n :: ops[..n][j] == ops[j];
    }
  }

  /** A create or update is linked behind that of another resource exactly when one of its references has that
      resource's KSUID, whatever property the reference names. */
  lemma {:induction false} ReferrerWaitsForReferenced(ops: seq<ResourceUpdate>, a: OpUri, b: OpUri)
    requires a.op != Delete && b.op != Delete
    ensures (b, a) in Edges(ops) <==>
            exists i, j | IsLast(ops, {Create, Update}, i) && IsLast(ops, {Create, Update}, j) ::
              && a == OpUri(FormaeUri(ops[i].ksuid, ""), ops[i].operation)
              && b == OpUri(FormaeUri(ops[j].ksuid, ""), ops[j].operation)
              && exists r | r in ops[i].resolvables :: r.ksuid == ops[j].ksuid
  {
    hide CreateUpdateOps, ByKey, DeleteOps;
    var m := CreateUpdateOps(ops);
    if i, j :|
        && IsLast(ops, {Create, Update}, i) && IsLast(ops, {Create, Update}, j)
        && a == OpUri(FormaeUri(ops[i].ksuid, ""), ops[i].operation)
        && b == OpUri(FormaeUri(ops[j].ksuid, ""), ops[j].operation)
        && exists r | r in ops[i].resolvables :: r.ksuid == ops[j].ksuid {
      LastCreateOrUpdateWins(ops, i);
      LastCreateOrUpdateWins(ops, j);
      var r :| r in ops[i].resolvables && r.ksuid == ops[j].ksuid;
      assert r in m[a.uri].resolvables && r.Stripped() in m;
      assert (OpUri(r.Stripped(), m[r.Stripped()].operation), OpUri(a.uri, m[a.uri].operation)) in
          CreateUpdateEdges(ops);
    }
    if (b, a) in Edges(ops) {
      OnlyCreateUpdateEdge(ops, (b, a));
      var c, r :| c in m && r in m[c].resolvables && r.Stripped() in m
        && (b, a) == (OpUri(r.Stripped(), m[r.Stripped()].operation), OpUri(c, m[c].operation));
      var i := LastCreateOrUpdate(ops, c);
      var j := LastCreateOrUpdate(ops, r.Stripped());
    }
  }

  lemma {:induction false} OnlyCreateUpdateEdge(ops: seq<ResourceUpdate>, e: (OpUri, OpUri))
    requires e in Edges(ops) && e.0.op != Delete
    ensures e in CreateUpdateEdges(ops)
  {
    hide DeleteEdges, CreateUpdateEdges, DeleteToCreateEdges;
    EdgeShape(ops, e);
  }

  lemma {:induction false} OnlyDeleteEdge(ops: seq<ResourceUpdate>, e: (OpUri, OpUri))
    requires e in Edges(ops) && e.1.op == Delete
    ensures e in DeleteEdges(ops)
  {
    hide DeleteEdges, CreateUpdateEdges, DeleteToCreateEdges;
    EdgeShape(ops, e);
  }

  lemma {:induction false} OnlyDeleteToCreateEdge(ops: seq<ResourceUpdate>, e: (OpUri, OpUri))
    requires e in Edges(ops) && e.0.op == Delete && e.1.op != Delete
    ensures e in DeleteToCreateEdges(ops)
  {
    hide DeleteEdges, CreateUpdateEdges, DeleteToCreateEdges;
    EdgeShape(ops, e);
  }

  /** A delete is linked behind that of another resource exactly when one of the other's references has its KSUID,
      whatever property the reference names. */
  lemma {:induction false} ReferencedDeleteWaitsForReferrer(ops: seq<ResourceUpdate>, a: OpUri, b: OpUri)
    requires a.op == Delete && b.op == Delete
    ensures (a, b) in Edges(ops) <==>
            exists i, j | IsLast(ops, {Delete}, i) && IsLast(ops, {Delete}, j) ::
              && a.uri == FormaeUri(ops[i].ksuid, "") && b.uri == FormaeUri(ops[j].ksuid, "")
              && exists r | r in ops[i].resolvables :: r.ksuid == ops[j].ksuid
  {
    hide CreateUpdateOps, ByKey, DeleteOps;
    var m := DeleteOps(ops);
    if i, j :|
        && IsLast(ops, {Delete}, i) && IsLast(ops, {Delete}, j)
        && a.uri == FormaeUri(ops[i].ksuid, "") && b.uri == FormaeUri(ops[j].ksuid, "")
        && exists r | r in ops[i].resolvables :: r.ksuid == ops[j].ksuid {
      LastDeleteWins(ops, i);
      LastDeleteWins(ops, j);
      var r :| r in ops[i].resolvables && r.ksuid == ops[j].ksuid;
      assert r in m[a.uri].resolvables && r.Stripped() in m;
      assert (OpUri(a.uri, Delete), OpUri(r.Stripped(), Delete)) in DeleteEdges(ops);
    }
    if (a, b) in Edges(ops) {
      OnlyDeleteEdge(ops, (a, b));
      var d, r :| d in m && r in m[d].resolvables && r.Stripped() in m
        && (a, b) == (OpUri(d, Delete), OpUri(r.Stripped(), Delete));
      var i := LastDelete(ops, d);
      var j := LastDelete(ops, r.Stripped());
    }
  }

  /** The last operation of its kind for this stack, label and type. */
  ghost predicate IsLastByKey(ops: seq<ResourceUpdate>, operation: OperationType, i: int) {
    0 <= i < |ops| && ops[i].operation == operation &&
    forall j | i < j < |ops| && ops[j].operation == operation ::
      ops[j].stack + "/" + ops[j].resourceLabel + "/" + ops[j].resourceType !=
      ops[i].stack + "/" + ops[i].resourceLabel + "/" + ops[i].resourceType
  }

  lemma {:induction false} LastByKeyWins(ops: seq<ResourceUpdate>, operation: OperationType, i: nat)
    requires IsLastByKey(ops, operation, i)
    ensures var k := ops[i].stack + "/" + ops[i].resourceLabel + "/" + ops[i].resourceType;
            k in ByKey(ops, operation) && ByKey(ops, operation)[k] == ops[i]
  {
    if i < |ops| - 1 {
      var init := ops[..|ops| - 1];
      assert forall j | 0 <= j < |init| :: init[j] == ops[j];
      LastByKeyWins(init, operation, i);
    }
  }

  lemma {:induction false} LastByKey(ops: seq<ResourceUpdate>, operation: OperationType, k: string) returns (i: nat)
    requires k in ByKey(ops, operation)
    ensures IsLastByKey(ops, operation, i) && ByKey(ops, operation)[k] == ops[i]
    ensures k == ops[i].stack + "/" + ops[i].resourceLabel + "/" + ops[i].resourceType
  {
    var n := |ops| - 1;
    if ops[n].operation == operation && ops[n].ResourceKey() == k {
      i := n;
    } else {
      i := LastByKey(ops[..n], operation, k);
      assert forall j | 0 <= j < n :: ops[..n][j] == ops[j];
    }
  }

  /** A create is linked behind a delete exactly when the two have the same stack, label and type. */
  lemma {:induction false} CreateWaitsForDelete(ops: seq<ResourceUpdate>, a: OpUri, b: OpUri)
    requires a.op == Delete && b.op == Create
    ensures (a, b) in Edges(ops) <==>
            exists i, j | IsLastByKey(ops, Delete, i) && IsLastByKey(ops, Create, j) ::
              && a.uri == FormaeUri(ops[i].ksuid, "") && b.uri == FormaeUri(ops[j].ksuid, "")
              && ops[i].stack + "/" + ops[i].resourceLabel + "/" + ops[i].resourceType ==
                 ops[j].stack + "/" + ops[j].resourceLabel + "/" + ops[j].resourceType
  {
    hide CreateUpdateOps, ByKey, DeleteOps;
    var dels, creates := ByKey(ops, Delete), ByKey(ops, Create);
    if i, j :|
        && IsLastByKey(ops, Delete, i) && IsLastByKey(ops, Create, j)
        && a.uri == FormaeUri(ops[i].ksuid, "") && b.uri == FormaeUri(ops[j].ksuid, "")
        && ops[i].stack + "/" + ops[i].resourceLabel + "/" + ops[i].resourceType ==
           ops[j].stack + "/" + ops[j].resourceLabel + "/" + ops[j].resourceType {
      LastByKeyWins(ops, Delete, i);
      LastByKeyWins(ops, Create, j);
      KindByKey(ops, i, j);
      var k := ops[i].stack + "/" + ops[i].resourceLabel + "/" + ops[i].resourceType;
      assert k in dels && k in creates;
      assert (dels[k].Node(), creates[k].Node()) in DeleteToCreateEdges(ops);
    }
    if (a, b) in Edges(ops) {
      OnlyDeleteToCreateEdge(ops, (a, b));
      var k :| k in dels && k in creates && (a, b) == (dels[k].Node(), creates[k].Node());
      var i := LastByKey(ops, Delete, k);
      var j := LastByKey(ops, Create, k);
    }
  }

  lemma {:induction false} KindByKey(ops: seq<ResourceUpdate>, i: nat, j: nat)
    requires IsLastByKey(ops, Delete, i) && IsLastByKey(ops, Create, j)
    ensures ops[i].operation == Delete && ops[j].operation == Create
  {
  }

  // ----- Splitting -----

  /** The operations of a command: its updates, with each replacement as a delete and a create that follows it. */
  lemma {:induction false} SplitExactly(updates: seq<ResourceUpdate>, o: ResourceUpdate)
    ensures o in SplitReplaces(updates) <==>
            || (o in updates && o.operation != Replace)
            || ((o.operation == Delete || o.operation == Create) && o.(operation := Replace) in updates)
  {
    if updates != [] {
      var n := |updates| - 1;
      SplitExactly(updates[..n], o);
      assert updates == updates[..n] + [updates[n]];
    }
  }

  // ----- Namespaces -----

  /** The namespace is what comes before the first "::", and the whole type if there is none. */
  lemma {:induction false} FragmentExactly(typ: string)
    ensures var r := FirstFragment(typ);
            && r <= typ
            && (forall i | 0 <= i < |r| && i + 1 < |typ| && typ[i] == ':' :: typ[i + 1] != ':')
            && (r == typ || (|r| + 1 < |typ| && typ[|r|] == ':' && typ[|r| + 1] == ':'))
  {
    if |typ| >= 2 {
      assert typ[..2] == [typ[0], typ[1]];
      if typ[..2] != "::" {
        FragmentExactly(typ[1..]);
        var r := FirstFragment(typ[1..]);
        assert typ == [typ[0]] + typ[1..];
        forall i | 0 <= i < |r| + 1 && i + 1 < |typ| && typ[i] == ':' ensures typ[i + 1] != ':' {
          if i > 0 {
            assert typ[i] == typ[1..][i - 1] && typ[i + 1] == typ[1..][i];
          }
        }
      }
    }
  }
}

/** What normalisation leaves of a document, told from the document alone
    (internal/metastructure/resource_update/resource_comparison.go, `normalizeObject`). */
module Pruning {
  import opened Common
  import opened Json
  import opened Persistence

  /** An array element that goes: an object of which nothing is left. */
  predicate IsDropped(v: Json) { v.Obj? && Hollow(v) }

  /** How many of the first elements stay. */
  function StayingBefore(items: seq<Json>, i: nat): nat
    requires i <= |items|
  {
    if i == 0 then 0 else StayingBefore(items, i - 1) + if IsDropped(items[i - 1]) then 0 else 1
  }

  /** The second value is the first one without its null and hollow properties, and without the hollow objects in its
      arrays; the elements that stay keep their order, and those that are no objects are as they were. */
  ghost predicate Pruned(v: Json, w: Json)
    decreases v
  {
    match v
    case Obj(f) =>
      && w.Obj? && (forall k :: k in w.fields <==> k in f && !Hollow(f[k]))
      && forall k | k in f && k in w.fields :: Pruned(f[k], w.fields[k])
    case Arr(items) =>
      && w.Arr? && |w.items| == StayingBefore(items, |items|)
      && forall i | 0 <= i < |items| && !IsDropped(items[i]) ::
           && StayingBefore(items, i) < |w.items|
           && if items[i].Obj? then Pruned(items[i], w.items[StayingBefore(items, i)])
              else w.items[StayingBefore(items, i)] == items[i]
    case _ => w == v
  }

  lemma {:induction false} StayingShorter(items: seq<Json>, n: nat, i: nat)
    requires i <= n <= |items|
    ensures StayingBefore(items[..n], i) == StayingBefore(items, i)
  {
    if i > 0 {
      StayingShorter(items, n, i - 1);
    }
  }

  lemma {:induction false} StayingGrows(items: seq<Json>, i: nat, j: nat)
    requires i <= j <= |items|
    ensures StayingBefore(items, i) <= StayingBefore(items, j)
    ensures i < j && !IsDropped(items[i]) ==> StayingBefore(items, i) < StayingBefore(items, j)
    decreases j
  {
    if i < j {
      StayingGrows(items, i, j - 1);
    }
  }

  /** Every place in the shorter array is some element's. */
  lemma {:induction false} WhoStays(items: seq<Json>, n: nat, q: nat) returns (i: nat)
    requires n <= |items| && q < StayingBefore(items, n)
    ensures i < n && !IsDropped(items[i]) && StayingBefore(items, i) == q
  {
    if StayingBefore(items, n - 1) == q {
      i := n - 1;
    } else {
      i := WhoStays(items, n - 1, q);
    }
  }

  lemma {:induction false} NormItemsAt(items: seq<Json>, i: nat)
    requires i < |items|
    ensures |NormItems(items)| == StayingBefore(items, |items|)
    ensures !IsDropped(items[i]) ==>
              && NormItem(items[i]).Some? && StayingBefore(items, i) < |NormItems(items)|
              && NormItems(items)[StayingBefore(items, i)] == NormItem(items[i]).value
    decreases |items|
  {
    var n := |items| - 1;
    hide IsDropped, NormItem, NormItems;
    DroppedExactly(items[n]);
    DroppedExactly(items[i]);
    StayingShorter(items, n, n);
    StayingShorter(items, n, i);
    LengthOf(items[..n]);
    NormItemsSnoc(items[..n], items[n]);
    assert items == items[..n] + [items[n]];
    if i < n {
      NormItemsAt(items[..n], i);
    }
  }

  lemma {:induction false} LengthOf(items: seq<Json>)
    ensures |NormItems(items)| == StayingBefore(items, |items|)
  {
    if items != [] {
      var n := |items| - 1;
      LengthOf(items[..n]);
      DroppedExactly(items[n]);
      StayingShorter(items, n, n);
      NormItemsSnoc(items[..n], items[n]);
      assert items == items[..n] + [items[n]];
    }
  }

  lemma {:induction false} DroppedExactly(v: Json)
    ensures IsDropped(v) <==> NormItem(v).None?
  {
    if v.Obj? {
      HollowExactly(v);
      NormObject(v.fields);
    }
  }

  lemma {:induction false} NormIsPruned(v: Json)
    requires !Hollow(v)
    ensures NormField(v).Some? && Pruned(v, NormField(v).value)
    decreases v
  {
    HollowExactly(v);
    match v
    case Obj(f) =>
      NormObject(f);
      var g := NormProps(f);
      forall k | k in f ensures NormField(f[k]).Some? <==> !Hollow(f[k]) {
        HollowExactly(f[k]);
      }
      forall k | k in f && k in g ensures Pruned(f[k], g[k]) {
        NormIsPruned(f[k]);
      }
    case Arr(items) =>
      var r := NormItems(items);
      LengthOf(items);
      forall i | 0 <= i < |items| && !IsDropped(items[i])
        ensures && StayingBefore(items, i) < |r|
                && if items[i].Obj? then Pruned(items[i], r[StayingBefore(items, i)])
                   else r[StayingBefore(items, i)] == items[i]
      {
        NormItemsAt(items, i);
        if items[i].Obj? {
          NormIsPruned(items[i]);
        }
      }
    case _ =>
  }

  lemma {:induction false} PrunedOnce(v: Json, w: Json, x: Json)
    requires Pruned(v, w) && Pruned(v, x)
    ensures w == x
    decreases v
  {
    match v
    case Obj(f) =>
      forall k | k in w.fields ensures k in x.fields && w.fields[k] == x.fields[k] {
        PrunedOnce(f[k], w.fields[k], x.fields[k]);
      }
      assert w.fields == x.fields;
    case Arr(items) =>
      forall q | 0 <= q < |w.items| ensures w.items[q] == x.items[q] {
        var i := WhoStays(items, |items|, q);
        if items[i].Obj? {
          PrunedOnce(items[i], w.items[q], x.items[q]);
        }
      }
      assert w.items == x.items;
    case _ =>
  }

  /** Normalising a property gives a value exactly if that is the pruned one and something is left. */
  lemma {:induction false} NormExactly(v: Json, w: Json)
    ensures NormField(v) == Some(w) <==> !Hollow(v) && Pruned(v, w)
  {
    HollowExactly(v);
    if !Hollow(v) {
      NormIsPruned(v);
      if Pruned(v, w) {
        PrunedOnce(v, w, NormField(v).value);
      }
    }
  }

  /** The same for the properties of a resource, of which nothing may be left. */
  lemma {:induction false} NormPropsExactly(p: Props, q: Props)
    ensures NormProps(p) == q <==> Pruned(Obj(p), Obj(q))
  {
    forall k | k in p ensures NormField(p[k]).Some? <==> !Hollow(p[k]) {
      HollowExactly(p[k]);
    }
    assert Pruned(Obj(p), Obj(NormProps(p))) by {
      forall k | k in p && k in NormProps(p) ensures Pruned(p[k], NormProps(p)[k]) {
        NormIsPruned(p[k]);
      }
    }
    if Pruned(Obj(p), Obj(q)) {
      PrunedOnce(Obj(p), Obj(q), Obj(NormProps(p)));
    }
  }

  /** Nulls, empty arrays and empty objects go, also one inside the other. */
  lemma {:induction false} EmptyValuesGo(k: string)
    ensures NormField(Null) == NormField(Arr([])) == NormField(Obj(map[])) == None
    ensures NormField(Arr([Obj(map[])])) == NormField(Obj(map[k := Arr([])])) == None
  {
    hide NormField;
    HollowExactly(Null);
    HollowExactly(Arr([]));
    HollowExactly(Obj(map[]));
    HollowExactly(Arr([Obj(map[])]));
    HollowExactly(Obj(map[k := Arr([])]));
  }

  /** Scalars stay, empty ones too, and so do nulls and empty arrays in arrays. */
  lemma {:induction false} OtherValuesStay(v: Json)
    requires v.Bool? || v.Num? || v.Str?
    ensures NormField(v) == Some(v) && NormField(Arr([Null])) == Some(Arr([Null]))
    ensures NormField(Arr([Arr([])])) == Some(Arr([Arr([])]))
  {
    hide NormField;
    CompactExactly(v);
    CompactExactly(Arr([Null]));
    CompactExactly(Arr([Arr([])]));
  }
}

/** Documents with opaque values at any depth: which of them are seen as changed when they are applied again
    (internal/metastructure/resource_update/resource_comparison.go). */
module OpaqueDocuments {
  import opened Common
  import opened Json
  import opened Persistence
  import opened ResourceComparison

  // ----- Property by property -----

  /** What is stored of a property, and what it is compared with. */
  function Left(h: Hasher, v: Json): Option<Json> { NormField(HashField(h, v)) }

  function Hashed(h: Hasher, w: Option<Json>): Option<Json> {
    match w case Some(x) => Some(HashField(h, x)) case None => None
  }

  function Right(h: Hasher, raw: Json -> string, k: string, v: Json): Option<Json> {
    Hashed(h, NormField(FilterValue(raw, HasTags(k), Left(h, v), v)))
  }

  ghost function BagOf(v: Option<Json>): Option<Bag> { match v case Some(x) => Some(ToBag(x)) case None => None }

  ghost function Get(p: Props, k: string): Option<Json> { if k in p then Some(p[k]) else None }

  lemma {:induction false} SameObjects(a: Props, b: Props, keys: set<string>)
    requires a.Keys <= keys && b.Keys <= keys
    ensures Same(Obj(a), Obj(b)) <==> forall k | k in keys :: BagOf(Get(a, k)) == BagOf(Get(b, k))
  {
    var x, y := ToBag(Obj(a)), ToBag(Obj(b));
    assert x.fields.Keys == a.Keys && y.fields.Keys == b.Keys;
    assert forall k | k in a :: x.fields[k] == ToBag(a[k]);
    assert forall k | k in b :: y.fields[k] == ToBag(b[k]);
    hide ToBag;
    if forall k | k in keys :: BagOf(Get(a, k)) == BagOf(Get(b, k)) {
      forall k | k in keys ensures k in a <==> k in b {
        assert BagOf(Get(a, k)) == BagOf(Get(b, k));
      }
      assert a.Keys == b.Keys;
      forall k | k in a ensures x.fields[k] == y.fields[k] {
        assert BagOf(Get(a, k)) == BagOf(Get(b, k));
      }
      assert x.fields == y.fields;
    }
  }

  lemma {:induction false} ComparedByProperty(h: Hasher, raw: Json -> string, p: Props)
    ensures Changed(h, raw, HashProps(h, p), p) <==>
            exists k | k in p :: BagOf(Left(h, p[k])) != BagOf(Right(h, raw, k, p[k]))
  {
    hide NormField, HashField, FilterValue, HasTags, ToBag, Same;
    var stored := NormProps(HashProps(h, p));
    var compared := Comparable(h, raw, HashProps(h, p), p);
    NormOfStored(h, p);
    forall k | k in p ensures Get(stored, k) == Left(h, p[k]) && Get(compared, k) == Right(h, raw, k, p[k]) {
      assert Child(Some(Obj(stored)), Key(k)) == Left(h, p[k]);
    }
    SameObjects(stored, compared, p.Keys);
  }

  lemma {:induction false} NormOfStored(h: Hasher, p: Props)
    ensures NormProps(HashProps(h, p)).Keys <= p.Keys
  {
  }

  /** A document is seen as changed exactly when one of its properties, alone in a document, is. */
  lemma {:induction false} ChangedByProperty(h: Hasher, raw: Json -> string, p: Props)
    ensures Changed(h, raw, HashProps(h, p), p) <==>
            exists k | k in p :: Changed(h, raw, HashProps(h, map[k := p[k]]), map[k := p[k]])
  {
    hide Changed, Left, Right, BagOf;
    ComparedByProperty(h, raw, p);
    forall k | k in p
      ensures Changed(h, raw, HashProps(h, map[k := p[k]]), map[k := p[k]]) <==>
              BagOf(Left(h, p[k])) != BagOf(Right(h, raw, k, p[k]))
    {
      var q := map[k := p[k]];
      ComparedByProperty(h, raw, q);
      assert k in q && q[k] == p[k] && forall j | j in q :: j == k;
    }
  }

  // ----- At any depth -----

  /** Opaque values in arrays are stable; outside arrays they may be anything. */
  predicate ArraysStable(h: Hasher, v: Json)
    decreases v
  {
    match v
    case Obj(f) => IsOpaque(f) || forall k | k in f :: ArraysStable(h, f[k])
    case Arr(items) => forall i | 0 <= i < |items| :: StableItem(h, items[i])
    case _ => true
  }

  /** A property as it is compared when nothing in it is SetOnce. */
  function Plain(h: Hasher, v: Json): Option<Json> { Hashed(h, NormField(v)) }

  function Whole(p: Props): Option<Json> { if p == map[] then None else Some(Obj(p)) }

  lemma {:induction false} DifferAt(a: Props, b: Props, k: string)
    requires BagOf(Get(a, k)) != BagOf(Get(b, k))
    ensures BagOf(Whole(a)) != BagOf(Whole(b))
  {
    hide ToBag;
    SameObjects(a, b, a.Keys + b.Keys + {k});
    assert a == map[] ==> Get(a, k) == None;
    assert b == map[] ==> Get(b, k) == None;
  }

  function LeftProps(h: Hasher, f: Props): Props { map k | k in f && Left(h, f[k]).Some? :: Left(h, f[k]).value }

  function PlainProps(h: Hasher, f: Props): Props { map k | k in f && Plain(h, f[k]).Some? :: Plain(h, f[k]).value }

  lemma {:induction false} OrdinaryLeft(h: Hasher, f: Props)
    requires !IsOpaque(f)
    ensures Left(h, Obj(f)) == Whole(LeftProps(h, f))
  {
    var f' := HashProps(h, f);
    assert HashField(h, Obj(f)) == Obj(f');
    NormObject(f');
    hide NormField, NormItem, HashField;
    assert NormProps(f') == LeftProps(h, f);
  }

  lemma {:induction false} OrdinaryPlain(h: Hasher, f: Props)
    requires !IsOpaque(f)
    ensures Plain(h, Obj(f)) == Whole(PlainProps(h, f))
  {
    var g := NormProps(f);
    NormObject(f);
    if g != map[] {
      NormKeepsOpacity(Obj(f));
      assert HashField(h, Obj(g)) == Obj(HashProps(h, g));
    }
    hide NormField, NormItem, HashField;
    assert g.Keys == PlainProps(h, f).Keys;
    assert HashProps(h, g) == PlainProps(h, f);
  }

  /** An opaque value that does not survive, however deep outside arrays, makes its property differ. */
  lemma {:induction false} UnstableShows(h: Hasher, v: Json)
    requires ArraysStable(h, v) && !Stable(h, v)
    ensures BagOf(Left(h, v)) != BagOf(Plain(h, v))
    decreases v
  {
    if v.Obj? && IsOpaque(v.fields) {
      OpaqueBothWays(h, v.fields);
      UnstableDiffers(h, v.fields);
    } else if v.Obj? {
      var f := v.fields;
      var k :| k in f && !Stable(h, f[k]);
      UnstableShows(h, f[k]);
      OrdinaryLeft(h, f);
      OrdinaryPlain(h, f);
      hide Left, Plain, BagOf, Stable, ArraysStable;
      assert Get(LeftProps(h, f), k) == Left(h, f[k]) && Get(PlainProps(h, f), k) == Plain(h, f[k]);
      DifferAt(LeftProps(h, f), PlainProps(h, f), k);
    }
  }

  lemma {:induction false} StableShowsNothing(h: Hasher, v: Json)
    requires Stable(h, v)
    ensures Left(h, v) == Plain(h, v)
  {
    Commute(h, v);
  }

  /** A document without SetOnce, whose arrays hold stable opaque values only, is seen as changed exactly when
      some opaque object that hashing reaches has a value that does not survive normalisation with its hash. */
  lemma {:induction false} ReapplyChangesExactly(h: Hasher, raw: Json -> string, p: Props)
    requires forall k | k in p :: NoSetOnce(p[k]) && ArraysStable(h, p[k])
    ensures Changed(h, raw, HashProps(h, p), p) <==> exists k | k in p :: !Stable(h, p[k])
  {
    hide Changed, NormField, HashField, FilterValue, NoSetOnce, ArraysStable, Stable, BagOf, HasTags;
    ComparedByProperty(h, raw, p);
    forall k | k in p
      ensures Stable(h, p[k]) <==> BagOf(Left(h, p[k])) == BagOf(Right(h, raw, k, p[k]))
    {
      NothingToFilter(raw, HasTags(k), Left(h, p[k]), p[k]);
      assert Right(h, raw, k, p[k]) == Plain(h, p[k]);
      if Stable(h, p[k]) {
        StableShowsNothing(h, p[k]);
      } else {
        UnstableShows(h, p[k]);
      }
    }
  }

  // ----- Whole documents, SetOnce included -----

  /** An opaque object that is SetOnce itself. */
  predicate IsOpaqueSetOnce(v: Json) {
    v.Obj? && IsOpaque(v.fields) && IsSetOnce(v) && forall x | x in v.fields :: NoSetOnce(v.fields[x])
  }

  /** A property of which it is known when it is seen as changed: it is an opaque SetOnce object, or has no SetOnce and
      stable opaque values in its arrays, or is one that is never seen as changed. */
  predicate IsKnown(h: Hasher, raw: Json -> string, k: string, v: Json) {
    || IsOpaqueSetOnce(v)
    || (NoSetOnce(v) && ArraysStable(h, v))
    || (Stable(h, v) && SetOnceOk(raw, HasTags(k), v))
  }

  /** A null or absent value of an opaque SetOnce object, or any opaque value that does not survive. */
  predicate Loses(h: Hasher, v: Json) {
    if IsOpaqueSetOnce(v) then OpaqueValue(v.fields) == Null else !Stable(h, v)
  }

  lemma {:induction false} PropertyChangesExactly(h: Hasher, raw: Json -> string, k: string, v: Json)
    requires h.Valid() && IsKnown(h, raw, k, v)
    ensures Changed(h, raw, HashProps(h, map[k := v]), map[k := v]) <==> Loses(h, v)
  {
    hide Changed, Stable, ArraysStable, SetOnceOk, NoSetOnce, HasTags, IsSetOnce;
    var p := map[k := v];
    if IsOpaqueSetOnce(v) {
      OpaqueSetOnceExact(h, raw, k, v.fields);
    } else if NoSetOnce(v) && ArraysStable(h, v) {
      ReapplyChangesExactly(h, raw, p);
      assert p[k] == v && forall j | j in p :: j == k;
    } else {
      ReapplyUnchanged(h, raw, k, v);
    }
  }

  lemma {:induction false} ReapplyUnchanged(h: Hasher, raw: Json -> string, k: string, v: Json)
    requires h.Valid() && Stable(h, v) && SetOnceOk(raw, HasTags(k), v)
    ensures !Changed(h, raw, HashProps(h, map[k := v]), map[k := v])
  {
    hide Stable, SetOnceOk, HasTags, Comparable;
    ReapplyIsNoChange(h, raw, map[k := v]);
  }

  /** Re-applying a document of such properties is seen as a change exactly when one of them loses something. */
  lemma {:induction false} DocumentChangesExactly(h: Hasher, raw: Json -> string, p: Props)
    requires h.Valid() && forall k | k in p :: IsKnown(h, raw, k, p[k])
    ensures Changed(h, raw, HashProps(h, p), p) <==> exists k | k in p :: Loses(h, p[k])
  {
    hide Changed, IsKnown, Loses;
    ChangedByProperty(h, raw, p);
    forall k | k in p
      ensures Changed(h, raw, HashProps(h, map[k := p[k]]), map[k := p[k]]) <==> Loses(h, p[k])
    {
      PropertyChangesExactly(h, raw, k, p[k]);
    }
  }
}

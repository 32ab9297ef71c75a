/** Normalisation of properties and hashing of opaque values, and how they interact
    (internal/metastructure/resource_update/resource_comparison.go, `normalizeObject`;
    internal/metastructure/transformations/persist_value_transformer.go, `processProps`). */
module Persistence {
  import opened Common
  import opened Json

  type Props = map<string, Json>

  /** The parts of the environment that hashing uses: SHA-256 in lower-case hex, and the default rendering of a
      value that is not a string. */
  datatype Hasher = Hasher(sha: string -> string, render: Json -> string) {
    ghost predicate Valid() { forall s: string :: IsAlreadyHashed(sha(s)) }
  }

  predicate IsAlreadyHashed(s: string) {
    |s| == 64 && forall i | 0 <= i < |s| :: '0' <= s[i] <= '9' || 'a' <= s[i] <= 'f'
  }

  // ----- Hashing -----

  predicate IsOpaque(f: Props) { "$visibility" in f && f["$visibility"] == Str("Opaque") }

  function TextOf(h: Hasher, v: Json): string { if v.Str? then v.s else h.render(v) }

  function HashedValue(h: Hasher, v: Json): Json {
    if v == Null || (v.Str? && IsAlreadyHashed(v.s)) then v
    else if TextOf(h, v) == "" then Str("")
    else Str(h.sha(TextOf(h, v)))
  }

  function OpaqueValue(f: Props): Json { if "$value" in f then f["$value"] else Null }

  /** An opaque object gets its value hashed and nothing else changed; a missing value becomes null. */
  function HashOpaque(h: Hasher, f: Props): Props { f["$value" := HashedValue(h, OpaqueValue(f))] }

  /** A property: opaque objects are hashed, others are searched. */
  function HashField(h: Hasher, v: Json): Json
    decreases v, 1
  {
    match v
    case Obj(f) => if IsOpaque(f) then Obj(HashOpaque(h, f)) else HashItem(h, v)
    case Arr(items) => Arr(seq(|items|, i requires 0 <= i < |items| => HashItem(h, items[i])))
    case _ => v
  }

  /** An array element: searched when it is an object, but never taken for an opaque value itself. */
  function HashItem(h: Hasher, v: Json): Json
    decreases v, 0
  {
    match v
    case Obj(f) => Obj(map k | k in f :: HashField(h, f[k]))
    case _ => v
  }

  function HashProps(h: Hasher, p: Props): Props { map k | k in p :: HashField(h, p[k]) }

  // ----- Normalisation -----

  /** A property, or nothing if it is null, an empty array or an object without content. */
  function NormField(v: Json): Option<Json>
    decreases v, 2
  {
    match v
    case Null => None
    case Obj(_) => NormItem(v)
    case Arr(items) => var r := NormItems(items); if r == [] then None else Some(Arr(r))
    case _ => Some(v)
  }

  /** An array element; only objects are normalised there. */
  function NormItem(v: Json): Option<Json>
    decreases v, 0
  {
    match v
    case Obj(f) =>
      var g := map k | k in f && NormField(f[k]).Some? :: NormField(f[k]).value;
      if g == map[] then None else Some(Obj(g))
    case _ => Some(v)
  }

  function NormItems(items: seq<Json>): seq<Json>
    decreases items, 1
  {
    if items == [] then []
    else
      var last := items[|items| - 1];
      NormItems(items[..|items| - 1]) + (match NormItem(last) case Some(w) => [w] case None => [])
  }

  function NormProps(p: Props): Props { map k | k in p && NormField(p[k]).Some? :: NormField(p[k]).value }

  lemma {:induction false} NormObject(f: Props)
    ensures NormField(Obj(f)) == NormItem(Obj(f))
    ensures NormItem(Obj(f)) == if NormProps(f) == map[] then None else Some(Obj(NormProps(f)))
  {
  }

  // ----- Opaque values that survive normalisation -----

  /** The value of an opaque object is there, and normalising it does not change its hash. `OpaqueShapes` says which
      values these are. */
  predicate OpaqueStable(h: Hasher, f: Props) {
    && NormField(OpaqueValue(f)).Some?
    && HashedValue(h, NormField(OpaqueValue(f)).value) == HashedValue(h, OpaqueValue(f))
  }

  /** Nothing is left of the value after normalisation: it is null, or an array or object of such parts only. */
  predicate Hollow(v: Json)
    decreases v
  {
    match v
    case Null => true
    case Obj(f) => forall k | k in f :: Hollow(f[k])
    case Arr(items) => forall i | 0 <= i < |items| :: items[i].Obj? && Hollow(items[i])
    case _ => false
  }

  /** Normalisation has nothing to take out: no null, empty array or empty object that it looks at. */
  predicate Compact(v: Json)
    decreases v
  {
    match v
    case Null => false
    case Obj(f) => f != map[] && forall k | k in f :: Compact(f[k])
    case Arr(items) => items != [] && forall i | 0 <= i < |items| && items[i].Obj? :: Compact(items[i])
    case _ => true
  }

  /** What normalisation leaves of a value, null when that is nothing. */
  function Normalised(v: Json): Json { match NormField(v) case Some(w) => w case None => Null }

  /** The text that a value is reduced to when it is hashed. */
  function Digest(h: Hasher, v: Json): string { if h.render(v) == "" then "" else h.sha(h.render(v)) }

  lemma {:induction false} HollowExactly(v: Json)
    ensures NormField(v).None? <==> Hollow(v)
    decreases v
  {
    match v
    case Obj(f) =>
      NormObject(f);
      forall k | k in f ensures NormField(f[k]).None? <==> Hollow(f[k]) {
        HollowExactly(f[k]);
      }
      if k :| k in f && NormField(f[k]).Some? {
        assert k in NormProps(f);
      }
    case Arr(items) => HollowItems(items);
    case _ =>
  }

  lemma {:induction false} HollowItems(items: seq<Json>)
    ensures NormItems(items) == [] <==> forall i | 0 <= i < |items| :: items[i].Obj? && Hollow(items[i])
    decreases items
  {
    if items != [] {
      var n := |items| - 1;
      HollowItems(items[..n]);
      HollowExactly(items[n]);
      assert forall i | 0 <= i < n :: items[..n][i] == items[i];
      assert items[n].Obj? ==> NormItem(items[n]) == NormField(items[n]);
    }
  }

  lemma {:induction false} CompactExactly(v: Json)
    ensures NormField(v) == Some(v) <==> Compact(v)
    decreases v, 0
  {
    match v
    case Obj(f) =>
      NormObject(f);
      forall k | k in f ensures NormField(f[k]) == Some(f[k]) <==> Compact(f[k]) {
        CompactExactly(f[k]);
      }
      if forall k | k in f :: Compact(f[k]) {
        assert NormProps(f) == f;
      } else {
        var k :| k in f && !Compact(f[k]);
        assert k !in NormProps(f) || NormProps(f)[k] != f[k];
      }
    case Arr(items) => CompactItems(items);
    case _ =>
  }

  lemma {:induction false} NoItems()
    ensures NormItems([]) == []
  {
  }

  lemma {:induction false} CompactItems(items: seq<Json>)
    ensures NormItems(items) == items <==> forall i | 0 <= i < |items| && items[i].Obj? :: Compact(items[i])
    ensures |NormItems(items)| <= |items|
    decreases items
  {
    hide NormItems, NormItem, Compact;
    if items == [] {
      NoItems();
    } else {
      var n := |items| - 1;
      var last := items[n];
      CompactItems(items[..n]);
      CompactItem(last);
      assert items == items[..n] + [last];
      assert forall i | 0 <= i < n :: items[..n][i] == items[i];
      NormItemsSnoc(items[..n], last);
      SnocSame(NormItems(items[..n]), items[..n], NormItem(last), last);
    }
  }

  lemma {:induction false} CompactItem(v: Json)
    ensures NormItem(v) == Some(v) <==> (v.Obj? ==> Compact(v))
    decreases v, 1
  {
    if v.Obj? {
      CompactExactly(v);
    }
  }

  lemma {:induction false} SnocSame(a: seq<Json>, b: seq<Json>, x: Option<Json>, y: Json)
    requires |a| <= |b|
    ensures a + (match x case Some(w) => [w] case None => []) == b + [y] <==> a == b && x == Some(y)
  {
    var c, d := a + (match x case Some(w) => [w] case None => []), b + [y];
    if c == d {
      assert |c| == |d|;
      assert a == c[..|a|] && b == d[..|b|];
      assert c[|b|] == y;
    }
  }

  /** Which opaque values are stable: booleans, numbers, strings and whatever normalisation leaves alone; not those of
      which it leaves nothing; and any other array or object exactly when its two renderings hash to the same text. */
  lemma {:induction false} OpaqueShapes(h: Hasher, f: Props)
    ensures var v := OpaqueValue(f);
            && (v.Bool? || v.Num? || v.Str? ==> OpaqueStable(h, f))
            && (Compact(v) ==> OpaqueStable(h, f))
            && (Hollow(v) ==> !OpaqueStable(h, f))
            && ((v.Arr? || v.Obj?) && !Hollow(v) ==>
                  (OpaqueStable(h, f) <==> Digest(h, Normalised(v)) == Digest(h, v)))
            && (v.Bool? || v.Num? || v.Str? || v.Arr? || v.Obj? || Hollow(v))
  {
    var v := OpaqueValue(f);
    HollowExactly(v);
    CompactExactly(v);
    if (v.Arr? || v.Obj?) && !Hollow(v) {
      assert Normalised(v).Arr? || Normalised(v).Obj?;
    }
  }

  /** Every opaque object that hashing reaches has a stable value. */
  predicate Stable(h: Hasher, v: Json)
    decreases v, 1
  {
    match v
    case Obj(f) => if IsOpaque(f) then OpaqueStable(h, f) else StableItem(h, v)
    case Arr(items) => forall i | 0 <= i < |items| :: StableItem(h, items[i])
    case _ => true
  }

  predicate StableItem(h: Hasher, v: Json)
    decreases v, 0
  {
    v.Obj? ==> forall k | k in v.fields :: Stable(h, v.fields[k])
  }

  // ----- Normalising twice is normalising once -----

  lemma {:induction false} NormIdempotent(v: Json)
    ensures NormField(v).Some? ==> NormField(NormField(v).value) == NormField(v)
    decreases v, 2
  {
    match v
    case Obj(_) => NormItemIdempotent(v);
    case Arr(items) => NormItemsIdempotent(items);
    case _ =>
  }

  lemma {:induction false} NormItemIdempotent(v: Json)
    ensures NormItem(v).Some? ==> NormItem(NormItem(v).value) == NormItem(v)
    ensures NormItem(v).Some? && v.Obj? ==> NormItem(v).value.Obj?
    decreases v, 0
  {
    if v.Obj? && NormItem(v).Some? {
      var f, g := v.fields, NormItem(v).value.fields;
      forall k | k in g ensures NormField(g[k]) == Some(g[k]) {
        NormIdempotent(f[k]);
      }
      assert (map k | k in g && NormField(g[k]).Some? :: NormField(g[k]).value) == g;
    }
  }

  lemma {:induction false} NormItemsIdempotent(items: seq<Json>)
    ensures NormItems(NormItems(items)) == NormItems(items)
    decreases items, 1
  {
    if items != [] {
      var init, last := items[..|items| - 1], items[|items| - 1];
      NormItemsIdempotent(init);
      NormItemIdempotent(last);
      if NormItem(last).Some? {
        NormItemsSnoc(NormItems(init), NormItem(last).value);
      } else {
        assert NormItems(items) == NormItems(init);
      }
    }
  }

  lemma {:induction false} NormItemsSnoc(items: seq<Json>, x: Json)
    ensures NormItems(items + [x]) == NormItems(items) + (match NormItem(x) case Some(w) => [w] case None => [])
  {
    assert (items + [x])[..|items|] == items;
  }

  // ----- Hashing twice is hashing once -----

  lemma {:induction false} HashIdempotent(h: Hasher, v: Json)
    requires h.Valid()
    ensures HashField(h, HashField(h, v)) == HashField(h, v)
    decreases v, 1
  {
    match v
    case Obj(f) =>
      if IsOpaque(f) {
        assert HashOpaque(h, HashOpaque(h, f)) == HashOpaque(h, f);
      } else {
        HashItemIdempotent(h, v);
        HashKeepsOpacity(h, v);
      }
    case Arr(items) =>
      forall i | 0 <= i < |items| ensures HashItem(h, HashItem(h, items[i])) == HashItem(h, items[i]) {
        HashItemIdempotent(h, items[i]);
      }
    case _ =>
  }

  lemma {:induction false} HashItemIdempotent(h: Hasher, v: Json)
    requires h.Valid()
    ensures HashItem(h, HashItem(h, v)) == HashItem(h, v)
    decreases v, 0
  {
    if v.Obj? {
      var f, g := v.fields, HashItem(h, v).fields;
      forall k | k in f ensures HashField(h, g[k]) == g[k] {
        HashIdempotent(h, f[k]);
      }
      assert (map k | k in g :: HashField(h, g[k])) == g;
    }
  }

  /** Searching an object that is not opaque does not make it so. */
  lemma {:induction false} HashKeepsOpacity(h: Hasher, v: Json)
    requires v.Obj? && !IsOpaque(v.fields)
    ensures !IsOpaque(HashItem(h, v).fields)
  {
    if "$visibility" in v.fields {
      HashNeverMakesStrings(h, v.fields["$visibility"]);
    }
  }

  lemma {:induction false} HashNeverMakesStrings(h: Hasher, v: Json)
    ensures HashField(h, v).Str? ==> HashField(h, v) == v
  {
  }

  // ----- Hashing and normalising commute -----

  lemma {:induction false} Commute(h: Hasher, v: Json)
    requires Stable(h, v)
    ensures NormField(v).Some? <==> NormField(HashField(h, v)).Some?
    ensures NormField(v).Some? ==> HashField(h, NormField(v).value) == NormField(HashField(h, v)).value
    decreases v, 2
  {
    match v
    case Obj(f) =>
      if IsOpaque(f) {
        CommuteOpaque(h, f);
      } else {
        CommuteItem(h, v);
        HashKeepsOpacity(h, v);
        if NormField(v).Some? {
          NormKeepsOpacity(v);
        }
      }
    case Arr(items) =>
      CommuteItems(h, items);
      var hashed := HashField(h, v).items;
      assert hashed == HashItems(h, items);
    case _ =>
  }

  function HashItems(h: Hasher, items: seq<Json>): seq<Json> {
    seq(|items|, i requires 0 <= i < |items| => HashItem(h, items[i]))
  }

  lemma {:induction false} NormKeepsOpacity(v: Json)
    requires v.Obj? && NormItem(v).Some?
    ensures NormItem(v).value.Obj? && (IsOpaque(NormItem(v).value.fields) <==> IsOpaque(v.fields))
  {
    var f, g := v.fields, NormItem(v).value.fields;
    if "$visibility" in f {
      NormNeverMakesStrings(f["$visibility"]);
    }
  }

  lemma {:induction false} NormNeverMakesStrings(v: Json)
    ensures NormField(v).Some? && NormField(v).value.Str? ==> NormField(v).value == v
  {
  }

  /** Opaque objects always have content. */
  lemma {:induction false} NormOpaque(f: Props)
    requires IsOpaque(f)
    ensures NormField(Obj(f)) == Some(Obj(NormProps(f))) && IsOpaque(NormProps(f))
  {
    NormObject(f);
    assert NormField(f["$visibility"]) == Some(f["$visibility"]);
    assert "$visibility" in NormProps(f);
  }

  lemma {:induction false} CommuteOpaque(h: Hasher, f: Props)
    requires IsOpaque(f) && OpaqueStable(h, f)
    ensures NormField(Obj(f)).Some? && NormField(HashField(h, Obj(f))).Some?
    ensures HashField(h, NormField(Obj(f)).value) == NormField(HashField(h, Obj(f))).value
  {
    var v := OpaqueValue(f);
    var hashed := HashedValue(h, v);
    assert "$value" in f && v == f["$value"] && v != Null;
    assert NormField(hashed) == Some(hashed);
    var g := NormProps(f);
    NormOpaque(f);
    var f' := HashOpaque(h, f);
    var g' := NormProps(f');
    NormOpaque(f');
    assert g["$value"] == NormField(v).value;
    assert g' == g["$value" := hashed];
    assert OpaqueValue(g) == NormField(v).value;
  }

  lemma {:induction false} CommuteItem(h: Hasher, v: Json)
    requires StableItem(h, v)
    ensures NormItem(v).Some? <==> NormItem(HashItem(h, v)).Some?
    ensures NormItem(v).Some? ==> HashItem(h, NormItem(v).value) == NormItem(HashItem(h, v)).value
    decreases v, 0
  {
    if v.Obj? {
      var f := v.fields;
      forall k | k in f
        ensures NormField(f[k]).Some? <==> NormField(HashField(h, f[k])).Some?
        ensures NormField(f[k]).Some? ==> HashField(h, NormField(f[k]).value) == NormField(HashField(h, f[k])).value
      {
        Commute(h, f[k]);
      }
      CommuteFields(h, f);
      NormObject(f);
      NormObject(HashProps(h, f));
      assert HashItem(h, v) == Obj(HashProps(h, f));
    }
  }

  lemma {:induction false} CommuteFields(h: Hasher, f: Props)
    requires forall k | k in f ::
               (NormField(f[k]).Some? <==> NormField(HashField(h, f[k])).Some?) &&
               (NormField(f[k]).Some? ==> HashField(h, NormField(f[k]).value) == NormField(HashField(h, f[k])).value)
    ensures HashProps(h, NormProps(f)) == NormProps(HashProps(h, f))
    ensures NormProps(f) == map[] <==> NormProps(HashProps(h, f)) == map[]
  {
    hide NormField, HashField;
    assert NormProps(HashProps(h, f)).Keys == NormProps(f).Keys;
  }

  lemma {:induction false} CommuteItems(h: Hasher, items: seq<Json>)
    requires forall i | 0 <= i < |items| :: StableItem(h, items[i])
    ensures HashItems(h, NormItems(items)) == NormItems(HashItems(h, items))
    decreases items, 1
  {
    if items != [] {
      var init, last := items[..|items| - 1], items[|items| - 1];
      CommuteItems(h, init);
      CommuteItem(h, last);
      assert HashItems(h, items) == HashItems(h, init) + [HashItem(h, last)];
      NormItemsSnoc(HashItems(h, init), HashItem(h, last));
    }
  }

  // ----- The persisted form is a fixed point of both -----

  lemma {:induction false} HashedIsStable(h: Hasher, v: Json)
    requires h.Valid() && Stable(h, v)
    ensures Stable(h, HashField(h, v))
    decreases v, 1
  {
    match v
    case Obj(f) =>
      if IsOpaque(f) {
        assert "$value" in f;
        assert OpaqueValue(HashOpaque(h, f)) == HashedValue(h, OpaqueValue(f));
      } else {
        HashKeepsOpacity(h, v);
        HashedItemIsStable(h, v);
      }
    case Arr(items) =>
      forall i | 0 <= i < |items| ensures StableItem(h, HashItem(h, items[i])) {
        HashedItemIsStable(h, items[i]);
      }
    case _ =>
  }

  lemma {:induction false} HashedItemIsStable(h: Hasher, v: Json)
    requires h.Valid() && StableItem(h, v)
    ensures StableItem(h, HashItem(h, v))
    decreases v, 0
  {
    if v.Obj? {
      forall k | k in v.fields ensures Stable(h, HashItem(h, v).fields[k]) {
        HashedIsStable(h, v.fields[k]);
      }
    }
  }

  /** What is persisted of a property, hashed and normalised, changes under neither. */
  lemma {:induction false} PersistedFixed(h: Hasher, v: Json)
    requires h.Valid() && Stable(h, v) && NormField(HashField(h, v)).Some?
    ensures HashField(h, NormField(HashField(h, v)).value) == NormField(HashField(h, v)).value
    ensures NormField(NormField(HashField(h, v)).value) == NormField(HashField(h, v))
  {
    HashedIsStable(h, v);
    Commute(h, HashField(h, v));
    HashIdempotent(h, v);
    NormIdempotent(HashField(h, v));
  }
}

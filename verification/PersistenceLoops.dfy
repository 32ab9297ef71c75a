/** The loops behind persisted forms, which rewrite documents step by step
    (internal/metastructure/transformations/persist_value_transformer.go, `processProps`;
    internal/metastructure/resource_update/resource_comparison.go, `normalizeObject`). */
module PersistenceLoops {
  import opened Common
  import opened Json
  import opened Persistence

  method LooksHashed(s: string) returns (hashed: bool)
    ensures hashed <==> IsAlreadyHashed(s)
  {
    if |s| != 64 {
      return false;
    }
    for i := 0 to |s|
      invariant forall k | 0 <= k < i :: '0' <= s[k] <= '9' || 'a' <= s[k] <= 'f'
    {
      if (s[i] < '0' || s[i] > '9') && (s[i] < 'a' || s[i] > 'f') {
        return false;
      }
    }
    return true;
  }

  // ----- Which texts were replaced -----

  /** The texts of opaque values below a property with the texts that stand in for them. */
  ghost function Masks(h: Hasher, v: Json): set<(string, string)>
    decreases v, 1
  {
    match v
    case Obj(f) =>
      if IsOpaque(f) then MaskOf(h, OpaqueValue(f)) else ItemMasks(h, v)
    case Arr(items) => set i, r | 0 <= i < |items| && r in ItemMasks(h, items[i]) :: r
    case _ => {}
  }

  ghost function ItemMasks(h: Hasher, v: Json): set<(string, string)>
    decreases v, 0
  {
    match v
    case Obj(f) => set k, r | k in f && r in Masks(h, f[k]) :: r
    case _ => {}
  }

  /** The part for some of the keys. */
  ghost function KeyMasks(h: Hasher, f: Props, keys: set<string>): set<(string, string)> {
    set k, r | k in f && k in keys && r in Masks(h, f[k]) :: r
  }

  lemma {:induction false} KeyMasksMore(h: Hasher, f: Props, keys: set<string>, k: string)
    requires k in f
    ensures KeyMasks(h, f, {}) == {}
    ensures KeyMasks(h, f, keys + {k}) == KeyMasks(h, f, keys) + Masks(h, f[k])
  {
    hide Masks;
  }

  lemma {:induction false} AllKeyMasks(h: Hasher, f: Props)
    ensures KeyMasks(h, f, f.Keys) == ItemMasks(h, Obj(f)) && KeyMasks(h, f, {}) == {}
  {
  }

  /** The part for the first elements of an array. */
  ghost function FirstMasks(h: Hasher, items: seq<Json>, n: nat): set<(string, string)>
    requires n <= |items|
  {
    set i, r | 0 <= i < n && r in ItemMasks(h, items[i]) :: r
  }

  lemma {:induction false} FirstMasksMore(h: Hasher, items: seq<Json>, n: nat)
    requires n < |items|
    ensures FirstMasks(h, items, n + 1) == FirstMasks(h, items, n) + ItemMasks(h, items[n])
  {
    hide ItemMasks;
  }

  ghost function MaskOf(h: Hasher, v: Json): set<(string, string)> {
    if (v.Str? && IsAlreadyHashed(v.s)) || TextOf(h, v) == "" then {}
    else {(TextOf(h, v), TextOf(h, HashedValue(h, v)))}
  }

  /** The table has the texts it had and those of these replacements, each with a text that stands in for it. */
  ghost predicate Noted(before: map<string, string>, masks: set<(string, string)>, after: map<string, string>) {
    && (forall t | t in before :: t in after)
    && (forall r | r in masks :: r.0 in after)
    && (forall t | t in after :: (t in before && after[t] == before[t]) || (t, after[t]) in masks)
  }

  lemma {:induction false} NotedTwice(
    a: map<string, string>, m: set<(string, string)>, b: map<string, string>, n: set<(string, string)>,
    c: map<string, string>)
    requires Noted(a, m, b) && Noted(b, n, c)
    ensures Noted(a, m + n, c)
  {
  }

  /** What stands in for a text is its hash; only a null value keeps its own. */
  lemma {:induction false} MaskIsHash(h: Hasher, v: Json, r: (string, string))
    requires r in Masks(h, v)
    ensures r.0 != "" && (r.1 == h.sha(r.0) || r == (h.render(Null), h.render(Null)))
    decreases v
  {
    match v
    case Obj(f) =>
      if !IsOpaque(f) {
        var k :| k in f && r in Masks(h, f[k]);
        MaskIsHash(h, f[k], r);
      }
    case Arr(items) =>
      var i :| 0 <= i < |items| && r in ItemMasks(h, items[i]);
      var k :| k in items[i].fields && r in Masks(h, items[i].fields[k]);
      MaskIsHash(h, items[i].fields[k], r);
  }

  /** Overwrites the opaque values of an object, and of everything below it, while going through its keys in any
      order, and notes the text of each with what replaced it. */
  method ProcessProps(h: Hasher, m0: Props, values0: map<string, string>) returns (m: Props, values: map<string,
      string>)
    ensures m == HashProps(h, m0)
    ensures Noted(values0, ItemMasks(h, Obj(m0)), values)
    decreases Obj(m0), 0
  {
    hide Noted, Masks, HashField, KeyMasks, ItemMasks;
    m, values := m0, values0;
    var rest := m0.Keys;
    AllKeyMasks(h, m0);
    NothingNoted(values0);
    assert m0.Keys - rest == {};
    while rest != {}
      invariant rest <= m0.Keys == m.Keys
      invariant forall k | k in m0 :: m[k] == if k in rest then m0[k] else HashField(h, m0[k])
      invariant Noted(values0, KeyMasks(h, m0, m0.Keys - rest), values)
      decreases rest
    {
      var k :| k in rest;
      KeyMasksMore(h, m0, m0.Keys - rest, k);
      assert m0.Keys - (rest - {k}) == m0.Keys - rest + {k};
      ghost var values1 := values;
      var v;
      v, values := ProcessValue(h, m0[k], values);
      NotedTwice(values0, KeyMasks(h, m0, m0.Keys - rest), values1, Masks(h, m0[k]), values);
      m, rest := m[k := v], rest - {k};
    }
    assert m0.Keys - rest == m0.Keys;
  }

  lemma {:induction false} NothingNoted(values: map<string, string>)
    ensures Noted(values, {}, values)
  {
  }

  method ProcessValue(h: Hasher, v: Json, values0: map<string, string>) returns (r: Json, values: map<string, string>)
    ensures r == HashField(h, v)
    ensures Noted(values0, Masks(h, v), values)
    decreases v, 1
  {
    r, values := v, values0;
    match v
    case Obj(val) =>
      if "$visibility" in val && val["$visibility"] == Str("Opaque") {
        var original := OpaqueValue(val);
        var hashed := false;
        if original.Str? {
          hashed := LooksHashed(original.s);
        }
        if hashed {
          assert val["$value" := original] == val;
          return;
        }
        r := Obj(val["$value" := HashedValue(h, original)]);
        if TextOf(h, original) != "" {
          values := values[TextOf(h, original) := TextOf(h, HashedValue(h, original))];
        }
      } else {
        var below;
        below, values := ProcessProps(h, val, values);
        r := Obj(below);
      }
    case Arr(items) =>
      var elements;
      elements, values := ProcessElements(h, items, values);
      r := Arr(elements);
    case _ =>
  }

  method ProcessElements(h: Hasher, items0: seq<Json>, values0: map<string, string>)
    returns (items: seq<Json>, values: map<string, string>)
    ensures |items| == |items0| && forall i | 0 <= i < |items| :: items[i] == HashItem(h, items0[i])
    ensures Noted(values0, Masks(h, Arr(items0)), values)
    decreases Arr(items0), 0
  {
    hide Noted, ItemMasks, HashItem, FirstMasks;
    items, values := items0, values0;
    ArrayMasks(h, items0);
    NothingNoted(values0);
    for i := 0 to |items0|
      invariant |items| == |items0|
      invariant forall k | 0 <= k < |items| :: items[k] == if k < i then HashItem(h, items0[k]) else items0[k]
      invariant Noted(values0, FirstMasks(h, items0, i), values)
    {
      FirstMasksMore(h, items0, i);
      ghost var values1 := values;
      var v;
      v, values := ProcessElement(h, items0[i], values);
      items := items[i := v];
      NotedTwice(values0, FirstMasks(h, items0, i), values1, ItemMasks(h, items0[i]), values);
    }
  }

  lemma {:induction false} ArrayMasks(h: Hasher, items: seq<Json>)
    ensures FirstMasks(h, items, |items|) == Masks(h, Arr(items)) && FirstMasks(h, items, 0) == {}
  {
  }

  method ProcessElement(h: Hasher, v: Json, values0: map<string, string>) returns (r: Json, values: map<string, string>)
    ensures r == HashItem(h, v)
    ensures Noted(values0, ItemMasks(h, v), values)
    decreases v, 2
  {
    r, values := v, values0;
    if v.Obj? {
      var below;
      below, values := ProcessProps(h, v.fields, values);
      r := Obj(below);
    }
  }

  /** The value of a patch operation after noted texts have been substituted; only a value that as a whole has
      such a text is. */
  function Substituted(h: Hasher, values: map<string, string>, op: Option<Json>): Option<Json> {
    if op.Some? && TextOf(h, op.value) in values then Some(Str(values[TextOf(h, op.value)])) else op
  }

  /** Substitutes noted texts in the values of a patch document; operations without a value have none. */
  method TransformPatchDocument(h: Hasher, values: map<string, string>, ops0: seq<Option<Json>>)
    returns (ops: seq<Option<Json>>)
    ensures |ops| == |ops0|
    ensures forall i | 0 <= i < |ops| :: ops[i] == Substituted(h, values, ops0[i])
  {
    ops := ops0;
    for i := 0 to |ops0|
      invariant |ops| == |ops0|
      invariant forall k | 0 <= k < |ops| :: ops[k] == if k < i then Substituted(h, values, ops0[k]) else ops0[k]
    {
      if ops[i].Some? && TextOf(h, ops[i].value) in values {
        ops := ops[i := Some(Str(values[TextOf(h, ops[i].value)]))];
      }
    }
  }

  /** A text is a string somewhere in a value. */
  predicate Holds(v: Json, s: string)
    decreases v
  {
    match v
    case Str(t) => t == s
    case Arr(items) => exists i | 0 <= i < |items| :: Holds(items[i], s)
    case Obj(f) => exists k | k in f :: Holds(f[k], s)
    case _ => false
  }

  /** These replacements have the text of a value. */
  ghost predicate Covers(h: Hasher, masks: set<(string, string)>, v: Json) {
    exists r | r in masks :: r.0 == TextOf(h, v)
  }

  lemma {:induction false} NotedCovers(h: Hasher, masks: set<(string, string)>, values: map<string, string>, v: Json)
    requires Noted(map[], masks, values)
    ensures TextOf(h, v) in values <==> Covers(h, masks, v)
    ensures TextOf(h, v) in values ==> (TextOf(h, v), values[TextOf(h, v)]) in masks
  {
    hide TextOf;
  }

  /** Hashing a resource. Where a value of its patch as a whole has the text of an opaque value of its properties, the
      transformed patch has a text that stands in for it, its hash unless the value is null; every other value is kept
      as it is. So the text of an opaque value remains in a patch value exactly when it is inside an array or object
      that is not covered as a whole, or is itself what stands in for the value. */
  method ApplyToResource(h: Hasher, properties: Props, readOnly: Props, patch: seq<Option<Json>>)
    returns (hashed: Props, hashedReadOnly: Props, transformed: seq<Option<Json>>)
    ensures hashed == HashProps(h, properties) && hashedReadOnly == HashProps(h, readOnly) && |transformed| == |patch|
    ensures var masks := ItemMasks(h, Obj(properties)) + ItemMasks(h, Obj(readOnly));
            forall i | 0 <= i < |patch| && patch[i].Some? ::
              if Covers(h, masks, patch[i].value)
              then transformed[i] in {Some(Str(h.sha(TextOf(h, patch[i].value)))), Some(Str(h.render(Null)))}
              else transformed[i] == patch[i]
    ensures var masks := ItemMasks(h, Obj(properties)) + ItemMasks(h, Obj(readOnly));
            forall i, r | 0 <= i < |patch| && patch[i].Some? && r in masks ::
              transformed[i].Some? &&
              (Holds(transformed[i].value, r.0) <==>
               if Covers(h, masks, patch[i].value) then transformed[i] == Some(Str(r.0))
               else (patch[i].value.Arr? || patch[i].value.Obj?) && Holds(patch[i].value, r.0))
  {
    hide HashProps, ItemMasks, TextOf, Covers;
    var values;
    hashed, values := ProcessProps(h, properties, map[]);
    ghost var once := values;
    hashedReadOnly, values := ProcessProps(h, readOnly, values);
    ghost var masks := ItemMasks(h, Obj(properties)) + ItemMasks(h, Obj(readOnly));
    NotedTwice(map[], ItemMasks(h, Obj(properties)), once, ItemMasks(h, Obj(readOnly)), values);
    transformed := TransformPatchDocument(h, values, patch);
    forall i | 0 <= i < |patch| && patch[i].Some?
      ensures if Covers(h, masks, patch[i].value)
              then transformed[i] in {Some(Str(h.sha(TextOf(h, patch[i].value)))), Some(Str(h.render(Null)))}
              else transformed[i] == patch[i]
    {
      SubstitutedText(h, properties, readOnly, values, patch[i].value);
    }
    forall i, r | 0 <= i < |patch| && patch[i].Some? && r in masks
      ensures transformed[i].Some? &&
              (Holds(transformed[i].value, r.0) <==>
               if Covers(h, masks, patch[i].value) then transformed[i] == Some(Str(r.0))
               else (patch[i].value.Arr? || patch[i].value.Obj?) && Holds(patch[i].value, r.0))
    {
      SubstitutedText(h, properties, readOnly, values, patch[i].value);
      HeldInside(h, masks, patch[i].value, r);
    }
  }

  lemma {:induction false} SubstitutedText(
    h: Hasher, properties: Props, readOnly: Props, values: map<string, string>, v: Json)
    requires Noted(map[], ItemMasks(h, Obj(properties)) + ItemMasks(h, Obj(readOnly)), values)
    ensures var masks := ItemMasks(h, Obj(properties)) + ItemMasks(h, Obj(readOnly));
            if Covers(h, masks, v)
            then Substituted(h, values, Some(v)) in {Some(Str(h.sha(TextOf(h, v)))), Some(Str(h.render(Null)))}
            else Substituted(h, values, Some(v)) == Some(v)
  {
    hide ItemMasks, TextOf, Noted;
    var masks := ItemMasks(h, Obj(properties)) + ItemMasks(h, Obj(readOnly));
    NotedCovers(h, masks, values, v);
    if TextOf(h, v) in values {
      var r := (TextOf(h, v), values[TextOf(h, v)]);
      if r in ItemMasks(h, Obj(properties)) {
        MaskOfProps(h, properties, r);
      } else {
        MaskOfProps(h, readOnly, r);
      }
    }
  }

  /** A value that is not covered is no text of an opaque value, so it can hold one only inside. */
  lemma {:induction false} HeldInside(h: Hasher, masks: set<(string, string)>, v: Json, r: (string, string))
    requires r in masks
    ensures !Covers(h, masks, v) && Holds(v, r.0) ==> v.Arr? || v.Obj?
  {
  }

  /** An opaque text inside an object of the patch is kept: with one opaque property, any patch value that is an object
      with that text in a field, and is not itself rendered as that text, goes through as it is. */
  lemma {:induction false} TextInsideIsKept(h: Hasher, key: string, s: string, values: map<string, string>)
    requires s != "" && !IsAlreadyHashed(s) && h.render(Obj(map[key := Str(s)])) != s
    requires var secret := Obj(map["$visibility" := Str("Opaque"), "$value" := Str(s)]);
             Noted(map[], ItemMasks(h, Obj(map["Secret" := secret])), values)
    ensures var v := Obj(map[key := Str(s)]);
            s in values && Substituted(h, values, Some(v)) == Some(v) && Holds(v, s)
  {
    var f := map["$visibility" := Str("Opaque"), "$value" := Str(s)];
    var p := map["Secret" := Obj(f)];
    var v := Obj(map[key := Str(s)]);
    assert IsOpaque(f) && OpaqueValue(f) == Str(s);
    assert Masks(h, Obj(f)) == {(s, TextOf(h, HashedValue(h, Str(s))))};
    assert p["Secret"] == Obj(f);
    assert (s, TextOf(h, HashedValue(h, Str(s)))) in ItemMasks(h, Obj(p));
    assert Holds(v.fields[key], s);
  }

  lemma {:induction false} MaskOfProps(h: Hasher, p: Props, r: (string, string))
    requires r in ItemMasks(h, Obj(p))
    ensures r.0 != "" && (r.1 == h.sha(r.0) || r == (h.render(Null), h.render(Null)))
  {
    var k :| k in p && r in Masks(h, p[k]);
    MaskIsHash(h, p[k], r);
  }

  /** Builds the object without nulls, empty arrays and empty objects. */
  method NormalizeObject(obj: Props) returns (normalized: Props)
    ensures normalized == NormProps(obj)
    decreases Obj(obj)
  {
    normalized := map[];
    var rest := obj.Keys;
    while rest != {}
      invariant rest <= obj.Keys
      invariant forall k :: k in normalized <==> k in obj && k !in rest && NormField(obj[k]).Some?
      invariant forall k | k in normalized :: normalized[k] == NormField(obj[k]).value
      decreases rest
    {
      var k :| k in rest;
      rest := rest - {k};
      match obj[k]
      case Arr(items) =>
        if |items| > 0 {
          var elements := NormalizeElements(items);
          if |elements| > 0 {
            normalized := normalized[k := Arr(elements)];
          }
        }
      case Obj(nested) =>
        var below := NormalizeObject(nested);
        NormObject(nested);
        if |below| > 0 {
          normalized := normalized[k := Obj(below)];
        }
      case Null =>
      case _ => normalized := normalized[k := obj[k]];
    }
  }

  method NormalizeElements(items: seq<Json>) returns (elements: seq<Json>)
    ensures elements == NormItems(items)
    decreases Arr(items)
  {
    hide NormItem, NormField;
    elements := [];
    for i := 0 to |items|
      invariant elements == NormItems(items[..i])
    {
      NormItemsSnoc(items[..i], items[i]);
      assert items[..i + 1] == items[..i] + [items[i]];
      if items[i].Obj? {
        var below := NormalizeObject(items[i].fields);
        NormObject(items[i].fields);
        if |below| > 0 {
          elements := elements + [Obj(below)];
        }
      } else {
        OtherItem(items[i]);
        elements := elements + [items[i]];
      }
    }
    assert items[..|items|] == items;
  }

  lemma {:induction false} OtherItem(v: Json)
    requires !v.Obj?
    ensures NormItem(v) == Some(v)
  {
  }
}

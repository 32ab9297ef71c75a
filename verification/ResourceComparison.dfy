/** Comparing a resource with its stored form: SetOnce properties keep their stored values, and what is left is
    normalised, hashed and compared (internal/metastructure/resource_update/resource_comparison.go). */
module ResourceComparison {
  import opened Common
  import opened Json
  import opened Persistence
  import PersistenceLoops

  // ----- Paths -----

  datatype Step = Key(k: string) | Index(i: nat)

  type Path = seq<Step>

  function Child(j: Option<Json>, s: Step): Option<Json> {
    match (j, s)
    case (Some(Obj(f)), Key(k)) => if k in f then Some(f[k]) else None
    case (Some(Arr(items)), Index(i)) => if i < |items| then Some(items[i]) else None
    case _ => None
  }

  function GetAt(root: Json, path: Path): Option<Json> {
    if path == [] then Some(root) else Child(GetAt(root, path[..|path| - 1]), path[|path| - 1])
  }

  /** The tree with the value at an existing path replaced. */
  function SetAt(root: Json, path: Path, w: Json): Json
    decreases |path|
  {
    if path == [] then w
    else
      match (root, path[0])
      case (Obj(f), Key(k)) => if k in f then Obj(f[k := SetAt(f[k], path[1..], w)]) else root
      case (Arr(items), Index(i)) => if i < |items| then Arr(items[i := SetAt(items[i], path[1..], w)]) else root
      case _ => root
  }

  // ----- Which properties keep their stored value -----

  predicate IsSetOnce(v: Json) { v.Obj? && "$strategy" in v.fields && v.fields["$strategy"] == Str("SetOnce") }

  /** A SetOnce property keeps a stored value that is there and not null. */
  predicate ShouldPreserve(v: Json, existing: Option<Json>) {
    && IsSetOnce(v) && existing.Some?
    && if existing.value.Obj?
       then "$value" in existing.value.fields && existing.value.fields["$value"] != Null
       else existing.value != Null
  }

  predicate HasTags(k: string) { |k| >= 4 && (k[..4] == "Tags" || HasTags(k[1..])) }

  predicate OnTagsPath(path: Path) { exists i | 0 <= i < |path| :: path[i].Key? && HasTags(path[i].k) }

  predicate IsTagArray(onTagsPath: bool, v: Json) {
    && onTagsPath && v.Arr? && v.items != []
    && v.items[0].Obj? && "Key" in v.items[0].fields && "Value" in v.items[0].fields
  }

  /** A tag's key as text; `raw` renders keys that are no strings. */
  function TagKey(raw: Json -> string, f: Props): string {
    if "Key" !in f || f["Key"] == Null then "" else if f["Key"].Str? then f["Key"].s else raw(f["Key"])
  }

  /** The stored tags by key; a later tag with the same key wins, and tags without one are left out. */
  function TagTable(raw: Json -> string, items: seq<Json>): map<string, Props> {
    if items == [] then map[]
    else
      var t, last := TagTable(raw, items[..|items| - 1]), items[|items| - 1];
      if last.Obj? && TagKey(raw, last.fields) != "" then t[TagKey(raw, last.fields) := last.fields] else t
  }

  function FilterTag(raw: Json -> string, table: map<string, Props>, tag: Json): Json {
    if !tag.Obj? || "Value" !in tag.fields then tag
    else
      var key := TagKey(raw, tag.fields);
      if key in table && ShouldPreserve(tag.fields["Value"], Child(Some(Obj(table[key])), Key("Value")))
      then Obj(tag.fields["Value" := table[key]["Value"]])
      else tag
  }

  function FilterTags(raw: Json -> string, existing: Option<Json>, items: seq<Json>): seq<Json> {
    if existing.Some? && existing.value.Arr? then
      var table := TagTable(raw, existing.value.items);
      seq(|items|, i requires 0 <= i < |items| => FilterTag(raw, table, items[i]))
    else items
  }

  /** What becomes of a new value, given the stored value at the same path. */
  function FilterValue(raw: Json -> string, onTagsPath: bool, existing: Option<Json>, v: Json): Json
    decreases v
  {
    if IsTagArray(onTagsPath, v) then Arr(FilterTags(raw, existing, v.items))
    else if ShouldPreserve(v, existing) then existing.value
    else
      match v
      case Obj(f) =>
        Obj(map k | k in f :: FilterValue(raw, onTagsPath || HasTags(k), Child(existing, Key(k)), f[k]))
      case Arr(items) =>
        Arr(seq(|items|, i requires 0 <= i < |items| =>
          FilterValue(raw, onTagsPath, Child(existing, Index(i)), items[i])))
      case _ => v
  }

  function FilterProps(raw: Json -> string, existing: Props, p: Props): Props {
    map k | k in p :: FilterValue(raw, HasTags(k), Child(Some(Obj(existing)), Key(k)), p[k])
  }

  // ----- The conditions under which stored values are absorbed -----

  predicate NoSetOnce(v: Json)
    decreases v
  {
    match v
    case Obj(f) => !IsSetOnce(v) && forall k | k in f :: NoSetOnce(f[k])
    case Arr(items) => forall i | 0 <= i < |items| :: NoSetOnce(items[i])
    case _ => true
  }

  predicate TagsOk(raw: Json -> string, items: seq<Json>) {
    && (forall i | 0 <= i < |items| && items[i].Obj? && "Key" in items[i].fields ::
          !items[i].fields["Key"].Obj? && !items[i].fields["Key"].Arr?)
    && (forall i, j | 0 <= i < j < |items| && items[i].Obj? && items[j].Obj? && TagKey(raw, items[i].fields) != "" ::
          TagKey(raw, items[i].fields) != TagKey(raw, items[j].fields))
  }

  /** SetOnce appears outside arrays; in a Tags array whose keys are scalar and distinct; or in an array element whose
      position in the stored array is its own, since no element is dropped up to it, or lies beyond that array. */
  predicate SetOnceOk(raw: Json -> string, onTagsPath: bool, v: Json)
    decreases v
  {
    || NoSetOnce(v)
    || if IsTagArray(onTagsPath, v) then TagsOk(raw, v.items)
       else
         match v
         case Obj(f) => forall k | k in f :: SetOnceOk(raw, onTagsPath || HasTags(k), f[k])
         case Arr(items) =>
           forall i | 0 <= i < |items| ::
             || NoSetOnce(items[i])
             || (ItemOk(raw, onTagsPath, items[i]) && NoneDropped(items, i))
             || i >= |NormItems(items)|
         case _ => true
  }

  /** The same for an array element, of which arrays are stored as they are. */
  predicate ItemOk(raw: Json -> string, onTagsPath: bool, v: Json)
    decreases v
  {
    match v
    case Obj(f) => forall k | k in f :: SetOnceOk(raw, onTagsPath || HasTags(k), f[k])
    case Arr(_) => SelfOk(raw, onTagsPath, v)
    case _ => true
  }

  /** Filtering a value against itself changes nothing: Tags arrays with SetOnce have distinct keys. */
  predicate SelfOk(raw: Json -> string, onTagsPath: bool, v: Json)
    decreases v
  {
    || NoSetOnce(v)
    || if IsTagArray(onTagsPath, v) then TagsOk(raw, v.items)
       else
         match v
         case Obj(f) => forall k | k in f :: SelfOk(raw, onTagsPath || HasTags(k), f[k])
         case Arr(items) => forall i | 0 <= i < |items| :: SelfOk(raw, onTagsPath, items[i])
         case _ => true
  }

  /** Normalisation drops no element up to this one. */
  predicate NoneDropped(items: seq<Json>, i: nat) {
    i < |items| && forall j | 0 <= j <= i :: NormItem(items[j]).Some?
  }

  lemma {:induction false} NothingToFilter(raw: Json -> string, onTagsPath: bool, existing: Option<Json>, v: Json)
    requires NoSetOnce(v)
    ensures FilterValue(raw, onTagsPath, existing, v) == v
    decreases v
  {
    if IsTagArray(onTagsPath, v) {
      NoTagToFilter(raw, existing, v.items);
    } else {
      match v
      case Obj(f) =>
        forall k | k in f
          ensures FilterValue(raw, onTagsPath || HasTags(k), Child(existing, Key(k)), f[k]) == f[k]
        {
          NothingToFilter(raw, onTagsPath || HasTags(k), Child(existing, Key(k)), f[k]);
        }
        assert FilterValue(raw, onTagsPath, existing, v).fields == f;
      case Arr(items) =>
        forall i | 0 <= i < |items|
          ensures FilterValue(raw, onTagsPath, Child(existing, Index(i)), items[i]) == items[i]
        {
          NothingToFilter(raw, onTagsPath, Child(existing, Index(i)), items[i]);
        }
        assert FilterValue(raw, onTagsPath, existing, v).items == items;
      case _ =>
    }
  }

  lemma {:induction false} NoTagToFilter(raw: Json -> string, existing: Option<Json>, items: seq<Json>)
    requires forall i | 0 <= i < |items| :: NoSetOnce(items[i])
    ensures FilterTags(raw, existing, items) == items
  {
    var r := FilterTags(raw, existing, items);
    forall i | 0 <= i < |items| ensures r[i] == items[i] {
      assert NoSetOnce(items[i]);
    }
  }

  // ----- Hashing, or inside an opaque object not hashing -----

  datatype Mode = Hashing(h: Hasher) | Plain {
    ghost predicate Valid() { Hashing? ==> h.Valid() }
    function Field(v: Json): Json { if Hashing? then HashField(h, v) else v }
    function Item(v: Json): Json { if Hashing? then HashItem(h, v) else v }
    predicate Ok(v: Json) { Hashing? ==> Stable(h, v) }
    predicate OkItem(v: Json) { Hashing? ==> StableItem(h, v) }
  }

  /** What the store holds for a property. */
  function Stored(m: Mode, v: Json): Option<Json> { NormField(m.Field(v)) }

  function StoredItem(m: Mode, v: Json): Option<Json> { NormItem(m.Item(v)) }

  lemma {:induction false} StoredFixed(m: Mode, v: Json)
    requires m.Valid() && m.Ok(v) && Stored(m, v).Some?
    ensures m.Field(Stored(m, v).value) == Stored(m, v).value
    ensures NormField(Stored(m, v).value) == Stored(m, v)
  {
    if m.Hashing? {
      PersistedFixed(m.h, v);
    } else {
      NormIdempotent(v);
    }
  }

  /** A value that filtering leaves alone is stored as before. */
  lemma {:induction false} StoredCommutes(m: Mode, v: Json)
    requires m.Ok(v)
    ensures NormField(v).Some? <==> Stored(m, v).Some?
    ensures NormField(v).Some? ==> m.Field(NormField(v).value) == Stored(m, v).value
  {
    if m.Hashing? {
      Commute(m.h, v);
    }
  }

  /** `w`, normalised and hashed, gives what is stored for `v`. */
  predicate Absorbed(m: Mode, v: Json, w: Json) {
    && (NormField(w).Some? <==> Stored(m, v).Some?)
    && (NormField(w).Some? ==> m.Field(NormField(w).value) == Stored(m, v).value)
  }

  predicate AbsorbedItem(m: Mode, v: Json, w: Json) {
    && (NormItem(w).Some? <==> StoredItem(m, v).Some?)
    && (NormItem(w).Some? ==> m.Item(NormItem(w).value) == StoredItem(m, v).value)
  }

  /** Objects field by field, as array elements are treated. */
  lemma {:induction false} FieldsAbsorbed(m: Mode, f: Props, f': Props)
    requires f'.Keys == f.Keys && forall k | k in f :: Absorbed(m, f[k], f'[k])
    ensures AbsorbedItem(m, Obj(f), Obj(f'))
    ensures forall k | k in f :: Child(StoredItem(m, Obj(f)), Key(k)) == Stored(m, f[k])
  {
    StoredFields(m, f);
    var g, g' := StoredProps(m, f), NormProps(f');
    NormObject(f');
    hide NormField, NormItem, HashField;
    assert g'.Keys == g.Keys;
    if m.Hashing? {
      assert HashItem(m.h, Obj(g')) == Obj(HashProps(m.h, g'));
      assert HashProps(m.h, g') == g;
    } else {
      assert g' == g;
    }
  }

  function StoredProps(m: Mode, f: Props): Props { map k | k in f && Stored(m, f[k]).Some? :: Stored(m, f[k]).value }

  lemma {:induction false} StoredFields(m: Mode, f: Props)
    ensures StoredItem(m, Obj(f)) == if StoredProps(m, f) == map[] then None else Some(Obj(StoredProps(m, f)))
    ensures forall k | k in f :: Child(StoredItem(m, Obj(f)), Key(k)) == Stored(m, f[k])
  {
    if m.Hashing? {
      var f' := HashProps(m.h, f);
      assert HashItem(m.h, Obj(f)) == Obj(f');
      NormObject(f');
      assert NormProps(f') == StoredProps(m, f);
    } else {
      NormObject(f);
      assert NormProps(f) == StoredProps(m, f);
    }
    var g := StoredProps(m, f);
    forall k | k in f ensures Child(StoredItem(m, Obj(f)), Key(k)) == Stored(m, f[k]) {
      if Stored(m, f[k]).Some? {
        assert k in g;
      }
    }
  }

  // ----- Tags -----

  lemma {:induction false} KeyKept(raw: Json -> string, m: Mode, f: Props)
    requires "Key" in f ==> !f["Key"].Obj? && !f["Key"].Arr?
    requires StoredItem(m, Obj(f)).Some?
    ensures StoredItem(m, Obj(f)).value == Obj(StoredProps(m, f))
    ensures TagKey(raw, StoredProps(m, f)) == TagKey(raw, f)
  {
    StoredFields(m, f);
    if "Key" in f {
      assert m.Field(f["Key"]) == f["Key"];
    }
  }

  lemma {:induction false} KeyedTagIsStored(raw: Json -> string, m: Mode, f: Props)
    requires "Key" in f ==> !f["Key"].Obj? && !f["Key"].Arr?
    requires TagKey(raw, f) != ""
    ensures StoredItem(m, Obj(f)).Some?
  {
    StoredFields(m, f);
    assert m.Field(f["Key"]) == f["Key"];
    assert "Key" in StoredProps(m, f);
  }

  function StoredItems(m: Mode, items: seq<Json>): seq<Json> {
    NormItems(seq(|items|, i requires 0 <= i < |items| => m.Item(items[i])))
  }

  lemma {:induction false} StoredItemsSnoc(m: Mode, items: seq<Json>)
    requires items != []
    ensures StoredItems(m, items) == StoredItems(m, items[..|items| - 1]) +
            (match StoredItem(m, items[|items| - 1]) case Some(w) => [w] case None => [])
  {
    var n := |items| - 1;
    var all := seq(|items|, i requires 0 <= i < |items| => m.Item(items[i]));
    var init := seq(n, i requires 0 <= i < n => m.Item(items[i]));
    assert all == init + [m.Item(items[n])];
    assert init == seq(|items[..n]|, i requires 0 <= i < |items[..n]| => m.Item(items[..n][i]));
    NormItemsSnoc(init, m.Item(items[n]));
  }

  predicate IsKeyed(raw: Json -> string, tag: Json) { tag.Obj? && TagKey(raw, tag.fields) != "" }

  /** Storing one more tag enters it in the table under its key, if it has one. */
  lemma {:induction false} TableOfStored(raw: Json -> string, m: Mode, items: seq<Json>)
    requires TagsOk(raw, items) && items != []
    ensures var n, last := |items| - 1, items[|items| - 1];
            var table := TagTable(raw, StoredItems(m, items[..n]));
            TagTable(raw, StoredItems(m, items)) ==
            if IsKeyed(raw, last) then table[TagKey(raw, last.fields) := StoredProps(m, last.fields)] else table
  {
    hide TagTable, StoredItems, NormField, HashField;
    var n, last := |items| - 1, items[|items| - 1];
    var stored := StoredItems(m, items[..n]);
    StoredItemsSnoc(m, items);
    if IsKeyed(raw, last) {
      KeyedTagIsStored(raw, m, last.fields);
    }
    match StoredItem(m, last)
    case Some(w) =>
      TagTableSnoc(raw, stored, w);
      if last.Obj? {
        KeyKept(raw, m, last.fields);
      }
    case None =>
      assert StoredItems(m, items) == stored;
  }

  /** With distinct keys, the table of stored tags finds the stored form of each tag. */
  lemma {:induction false} TableLookup(raw: Json -> string, m: Mode, items: seq<Json>, i: nat)
    requires TagsOk(raw, items) && i < |items| && IsKeyed(raw, items[i])
    ensures var t, key := TagTable(raw, StoredItems(m, items)), TagKey(raw, items[i].fields);
            key in t && t[key] == StoredProps(m, items[i].fields)
    decreases |items|
  {
    hide TagTable, StoredItems, StoredProps;
    var n := |items| - 1;
    TableOfStored(raw, m, items);
    if i < n {
      assert TagsOk(raw, items[..n]) && items[..n][i] == items[i];
      TableLookup(raw, m, items[..n], i);
    }
  }

  lemma {:induction false} TagTableSnoc(raw: Json -> string, items: seq<Json>, w: Json)
    ensures TagTable(raw, items + [w]) ==
            if w.Obj? && TagKey(raw, w.fields) != ""
            then TagTable(raw, items)[TagKey(raw, w.fields) := w.fields] else TagTable(raw, items)
  {
    assert (items + [w])[..|items|] == items;
  }

  lemma {:induction false} TagAbsorbed(raw: Json -> string, m: Mode, items: seq<Json>, i: nat)
    requires m.Valid() && TagsOk(raw, items) && i < |items| && m.OkItem(items[i])
    ensures AbsorbedItem(m, items[i], FilterTag(raw, TagTable(raw, StoredItems(m, items)), items[i]))
  {
    var tag := items[i];
    var table := TagTable(raw, StoredItems(m, items));
    var tag' := FilterTag(raw, table, tag);
    if tag' == tag {
      ItemCommutes(m, tag);
    } else {
      var f := tag.fields;
      TableKeys(raw, StoredItems(m, items), TagKey(raw, f));
      TableLookup(raw, m, items, i);
      var w := table[TagKey(raw, f)]["Value"];
      assert Stored(m, f["Value"]) == Some(w);
      StoredFixed(m, f["Value"]);
      forall k | k in f ensures Absorbed(m, f[k], tag'.fields[k]) {
        if k != "Value" {
          StoredCommutes(m, f[k]);
        }
      }
      FieldsAbsorbed(m, f, tag'.fields);
    }
  }

  lemma {:induction false} TableKeys(raw: Json -> string, items: seq<Json>, key: string)
    ensures key in TagTable(raw, items) ==> key != ""
  {
    if items != [] {
      TableKeys(raw, items[..|items| - 1], key);
    }
  }

  lemma {:induction false} ItemCommutes(m: Mode, v: Json)
    requires m.OkItem(v)
    ensures AbsorbedItem(m, v, v)
  {
    if m.Hashing? {
      CommuteItem(m.h, v);
    }
  }

  lemma {:induction false} ItemsAbsorbed(m: Mode, items: seq<Json>, items': seq<Json>)
    requires |items'| == |items| && forall i | 0 <= i < |items| :: AbsorbedItem(m, items[i], items'[i])
    ensures MapItems(m, NormItems(items')) == StoredItems(m, items)
  {
    if items != [] {
      var n := |items| - 1;
      ItemsAbsorbed(m, items[..n], items'[..n]);
      StoredItemsSnoc(m, items);
      assert AbsorbedItem(m, items[n], items'[n]);
    }
  }

  function MapItems(m: Mode, items: seq<Json>): seq<Json> {
    seq(|items|, i requires 0 <= i < |items| => m.Item(items[i]))
  }

  lemma {:induction false} TagsAbsorbed(raw: Json -> string, m: Mode, items: seq<Json>)
    requires m.Valid() && m.Ok(Arr(items)) && TagsOk(raw, items)
    ensures Absorbed(m, Arr(items), Arr(FilterTags(raw, Stored(m, Arr(items)), items)))
  {
    ArrayStored(m, items);
    if Stored(m, Arr(items)).None? {
      StoredCommutes(m, Arr(items));
    } else {
      var items' := FilterTags(raw, Stored(m, Arr(items)), items);
      forall i | 0 <= i < |items| ensures AbsorbedItem(m, items[i], items'[i]) {
        TagAbsorbed(raw, m, items, i);
      }
      ArrayItemsAbsorbed(m, items, items');
    }
  }

  lemma {:induction false} ArrayStored(m: Mode, items: seq<Json>)
    ensures Stored(m, Arr(items)) == if StoredItems(m, items) == [] then None else Some(Arr(StoredItems(m, items)))
  {
    FieldOfArray(m, items);
  }

  lemma {:induction false} FieldOfArray(m: Mode, items: seq<Json>)
    ensures m.Field(Arr(items)) == Arr(MapItems(m, items))
  {
    if m.Plain? {
      assert MapItems(m, items) == items;
    } else {
      assert MapItems(m, items) == HashItems(m.h, items);
    }
  }

  // ----- Filtering is absorbed -----

  lemma {:induction false} FilterAgainstNothing(raw: Json -> string, onTagsPath: bool, v: Json)
    ensures FilterValue(raw, onTagsPath, None, v) == v
    decreases v
  {
    if !IsTagArray(onTagsPath, v) {
      match v
      case Obj(f) =>
        forall k | k in f ensures FilterValue(raw, onTagsPath || HasTags(k), None, f[k]) == f[k] {
          FilterAgainstNothing(raw, onTagsPath || HasTags(k), f[k]);
        }
      case Arr(items) =>
        forall i | 0 <= i < |items| ensures FilterValue(raw, onTagsPath, None, items[i]) == items[i] {
          FilterAgainstNothing(raw, onTagsPath, items[i]);
        }
      case _ =>
    }
  }

  lemma {:induction false} FilterAgainstString(raw: Json -> string, onTagsPath: bool, s: string, v: Json)
    ensures FilterValue(raw, onTagsPath, Some(Str(s)), v) in {v, Str(s)}
  {
    if !IsTagArray(onTagsPath, v) && !ShouldPreserve(v, Some(Str(s))) {
      match v
      case Obj(f) =>
        forall k | k in f ensures FilterValue(raw, onTagsPath || HasTags(k), None, f[k]) == f[k] {
          FilterAgainstNothing(raw, onTagsPath || HasTags(k), f[k]);
        }
        assert FilterValue(raw, onTagsPath, Some(Str(s)), v).fields == f;
      case Arr(items) =>
        forall i | 0 <= i < |items| ensures FilterValue(raw, onTagsPath, None, items[i]) == items[i] {
          FilterAgainstNothing(raw, onTagsPath, items[i]);
        }
        assert FilterValue(raw, onTagsPath, Some(Str(s)), v).items == items;
      case _ =>
    }
  }

  lemma {:induction false} FilterScalar(raw: Json -> string, onTagsPath: bool, existing: Option<Json>, v: Json)
    requires !v.Obj? && !v.Arr?
    ensures FilterValue(raw, onTagsPath, existing, v) == v
  {
  }

  lemma {:induction false} FilterObject(raw: Json -> string, onTagsPath: bool, existing: Option<Json>, v: Json)
    requires v.Obj? && !ShouldPreserve(v, existing)
    ensures FilterValue(raw, onTagsPath, existing, v).Obj?
    ensures FilterValue(raw, onTagsPath, existing, v).fields.Keys == v.fields.Keys
    ensures forall k | k in v.fields :: FilterValue(raw, onTagsPath, existing, v).fields[k] ==
              FilterValue(raw, onTagsPath || HasTags(k), Child(existing, Key(k)), v.fields[k])
  {
  }

  // ----- Array elements -----

  lemma {:induction false} TableOfSelf(raw: Json -> string, items: seq<Json>, i: nat)
    requires TagsOk(raw, items) && i < |items| && items[i].Obj? && TagKey(raw, items[i].fields) != ""
    ensures var t, key := TagTable(raw, items), TagKey(raw, items[i].fields);
            key in t && t[key] == items[i].fields
    decreases |items|
  {
    var n := |items| - 1;
    if i < n {
      assert TagsOk(raw, items[..n]) && items[..n][i] == items[i];
      TableOfSelf(raw, items[..n], i);
    }
  }

  lemma {:induction false} TagsAgainstSelf(raw: Json -> string, items: seq<Json>)
    requires TagsOk(raw, items)
    ensures FilterTags(raw, Some(Arr(items)), items) == items
  {
    var table := TagTable(raw, items);
    forall i | 0 <= i < |items| ensures FilterTag(raw, table, items[i]) == items[i] {
      if items[i].Obj? && "Value" in items[i].fields {
        var key := TagKey(raw, items[i].fields);
        TableKeys(raw, items, key);
        if key in table {
          TableOfSelf(raw, items, i);
          assert items[i].fields["Value" := items[i].fields["Value"]] == items[i].fields;
        }
      }
    }
  }

  lemma {:induction false} FilterAgainstSelf(raw: Json -> string, onTagsPath: bool, v: Json)
    requires SelfOk(raw, onTagsPath, v)
    ensures FilterValue(raw, onTagsPath, Some(v), v) == v
    decreases v
  {
    if NoSetOnce(v) {
      NothingToFilter(raw, onTagsPath, Some(v), v);
    } else if IsTagArray(onTagsPath, v) {
      TagsAgainstSelf(raw, v.items);
    } else if v.Obj? && !ShouldPreserve(v, Some(v)) {
      FieldsAgainstSelf(raw, onTagsPath, v);
    } else if v.Arr? {
      ItemsAgainstSelf(raw, onTagsPath, v);
    }
  }

  lemma {:induction false} FieldsAgainstSelf(raw: Json -> string, onTagsPath: bool, v: Json)
    requires v.Obj? && !ShouldPreserve(v, Some(v))
    requires forall k | k in v.fields :: SelfOk(raw, onTagsPath || HasTags(k), v.fields[k])
    ensures FilterValue(raw, onTagsPath, Some(v), v) == v
    decreases v, 0
  {
    hide FilterValue, SelfOk, HasTags, ShouldPreserve;
    FilterObject(raw, onTagsPath, Some(v), v);
    forall k | k in v.fields ensures FilterValue(raw, onTagsPath, Some(v), v).fields[k] == v.fields[k] {
      FilterAgainstSelf(raw, onTagsPath || HasTags(k), v.fields[k]);
    }
    assert FilterValue(raw, onTagsPath, Some(v), v).fields == v.fields;
  }

  lemma {:induction false} ItemsAgainstSelf(raw: Json -> string, onTagsPath: bool, v: Json)
    requires v.Arr? && !IsTagArray(onTagsPath, v)
    requires forall i | 0 <= i < |v.items| :: SelfOk(raw, onTagsPath, v.items[i])
    ensures FilterValue(raw, onTagsPath, Some(v), v) == v
    decreases v, 0
  {
    hide FilterValue, SelfOk, IsTagArray;
    FilterArray(raw, onTagsPath, Some(v), v);
    forall i | 0 <= i < |v.items| ensures FilterValue(raw, onTagsPath, Some(v), v).items[i] == v.items[i] {
      FilterAgainstSelf(raw, onTagsPath, v.items[i]);
    }
    assert FilterValue(raw, onTagsPath, Some(v), v).items == v.items;
  }

  lemma {:induction false} StoredItemFixed(m: Mode, v: Json)
    requires m.Valid() && m.OkItem(v) && StoredItem(m, v).Some?
    ensures AbsorbedItem(m, v, StoredItem(m, v).value)
  {
    if m.Hashing? {
      HashedItemIsStable(m.h, v);
      CommuteItem(m.h, HashItem(m.h, v));
      HashItemIdempotent(m.h, v);
    }
    NormItemIdempotent(m.Item(v));
  }

  /** An element filtered against its own stored form is absorbed. */
  lemma {:induction false} ItemAbsorbed(raw: Json -> string, m: Mode, onTagsPath: bool, v: Json)
    requires m.Valid() && m.OkItem(v) && ItemOk(raw, onTagsPath, v) && StoredItem(m, v).Some?
    ensures AbsorbedItem(m, v, FilterValue(raw, onTagsPath, StoredItem(m, v), v))
    decreases v, 1
  {
    var ex := StoredItem(m, v);
    match v
    case Obj(f) =>
      if ShouldPreserve(v, ex) {
        StoredItemFixed(m, v);
      } else {
        ElementAbsorbed(raw, m, onTagsPath, f);
      }
    case Arr(items) =>
      FilterAgainstSelf(raw, onTagsPath, v);
      ItemCommutes(m, v);
    case _ =>
      FilterScalar(raw, onTagsPath, ex, v);
      ItemCommutes(m, v);
  }

  lemma {:induction false} ElementAbsorbed(raw: Json -> string, m: Mode, onTagsPath: bool, f: Props)
    requires m.Valid() && m.OkItem(Obj(f)) && ItemOk(raw, onTagsPath, Obj(f))
    requires !ShouldPreserve(Obj(f), StoredItem(m, Obj(f)))
    ensures AbsorbedItem(m, Obj(f), FilterValue(raw, onTagsPath, StoredItem(m, Obj(f)), Obj(f)))
    decreases Obj(f), 0
  {
    var v, ex := Obj(f), StoredItem(m, Obj(f));
    assert forall k | k in f :: m.Ok(f[k]) && SetOnceOk(raw, onTagsPath || HasTags(k), f[k]);
    hide FilterValue, SetOnceOk, Stable, NormField, NormItem, HashField, HashItem, HasTags, Absorbed, AbsorbedItem;
    FilterObject(raw, onTagsPath, ex, v);
    StoredFields(m, f);
    var f' := FilterValue(raw, onTagsPath, ex, v).fields;
    forall k | k in f ensures Absorbed(m, f[k], f'[k]) {
      FilterAbsorbed(raw, m, onTagsPath || HasTags(k), f[k]);
    }
    FieldsAbsorbed(m, f, f');
  }

  /** With nothing dropped up to an element, its stored form is at its own position. */
  lemma {:induction false} StoredPosition(m: Mode, items: seq<Json>, i: nat)
    requires i < |items| && forall j | 0 <= j <= i :: StoredItem(m, items[j]).Some?
    ensures i < |StoredItems(m, items)| && StoredItems(m, items)[i] == StoredItem(m, items[i]).value
    ensures i == |items| - 1 ==> |StoredItems(m, items)| == i + 1
    decreases |items|
  {
    hide StoredItem;
    var n := |items| - 1;
    StoredItemsSnoc(m, items);
    if i < n {
      assert forall j | 0 <= j <= i :: items[..n][j] == items[j];
      StoredPosition(m, items[..n], i);
    } else if n > 0 {
      assert forall j | 0 <= j < n :: items[..n][j] == items[j];
      StoredPosition(m, items[..n], n - 1);
    }
  }

  lemma {:induction false} ArrayAbsorbed(raw: Json -> string, m: Mode, onTagsPath: bool, v: Json)
    requires m.Valid() && m.Ok(v) && SetOnceOk(raw, onTagsPath, v) && !NoSetOnce(v)
    requires v.Arr? && !IsTagArray(onTagsPath, v)
    ensures Absorbed(m, v, FilterValue(raw, onTagsPath, Stored(m, v), v))
    decreases v, 0
  {
    var items, ex := v.items, Stored(m, v);
    ArrayStored(m, items);
    if ex.None? {
      FilterAgainstNothing(raw, onTagsPath, v);
      StoredCommutes(m, v);
    } else {
      var items' := FilterValue(raw, onTagsPath, ex, v).items;
      forall i | 0 <= i < |items| ensures AbsorbedItem(m, items[i], items'[i]) {
        ArrayItemAbsorbed(raw, m, onTagsPath, items, i);
      }
      ArrayItemsAbsorbed(m, items, items');
    }
  }

  lemma {:induction false} ArrayItemsAbsorbed(m: Mode, items: seq<Json>, items': seq<Json>)
    requires |items'| == |items| && forall i | 0 <= i < |items| :: AbsorbedItem(m, items[i], items'[i])
    ensures Absorbed(m, Arr(items), Arr(items'))
  {
    ItemsAbsorbed(m, items, items');
    ArrayStored(m, items);
    FieldOfArray(m, NormItems(items'));
  }

  lemma {:induction false} ArrayItemAbsorbed(raw: Json -> string, m: Mode, onTagsPath: bool, items: seq<Json>, i: nat)
    requires m.Valid() && i < |items| && m.OkItem(items[i]) && StoredItems(m, items) != []
    requires || NoSetOnce(items[i])
             || (ItemOk(raw, onTagsPath, items[i]) && NoneDropped(items, i))
             || i >= |NormItems(items)|
    requires forall j | 0 <= j < |items| :: m.OkItem(items[j])
    ensures AbsorbedItem(m, items[i], FilterValue(raw, onTagsPath, Child(Some(Arr(StoredItems(m, items))),
              Index(i)), items[i]))
    decreases items[i], 2
  {
    hide FilterValue, AbsorbedItem, NoSetOnce, ItemOk, StoredItem, StoredItems;
    var ex := Child(Some(Arr(StoredItems(m, items))), Index(i));
    if NoSetOnce(items[i]) {
      NothingToFilter(raw, onTagsPath, ex, items[i]);
      ItemCommutes(m, items[i]);
    } else if i >= |NormItems(items)| {
      StoredLength(m, items);
      FilterAgainstNothing(raw, onTagsPath, items[i]);
      ItemCommutes(m, items[i]);
    } else {
      forall j | 0 <= j <= i ensures StoredItem(m, items[j]).Some? {
        KeptIsStored(m, items[j]);
      }
      StoredPosition(m, items, i);
      ItemAbsorbed(raw, m, onTagsPath, items[i]);
    }
  }

  lemma {:induction false} StoredLength(m: Mode, items: seq<Json>)
    requires forall j | 0 <= j < |items| :: m.OkItem(items[j])
    ensures |StoredItems(m, items)| == |NormItems(items)|
  {
    hide StoredItem, StoredItems, NormItem;
    if items == [] {
      NothingStored(m);
    } else {
      var n := |items| - 1;
      StoredLength(m, items[..n]);
      StoredItemsSnoc(m, items);
      KeptIsStored(m, items[n]);
      NormItemsSnoc(items[..n], items[n]);
      assert items == items[..n] + [items[n]];
    }
  }

  lemma {:induction false} NothingStored(m: Mode)
    ensures StoredItems(m, []) == []
  {
  }

  lemma {:induction false} KeptIsStored(m: Mode, v: Json)
    requires m.OkItem(v)
    ensures NormItem(v).Some? <==> StoredItem(m, v).Some?
  {
    ItemCommutes(m, v);
  }

  /** Filtering a value against its own stored form, then normalising and hashing, gives the stored form. */
  lemma {:induction false} FilterAbsorbed(raw: Json -> string, m: Mode, onTagsPath: bool, v: Json)
    requires m.Valid() && m.Ok(v) && SetOnceOk(raw, onTagsPath, v)
    ensures Absorbed(m, v, FilterValue(raw, onTagsPath, Stored(m, v), v))
    ensures FilterValue(raw, onTagsPath, Stored(m, v), v).Str? ==> FilterValue(raw, onTagsPath, Stored(m, v), v) == v
    decreases v
  {
    var ex := Stored(m, v);
    if NoSetOnce(v) {
      NothingToFilter(raw, onTagsPath, ex, v);
      StoredCommutes(m, v);
    } else if IsTagArray(onTagsPath, v) {
      TagsAbsorbed(raw, m, v.items);
    } else if ShouldPreserve(v, ex) {
      StoredFixed(m, v);
      StoredObject(m, v);
    } else if v.Arr? {
      ArrayAbsorbed(raw, m, onTagsPath, v);
    } else {
      if m.Hashing? && IsOpaque(v.fields) {
        OpaqueAbsorbed(raw, m, onTagsPath, v);
      } else {
        ObjectAbsorbed(raw, m, onTagsPath, v);
      }
    }
  }

  lemma {:induction false} StoredObject(m: Mode, v: Json)
    requires v.Obj? && Stored(m, v).Some?
    ensures Stored(m, v).value.Obj?
  {
    assert m.Item(v).Obj?;
    NormObject(m.Field(v).fields);
  }

  lemma {:induction false} ObjectAbsorbed(raw: Json -> string, m: Mode, onTagsPath: bool, v: Json)
    requires m.Valid() && m.Ok(v) && SetOnceOk(raw, onTagsPath, v)
    requires v.Obj? && !(m.Hashing? && IsOpaque(v.fields)) && !ShouldPreserve(v, Stored(m, v))
    ensures Absorbed(m, v, FilterValue(raw, onTagsPath, Stored(m, v), v))
    decreases v, 0
  {
    hide FilterValue, NormField, NormItem, HashField, HashItem, HasTags, Absorbed, AbsorbedItem, SetOnceOk, Stable,
        NoSetOnce;
    var f, ex := v.fields, Stored(m, v);
    ObjectParts(raw, m, onTagsPath, f);
    FilterObject(raw, onTagsPath, ex, v);
    var f' := FilterValue(raw, onTagsPath, ex, v).fields;
    StoredFields(m, f);
    forall k | k in f
      ensures Absorbed(m, f[k], f'[k])
      ensures f'[k].Str? ==> f'[k] == f[k]
    {
      FilterAbsorbed(raw, m, onTagsPath || HasTags(k), f[k]);
    }
    FieldsAbsorbed(m, f, f');
    OrdinaryObject(m, f, f');
  }

  lemma {:induction false} ObjectParts(raw: Json -> string, m: Mode, onTagsPath: bool, f: Props)
    requires m.Ok(Obj(f)) && SetOnceOk(raw, onTagsPath, Obj(f)) && !(m.Hashing? && IsOpaque(f))
    ensures forall k | k in f :: m.Ok(f[k]) && SetOnceOk(raw, onTagsPath || HasTags(k), f[k])
    ensures Stored(m, Obj(f)) == StoredItem(m, Obj(f))
  {
    NormObject(m.Item(Obj(f)).fields);
    var v := Obj(f);
    assert m.OkItem(v) && !IsTagArray(onTagsPath, v);
    forall k | k in f ensures m.Ok(f[k]) && SetOnceOk(raw, onTagsPath || HasTags(k), f[k]) {
      assert k in v.fields;
      if NoSetOnce(v) {
        assert NoSetOnce(f[k]);
      }
    }
  }

  /** Objects that are not opaque, before and after filtering, are treated like elements. */
  lemma {:induction false} OrdinaryObject(m: Mode, f: Props, f': Props)
    requires AbsorbedItem(m, Obj(f), Obj(f')) && Stored(m, Obj(f)) == StoredItem(m, Obj(f))
    requires m.Hashing? ==> !IsOpaque(f) && f'.Keys == f.Keys && forall k | k in f :: f'[k].Str? ==> f'[k] == f[k]
    ensures Absorbed(m, Obj(f), Obj(f'))
  {
    NormObject(f');
    if m.Hashing? && NormItem(Obj(f')).Some? {
      NormKeepsOpacity(Obj(f'));
      assert !IsOpaque(f');
    }
  }

  /** Inside an opaque object only the value is hashed; the other fields are stored as they are. */
  lemma {:induction false} OpaqueAbsorbed(raw: Json -> string, m: Mode, onTagsPath: bool, v: Json)
    requires m.Hashing? && m.Valid() && m.Ok(v) && SetOnceOk(raw, onTagsPath, v)
    requires v.Obj? && IsOpaque(v.fields) && !ShouldPreserve(v, Stored(m, v))
    ensures Absorbed(m, v, FilterValue(raw, onTagsPath, Stored(m, v), v))
    decreases v, 0
  {
    hide FilterValue, SetOnceOk, Stable, NormField, NormProps, HashField, IsTagArray, HasTags, Absorbed;
    var f, ex := v.fields, Stored(m, v);
    OpaqueParts(raw, m.h, onTagsPath, v);
    FilterObject(raw, onTagsPath, ex, v);
    var f' := FilterValue(raw, onTagsPath, ex, v).fields;
    OpaqueStored(m.h, f);
    forall k | k in f && k != "$value" ensures NormField(f'[k]) == NormField(f[k]) {
      assert Child(ex, Key(k)) == NormField(f[k]);
      FilterAbsorbed(raw, Plain, onTagsPath || HasTags(k), f[k]);
      PlainAbsorbed(f[k], f'[k]);
    }
    FilterAgainstString(raw, onTagsPath || HasTags("$value"), HashedValue(m.h, f["$value"]).s, f["$value"]);
    FilterScalar(raw, onTagsPath || HasTags("$visibility"), Child(ex, Key("$visibility")), f["$visibility"]);
    OpaqueFilteredBack(m.h, f, f');
  }

  lemma {:induction false} PlainAbsorbed(v: Json, w: Json)
    requires Absorbed(Plain, v, w)
    ensures NormField(w) == NormField(v)
  {
  }

  lemma {:induction false} OpaqueParts(raw: Json -> string, h: Hasher, onTagsPath: bool, v: Json)
    requires v.Obj? && IsOpaque(v.fields) && Stable(h, v) && SetOnceOk(raw, onTagsPath, v)
    ensures OpaqueStable(h, v.fields) && "$visibility" in v.fields
    ensures forall k | k in v.fields :: SetOnceOk(raw, onTagsPath || HasTags(k), v.fields[k])
  {
  }

  /** The stored form of an opaque object. */
  lemma {:induction false} OpaqueStored(h: Hasher, f: Props)
    requires h.Valid() && IsOpaque(f) && OpaqueStable(h, f)
    ensures "$value" in f && HashedValue(h, f["$value"]).Str?
    ensures NormField(HashField(h, Obj(f))) == Some(Obj(NormProps(f)["$value" := HashedValue(h, f["$value"])]))
    ensures forall k | k in f && k != "$value" ::
              Child(NormField(HashField(h, Obj(f))), Key(k)) == NormField(f[k])
    ensures Child(NormField(HashField(h, Obj(f))), Key("$value")) == Some(HashedValue(h, f["$value"]))
  {
    var f1, hashed := HashOpaque(h, f), HashedValue(h, OpaqueValue(f));
    assert "$value" in f;
    NormObject(f1);
    assert NormField(hashed) == Some(hashed);
    assert NormProps(f1)["$visibility"] == Str("Opaque");
    assert NormProps(f1) == NormProps(f)["$value" := hashed];
  }

  lemma {:induction false} OpaqueFilteredBack(h: Hasher, f: Props, f': Props)
    requires h.Valid() && IsOpaque(f) && OpaqueStable(h, f) && "$value" in f
    requires f'.Keys == f.Keys && f'["$visibility"] == f["$visibility"]
    requires forall k | k in f && k != "$value" :: NormField(f'[k]) == NormField(f[k])
    requires f'["$value"] in {f["$value"], HashedValue(h, f["$value"])}
    ensures Absorbed(Hashing(h), Obj(f), Obj(f'))
  {
    OpaqueStored(h, f);
    var hashed := HashedValue(h, f["$value"]);
    var g' := NormProps(f');
    NormObject(f');
    assert NormField(hashed) == Some(hashed) && HashedValue(h, hashed) == hashed;
    assert g'["$visibility"] == Str("Opaque");
    assert "$value" in g' && HashedValue(h, g'["$value"]) == hashed;
    assert g'["$value" := hashed] == NormProps(f)["$value" := hashed];
  }

  // ----- The comparison -----

  /** The new properties as they are compared with the stored ones. */
  function Comparable(h: Hasher, raw: Json -> string, existing: Props, p: Props): Props {
    HashProps(h, NormProps(FilterProps(raw, NormProps(existing), p)))
  }

  ghost predicate Changed(h: Hasher, raw: Json -> string, existing: Props, p: Props) {
    !Same(Obj(NormProps(existing)), Obj(Comparable(h, raw, existing, p)))
  }

  /** Applying again what was persisted is no change: the stored form of properties compares equal to the
      properties themselves. */
  lemma {:induction false} ReapplyIsNoChange(h: Hasher, raw: Json -> string, p: Props)
    requires h.Valid() && forall k | k in p :: Stable(h, p[k]) && SetOnceOk(raw, HasTags(k), p[k])
    ensures Comparable(h, raw, HashProps(h, p), p) == NormProps(HashProps(h, p))
    ensures !Changed(h, raw, HashProps(h, p), p)
  {
    var m := Hashing(h);
    var stored := NormProps(HashProps(h, p));
    var filtered := FilterProps(raw, stored, p);
    forall k | k in p ensures k in filtered && Absorbed(m, p[k], filtered[k]) {
      PropertyAbsorbed(h, raw, p, k);
    }
    AbsorbedProps(h, p, filtered);
  }

  lemma {:induction false} PropertyAbsorbed(h: Hasher, raw: Json -> string, p: Props, k: string)
    requires h.Valid() && k in p && Stable(h, p[k]) && SetOnceOk(raw, HasTags(k), p[k])
    ensures var filtered := FilterProps(raw, NormProps(HashProps(h, p)), p);
            k in filtered && Absorbed(Hashing(h), p[k], filtered[k])
  {
    hide FilterValue, NormField, HashField, Absorbed;
    var stored := NormProps(HashProps(h, p));
    assert Child(Some(Obj(stored)), Key(k)) == Stored(Hashing(h), p[k]);
    FilterAbsorbed(raw, Hashing(h), HasTags(k), p[k]);
  }

  /** Properties that normalise and hash to the same fields have the same stored form. */
  lemma {:induction false} AbsorbedProps(h: Hasher, p: Props, filtered: Props)
    requires filtered.Keys == p.Keys && forall k | k in p :: Absorbed(Hashing(h), p[k], filtered[k])
    ensures HashProps(h, NormProps(filtered)) == NormProps(HashProps(h, p))
  {
    hide NormField, HashField;
    assert NormProps(filtered).Keys == NormProps(HashProps(h, p)).Keys;
  }

  // ----- Where re-applying is seen as a change -----

  /** For an opaque property without SetOnce: re-applying it is seen as a change exactly when normalisation leaves
      nothing of its value, or the value is an array or object and what is left of it hashes to another text. */
  lemma {:induction false} OpaqueExact(h: Hasher, raw: Json -> string, k: string, f: Props)
    requires h.Valid() && IsOpaque(f) && NoSetOnce(Obj(f))
    ensures var v := OpaqueValue(f);
            Changed(h, raw, HashProps(h, map[k := Obj(f)]), map[k := Obj(f)]) <==>
            Hollow(v) || ((v.Arr? || v.Obj?) && Digest(h, Normalised(v)) != Digest(h, v))
  {
    OpaqueShapes(h, f);
    OpaqueUnstable(h, raw, k, f);
  }

  lemma {:induction false} OpaqueUnstable(h: Hasher, raw: Json -> string, k: string, f: Props)
    requires h.Valid() && IsOpaque(f) && NoSetOnce(Obj(f))
    ensures Changed(h, raw, HashProps(h, map[k := Obj(f)]), map[k := Obj(f)]) <==> !OpaqueStable(h, f)
  {
    var p := map[k := Obj(f)];
    if OpaqueStable(h, f) {
      ReapplyIsNoChange(h, raw, p);
    } else {
      UnstableIsChange(h, raw, k, f);
    }
  }

  /** Where the hash tells a value from what normalisation leaves of it, the condition is the value's shape alone: a
      change is seen exactly when the value has, at some depth, a null, an empty array or an empty object to lose. */
  lemma {:induction false} OpaqueExactByShape(h: Hasher, raw: Json -> string, k: string, f: Props)
    requires h.Valid() && IsOpaque(f) && NoSetOnce(Obj(f))
    requires var v := OpaqueValue(f); Normalised(v) != v ==> Digest(h, Normalised(v)) != Digest(h, v)
    ensures Changed(h, raw, HashProps(h, map[k := Obj(f)]), map[k := Obj(f)]) <==> !Compact(OpaqueValue(f))
  {
    var v := OpaqueValue(f);
    OpaqueExact(h, raw, k, f);
    HollowExactly(v);
    CompactExactly(v);
  }

  /** Null values are seen as changed, whatever the hash function and wherever they are, and so is an absent value. */
  lemma {:induction false} NullOpaqueChanges(h: Hasher, raw: Json -> string, k: string)
    requires h.Valid()
    ensures var f := map["$visibility" := Str("Opaque"), "$value" := Null];
            Changed(h, raw, HashProps(h, map[k := Obj(f)]), map[k := Obj(f)])
    ensures var f := map["$visibility" := Str("Opaque")];
            Changed(h, raw, HashProps(h, map[k := Obj(f)]), map[k := Obj(f)])
  {
    OpaqueExact(h, raw, k, map["$visibility" := Str("Opaque"), "$value" := Null]);
    OpaqueExact(h, raw, k, map["$visibility" := Str("Opaque")]);
  }

  /** For an opaque SetOnce property a change is seen exactly when its value is null or absent: any other value is
      stored as a hash, which the property then keeps. */
  lemma {:induction false} OpaqueSetOnceExact(h: Hasher, raw: Json -> string, k: string, f: Props)
    requires h.Valid() && IsOpaque(f) && IsSetOnce(Obj(f)) && forall x | x in f :: NoSetOnce(f[x])
    ensures Changed(h, raw, HashProps(h, map[k := Obj(f)]), map[k := Obj(f)]) <==> OpaqueValue(f) == Null
  {
    hide FilterValue, NormField, HashField, NoSetOnce, ToBag, HasTags;
    var p := map[k := Obj(f)];
    var a := NormProps(HashOpaque(h, f));
    var stored := NormProps(HashProps(h, p));
    OpaqueBothWays(h, f);
    assert stored == map[k := Obj(a)];
    if OpaqueValue(f) == Null {
      NullNotKept(h, raw, HasTags(k), f);
      assert FilterProps(raw, stored, p) == p;
      var b := HashOpaque(h, NormProps(f));
      assert Comparable(h, raw, HashProps(h, p), p) == map[k := Obj(b)];
      NullIsUnstable(h, f);
      UnstableDiffers(h, f);
      OneFieldDiffers(k, Obj(a), Obj(b));
    } else {
      HashKept(h, raw, HasTags(k), f);
      assert FilterProps(raw, stored, p) == map[k := Obj(a)];
      assert NormProps(map[k := Obj(a)]) == map[k := Obj(a)];
      assert Comparable(h, raw, HashProps(h, p), p) == map[k := Obj(a)];
    }
  }

  lemma {:induction false} NullIsUnstable(h: Hasher, f: Props)
    requires OpaqueValue(f) == Null
    ensures !OpaqueStable(h, f)
  {
  }

  /** A null value leaves nothing stored to keep. */
  lemma {:induction false} NullNotKept(h: Hasher, raw: Json -> string, onTagsPath: bool, f: Props)
    requires OpaqueValue(f) == Null && forall x | x in f :: NoSetOnce(f[x])
    ensures FilterValue(raw, onTagsPath, Some(Obj(NormProps(HashOpaque(h, f)))), Obj(f)) == Obj(f)
  {
    var ex := Some(Obj(NormProps(HashOpaque(h, f))));
    assert "$value" !in ex.value.fields;
    FilterObject(raw, onTagsPath, ex, Obj(f));
    forall x | x in f ensures FilterValue(raw, onTagsPath || HasTags(x), Child(ex, Key(x)), f[x]) == f[x] {
      NothingToFilter(raw, onTagsPath || HasTags(x), Child(ex, Key(x)), f[x]);
    }
    assert FilterValue(raw, onTagsPath, ex, Obj(f)).fields == f;
  }

  /** A hash is kept, and changes under neither normalisation nor hashing. */
  lemma {:induction false} HashKept(h: Hasher, raw: Json -> string, onTagsPath: bool, f: Props)
    requires h.Valid() && IsOpaque(f) && IsSetOnce(Obj(f)) && OpaqueValue(f) != Null
    ensures var a := NormProps(HashOpaque(h, f));
            && FilterValue(raw, onTagsPath, Some(Obj(a)), Obj(f)) == Obj(a)
            && NormField(Obj(a)) == Some(Obj(a)) && HashField(h, Obj(a)) == Obj(a)
  {
    var f1 := HashOpaque(h, f);
    var a := NormProps(f1);
    var hashed := HashedValue(h, OpaqueValue(f));
    assert f1["$value"] == hashed && hashed.Str? && NormField(hashed) == Some(hashed);
    assert a["$value"] == hashed;
    NormOpaque(f1);
    NormIdempotent(Obj(f1));
    assert HashedValue(h, hashed) == hashed;
    assert a["$value" := hashed] == a;
  }

  lemma {:induction false} UnstableIsChange(h: Hasher, raw: Json -> string, k: string, f: Props)
    requires IsOpaque(f) && NoSetOnce(Obj(f)) && !OpaqueStable(h, f)
    ensures Changed(h, raw, HashProps(h, map[k := Obj(f)]), map[k := Obj(f)])
  {
    hide FilterValue, NormField, HashField, NoSetOnce, ToBag, HasTags;
    var p := map[k := Obj(f)];
    var a, b := NormProps(HashOpaque(h, f)), HashOpaque(h, NormProps(f));
    var stored := NormProps(HashProps(h, p));
    OpaqueBothWays(h, f);
    assert stored == map[k := Obj(a)];
    NothingToFilter(raw, HasTags(k), Some(Obj(a)), Obj(f));
    assert FilterProps(raw, stored, p) == p;
    assert Comparable(h, raw, HashProps(h, p), p) == map[k := Obj(b)];
    UnstableDiffers(h, f);
    OneFieldDiffers(k, Obj(a), Obj(b));
  }

  lemma {:induction false} OneFieldDiffers(k: string, a: Json, b: Json)
    requires ToBag(a) != ToBag(b)
    ensures !Same(Obj(map[k := a]), Obj(map[k := b]))
  {
    assert ToBag(Obj(map[k := a])).fields[k] == ToBag(a);
    assert ToBag(Obj(map[k := b])).fields[k] == ToBag(b);
  }

  /** An opaque object hashed then normalised, and normalised then hashed. */
  lemma {:induction false} OpaqueBothWays(h: Hasher, f: Props)
    requires IsOpaque(f)
    ensures NormField(HashField(h, Obj(f))) == Some(Obj(NormProps(HashOpaque(h, f))))
    ensures NormField(Obj(f)) == Some(Obj(NormProps(f)))
    ensures HashField(h, Obj(NormProps(f))) == Obj(HashOpaque(h, NormProps(f)))
  {
    assert HashOpaque(h, f)["$visibility"] == Str("Opaque");
    NormOpaque(HashOpaque(h, f));
    NormOpaque(f);
  }

  lemma {:induction false} UnstableDiffers(h: Hasher, f: Props)
    requires IsOpaque(f) && !OpaqueStable(h, f)
    ensures ToBag(Obj(NormProps(HashOpaque(h, f)))) != ToBag(Obj(HashOpaque(h, NormProps(f))))
  {
    var a, b := NormProps(HashOpaque(h, f)), HashOpaque(h, NormProps(f));
    var v := OpaqueValue(f);
    var x := HashedValue(h, v);
    assert HashOpaque(h, f)["$value"] == x && "$value" in b;
    assert x == Null || x.Str?;
    assert ToBag(Obj(a)).fields.Keys == a.Keys && ToBag(Obj(b)).fields.Keys == b.Keys;
    if x == Null {
      assert "$value" !in a;
    } else {
      assert a["$value"] == x;
      assert b["$value"] == HashedValue(h, OpaqueValue(NormProps(f)));
      assert b["$value"] != x && (b["$value"] == Null || b["$value"].Str?);
      assert ToBag(Obj(a)).fields["$value"] == BagScalar(x);
      assert ToBag(Obj(b)).fields["$value"] == BagScalar(b["$value"]);
    }
  }

  // ----- Filtering step by step on the document -----

  lemma {:induction false} GetAtFirst(root: Json, path: Path)
    requires path != []
    ensures GetAt(root, path) ==
            match Child(Some(root), path[0]) case Some(c) => GetAt(c, path[1..]) case None => None
    decreases |path|
  {
    var n := |path| - 1;
    if n > 0 {
      GetAtFirst(root, path[..n]);
      assert path[..n][1..] == path[1..][..n - 1];
    }
  }

  lemma {:induction false} SetAtSame(root: Json, path: Path, v: Json)
    requires GetAt(root, path) == Some(v)
    ensures SetAt(root, path, v) == root
    decreases |path|
  {
    if path != [] {
      GetAtFirst(root, path);
      SetAtSame(Child(Some(root), path[0]).value, path[1..], v);
    }
  }

  lemma {:induction false} SetAtGet(root: Json, path: Path, w: Json)
    requires GetAt(root, path).Some?
    ensures GetAt(SetAt(root, path, w), path) == Some(w)
    decreases |path|
  {
    if path != [] {
      GetAtFirst(root, path);
      var c := Child(Some(root), path[0]).value;
      SetAtGet(c, path[1..], w);
      GetAtFirst(SetAt(root, path, w), path);
      assert Child(Some(SetAt(root, path, w)), path[0]) == Some(SetAt(c, path[1..], w));
    }
  }

  /** Writing below a path that was just written is writing the changed value there. */
  lemma {:induction false} SetAtBelow(root: Json, path: Path, x: Json, s: Step, w: Json)
    requires GetAt(root, path).Some? && Child(Some(x), s).Some?
    ensures SetAt(SetAt(root, path, x), path + [s], w) == SetAt(root, path, SetAt(x, [s], w))
    decreases |path|
  {
    if path == [] {
      assert path + [s] == [s];
    } else {
      GetAtFirst(root, path);
      var c := Child(Some(root), path[0]).value;
      SetAtBelow(c, path[1..], x, s, w);
      assert (path + [s])[0] == path[0] && (path + [s])[1..] == path[1..] + [s];
      var r := SetAt(root, path, x);
      assert Child(Some(r), path[0]) == Some(SetAt(c, path[1..], x));
    }
  }

  lemma {:induction false} SetChild(x: Json, s: Step, w: Json)
    requires Child(Some(x), s).Some?
    ensures SetAt(x, [s], w) == match s case Key(k) => Obj(x.fields[k := w]) case Index(i) => Arr(x.items[i := w])
  {
    assert [s][1..] == [];
  }

  lemma {:induction false} TagsPathExtends(path: Path, s: Step)
    ensures OnTagsPath(path + [s]) <==> OnTagsPath(path) || (s.Key? && HasTags(s.k))
  {
    var longer := path + [s];
    if OnTagsPath(path) {
      var i :| 0 <= i < |path| && path[i].Key? && HasTags(path[i].k);
      assert longer[i] == path[i];
    }
    assert longer[|path|] == s;
  }

  /** Visits a value of the new document and writes the stored values it keeps into `filtered`. */
  method ProcessValue(raw: Json -> string, existing: Json, path: Path, v: Json, filtered: Json) returns (r: Json)
    requires GetAt(filtered, path) == Some(v)
    ensures r == SetAt(filtered, path, FilterValue(raw, OnTagsPath(path), GetAt(existing, path), v))
    decreases v, 1
  {
    var existingVal := GetAt(existing, path);
    if IsTagArray(OnTagsPath(path), v) {
      r := ProcessTagsArray(raw, path, v.items, existingVal, filtered);
      return;
    }
    if ShouldPreserve(v, existingVal) {
      r := SetAt(filtered, path, existingVal.value);
      return;
    }
    SetAtSame(filtered, path, v);
    match v {
      case Obj(f) => r := ProcessFields(raw, existing, path, v, filtered);
      case Arr(items) => r := ProcessItems(raw, existing, path, v, filtered);
      case _ => r := filtered;
    }
  }

  method ProcessFields(raw: Json -> string, existing: Json, path: Path, v: Json, filtered: Json) returns (r: Json)
    requires v.Obj? && GetAt(filtered, path) == Some(v) && !ShouldPreserve(v, GetAt(existing, path))
    ensures r == SetAt(filtered, path, FilterValue(raw, OnTagsPath(path), GetAt(existing, path), v))
    decreases v, 0
  {
    hide FilterValue, SetAt, GetAt, OnTagsPath, IsTagArray, HasTags;
    FilterObject(raw, OnTagsPath(path), GetAt(existing, path), v);
    ghost var goal := FilterValue(raw, OnTagsPath(path), GetAt(existing, path), v).fields;
    SetAtSame(filtered, path, v);
    var f, todo := v.fields, v.fields.Keys;
    ghost var now := f;
    r := filtered;
    while todo != {}
      invariant todo <= f.Keys && now.Keys == f.Keys == goal.Keys
      invariant forall k | k in f :: now[k] == if k in todo then f[k] else goal[k]
      invariant r == SetAt(filtered, path, Obj(now))
      decreases todo
    {
      var k :| k in todo;
      todo := todo - {k};
      SetAtGet(filtered, path, Obj(now));
      TagsPathExtends(path, Key(k));
      ChildAt(existing, path, Key(k));
      ChildAt(r, path, Key(k));
      r := ProcessValue(raw, existing, path + [Key(k)], f[k], r);
      SetAtBelow(filtered, path, Obj(now), Key(k), goal[k]);
      SetChild(Obj(now), Key(k), goal[k]);
      now := now[k := goal[k]];
    }
    assert now == goal;
  }

  method ProcessItems(raw: Json -> string, existing: Json, path: Path, v: Json, filtered: Json) returns (r: Json)
    requires v.Arr? && GetAt(filtered, path) == Some(v) && !IsTagArray(OnTagsPath(path), v)
    ensures r == SetAt(filtered, path, FilterValue(raw, OnTagsPath(path), GetAt(existing, path), v))
    decreases v, 0
  {
    hide FilterValue, SetAt, GetAt, OnTagsPath, IsTagArray, HasTags;
    FilterArray(raw, OnTagsPath(path), GetAt(existing, path), v);
    ghost var goal := FilterValue(raw, OnTagsPath(path), GetAt(existing, path), v).items;
    SetAtSame(filtered, path, v);
    var items := v.items;
    ghost var now := items;
    r := filtered;
    for i := 0 to |items|
      invariant |now| == |items| == |goal|
      invariant forall j | 0 <= j < |items| :: now[j] == if j < i then goal[j] else items[j]
      invariant r == SetAt(filtered, path, Arr(now))
    {
      SetAtGet(filtered, path, Arr(now));
      TagsPathExtends(path, Index(i));
      ChildAt(existing, path, Index(i));
      ChildAt(r, path, Index(i));
      r := ProcessValue(raw, existing, path + [Index(i)], items[i], r);
      SetAtBelow(filtered, path, Arr(now), Index(i), goal[i]);
      SetChild(Arr(now), Index(i), goal[i]);
      now := now[i := goal[i]];
    }
    assert now == goal;
  }

  lemma {:induction false} ChildAt(root: Json, path: Path, s: Step)
    ensures GetAt(root, path + [s]) == Child(GetAt(root, path), s)
  {
    assert (path + [s])[..|path|] == path;
  }

  lemma {:induction false} FilterArray(raw: Json -> string, onTagsPath: bool, existing: Option<Json>, v: Json)
    requires v.Arr? && !IsTagArray(onTagsPath, v)
    ensures FilterValue(raw, onTagsPath, existing, v).Arr?
    ensures |FilterValue(raw, onTagsPath, existing, v).items| == |v.items|
    ensures forall i | 0 <= i < |v.items| :: FilterValue(raw, onTagsPath, existing, v).items[i] ==
              FilterValue(raw, onTagsPath, Child(existing, Index(i)), v.items[i])
  {
  }

  /** Tags are matched by key instead of position. */
  method ProcessTagsArray(raw: Json -> string, path: Path, items: seq<Json>, existing: Option<Json>, filtered: Json)
    returns (r: Json)
    requires GetAt(filtered, path) == Some(Arr(items))
    ensures r == SetAt(filtered, path, Arr(FilterTags(raw, existing, items)))
  {
    hide SetAt, GetAt, TagTable;
    SetAtSame(filtered, path, Arr(items));
    r := filtered;
    if existing.None? || !existing.value.Arr? {
      return;
    }
    var table := BuildTagTable(raw, existing.value.items);
    ghost var goal := FilterTags(raw, existing, items);
    ghost var now := items;
    for i := 0 to |items|
      invariant |now| == |items| == |goal|
      invariant forall j | 0 <= j < |items| :: now[j] == if j < i then goal[j] else items[j]
      invariant r == SetAt(filtered, path, Arr(now))
    {
      var tag := items[i];
      if tag.Obj? && "Value" in tag.fields {
        var key := TagKey(raw, tag.fields);
        if key in table {
          var stored := Child(Some(Obj(table[key])), Key("Value"));
          if ShouldPreserve(tag.fields["Value"], stored) {
            TagWritten(filtered, path, now, i, stored.value);
            r := SetAt(r, path + [Index(i)] + [Key("Value")], stored.value);
            now := now[i := goal[i]];
          }
        }
      }
    }
    assert now == goal;
  }

  lemma {:induction false} TagWritten(root: Json, path: Path, now: seq<Json>, i: nat, w: Json)
    requires GetAt(root, path).Some? && i < |now| && now[i].Obj? && "Value" in now[i].fields
    ensures SetAt(SetAt(root, path, Arr(now)), path + [Index(i)] + [Key("Value")], w) ==
            SetAt(root, path, Arr(now[i := Obj(now[i].fields["Value" := w])]))
  {
    var r, deeper := SetAt(root, path, Arr(now)), path + [Index(i)];
    SetAtGet(root, path, Arr(now));
    ChildAt(r, path, Index(i));
    SetAtSame(r, deeper, now[i]);
    SetAtBelow(r, deeper, now[i], Key("Value"), w);
    SetChild(now[i], Key("Value"), w);
    var tag := Obj(now[i].fields["Value" := w]);
    SetAtBelow(root, path, Arr(now), Index(i), tag);
    SetChild(Arr(now), Index(i), tag);
  }

  method BuildTagTable(raw: Json -> string, items: seq<Json>) returns (table: map<string, Props>)
    ensures table == TagTable(raw, items)
  {
    table := map[];
    for i := 0 to |items|
      invariant table == TagTable(raw, items[..i])
    {
      assert items[..i + 1][..i] == items[..i];
      if items[i].Obj? {
        var key := TagKey(raw, items[i].fields);
        if key != "" {
          table := table[key := items[i].fields];
        }
      }
    }
    assert items[..|items|] == items;
  }

  lemma {:induction false} AtTop(p: Props, k: string)
    ensures GetAt(Obj(p), [Key(k)]) == Child(Some(Obj(p)), Key(k)) && OnTagsPath([Key(k)]) == HasTags(k)
  {
    ChildAt(Obj(p), [], Key(k));
    TagsPathExtends([], Key(k));
    hide HasTags, OnTagsPath;
    assert [] + [Key(k)] == [Key(k)];
    assert !OnTagsPath([]) by { NoTagsAtTop(); }
  }

  lemma {:induction false} NoTagsAtTop()
    ensures !OnTagsPath([])
  {
  }

  lemma {:induction false} TopSet(p: Props, k: string, w: Json)
    requires k in p
    ensures SetAt(Obj(p), [Key(k)], w) == Obj(p[k := w])
  {
    SetChild(Obj(p), Key(k), w);
  }

  method FilterSetOnceProps(raw: Json -> string, existing: Props, p: Props) returns (filtered: Props)
    ensures filtered == FilterProps(raw, existing, p)
  {
    hide GetAt, SetAt, OnTagsPath, HasTags, FilterValue;
    var todo, doc := p.Keys, Obj(p);
    ghost var goal, now := FilterProps(raw, existing, p), p;
    while todo != {}
      invariant todo <= p.Keys && now.Keys == p.Keys
      invariant forall k | k in p :: now[k] == if k in todo then p[k] else goal[k]
      invariant doc == Obj(now)
      decreases todo
    {
      var k :| k in todo;
      todo := todo - {k};
      AtTop(existing, k);
      AtTop(now, k);
      TopSet(now, k, goal[k]);
      doc := ProcessValue(raw, Obj(existing), [Key(k)], p[k], doc);
      now := now[k := goal[k]];
    }
    assert now == goal;
    filtered := doc.fields;
  }

  /** Compares a resource with its stored form and returns the properties to apply. */
  method EnforceSetOnceAndCompare(h: Hasher, raw: Json -> string, existing: Props, p: Props)
    returns (hasChanges: bool, toApply: Props)
    ensures hasChanges <==> Changed(h, raw, existing, p)
    ensures toApply == NormProps(FilterProps(raw, NormProps(existing), p))
  {
    var normalized := PersistenceLoops.NormalizeObject(existing);
    var filtered := FilterSetOnceProps(raw, normalized, p);
    toApply := PersistenceLoops.NormalizeObject(filtered);
    var hashed, _, _ := PersistenceLoops.ApplyToResource(h, toApply, map[], []);
    var equal := DeepEqualIgnoreArrayOrder(Obj(normalized), Obj(hashed));
    hasChanges := !equal;
  }
}

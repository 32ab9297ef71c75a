/** What hashing and filtering do to a document, path by path
    (internal/metastructure/transformations/persist_value_transformer.go, `processProps`;
    internal/metastructure/resource_update/resource_comparison.go, `filterSetOnceProps`). */
module DocumentPaths {
  import opened Common
  import opened Json
  import opened Persistence
  import opened ResourceComparison
  import PersistenceLoops

  lemma {:induction false} FirstStep(root: Json, path: Path)
    requires path != []
    ensures GetAt(root, path) ==
            match Child(Some(root), path[0]) case Some(c) => GetAt(c, path[1..]) case None => None
  {
    GetAtFirst(root, path);
  }

  /** The same at a path: a scalar is as it was, an object has the same keys, an array the same length. */
  predicate SameShapeAt(before: Option<Json>, after: Option<Json>) {
    match (before, after)
    case (None, None) => true
    case (Some(Obj(f)), Some(Obj(g))) => f.Keys == g.Keys
    case (Some(Arr(x)), Some(Arr(y))) => |x| == |y|
    case (Some(v), Some(w)) => v == w
    case _ => false
  }

  // ----- Hashing -----

  predicate IsOpaqueObject(v: Json) { v.Obj? && "$visibility" in v.fields && v.fields["$visibility"] == Str("Opaque") }

  /** Whether hashing comes to the property at a path below a value, which is a property itself or an array element.
      It goes through objects and arrays, but not through arrays in arrays and not into opaque objects. */
  predicate Comes(v: Json, isProperty: bool, path: Path)
    decreases |path|
  {
    if path == [] then isProperty
    else
      && !(isProperty && IsOpaqueObject(v)) && (path[0].Key? || isProperty)
      && Child(Some(v), path[0]).Some? && Comes(Child(Some(v), path[0]).value, path[0].Key?, path[1..])
  }

  /** Whether a path is that of an opaque object that hashing comes to, or leads below one. */
  ghost predicate IsCovered(v: Json, isProperty: bool, path: Path) {
    exists n | 0 <= n <= |path| ::
      Comes(v, isProperty, path[..n]) && GetAt(v, path[..n]).Some? && IsOpaqueObject(GetAt(v, path[..n]).value)
  }

  function HashedBelow(h: Hasher, v: Json, isProperty: bool): Json {
    if isProperty then HashField(h, v) else HashItem(h, v)
  }

  /** 64 lower-case hexadecimal digits. */
  predicate IsHash(s: string) { |s| == 64 && forall c | c in s :: c in "0123456789abcdef" }

  lemma {:induction false} HashExactly(s: string)
    ensures IsAlreadyHashed(s) <==> IsHash(s)
  {
    if |s| == 64 {
      assert forall c: char :: c in "0123456789abcdef" <==> '0' <= c <= '9' || 'a' <= c <= 'f';
      if IsHash(s) {
        forall i | 0 <= i < |s| ensures '0' <= s[i] <= '9' || 'a' <= s[i] <= 'f' {
          assert s[i] in s;
        }
      }
    }
  }

  /** What the value of an opaque object is replaced by. */
  function Masked(h: Hasher, f: Props): Json {
    if "$value" !in f || f["$value"] == Null then Null
    else
      match f["$value"]
      case Str(s) =>
        if IsHash(s) then Str(s)
        else if s == "" then Str("") else Str(h.sha(s))
      case v => if h.render(v) == "" then Str("") else Str(h.sha(h.render(v)))
  }

  lemma {:induction false} MaskedExactly(h: Hasher, f: Props)
    ensures HashedValue(h, OpaqueValue(f)) == Masked(h, f)
  {
    var v := OpaqueValue(f);
    if v.Str? {
      HashExactly(v.s);
    }
  }

  /** At the path of an opaque object that hashing comes to, the object has its value masked and all else as it was;
      at any path that is not below one, nothing has changed. */
  lemma {:induction false} HashedAt(h: Hasher, v: Json, isProperty: bool, path: Path)
    ensures Comes(v, isProperty, path) && GetAt(v, path).Some? && IsOpaqueObject(GetAt(v, path).value) ==>
              GetAt(HashedBelow(h, v, isProperty), path) ==
              Some(Obj(GetAt(v, path).value.fields["$value" := Masked(h, GetAt(v, path).value.fields)]))
    ensures !IsCovered(v, isProperty, path) ==>
              SameShapeAt(GetAt(v, path), GetAt(HashedBelow(h, v, isProperty), path))
    decreases |path|
  {
    var w := HashedBelow(h, v, isProperty);
    if isProperty && IsOpaqueObject(v) {
      CoveredHere(v, path);
      MaskedExactly(h, v.fields);
    } else if path != [] {
      var s := path[0];
      FirstStep(v, path);
      FirstStep(w, path);
      if v.Arr? && !isProperty {
        assert w == v;
        SameAsItself(GetAt(v, path));
      } else {
        ChildHashed(h, v, isProperty, s);
        if Child(Some(v), s).Some? {
          CoveredBelow(v, isProperty, path);
          HashedAt(h, Child(Some(v), s).value, s.Key?, path[1..]);
        }
      }
    } else {
      SameHere(h, v, isProperty);
    }
  }

  lemma {:induction false} SameAsItself(v: Option<Json>)
    ensures SameShapeAt(v, v)
  {
  }

  lemma {:induction false} SameHere(h: Hasher, v: Json, isProperty: bool)
    requires !(isProperty && IsOpaqueObject(v))
    ensures SameShapeAt(Some(v), Some(HashedBelow(h, v, isProperty)))
  {
    match v
    case Obj(f) => assert HashedBelow(h, v, isProperty) == HashItem(h, v);
    case Arr(items) =>
    case _ =>
  }

  lemma {:induction false} CoveredHere(v: Json, path: Path)
    requires IsOpaqueObject(v)
    ensures IsCovered(v, true, path)
  {
    assert path[..0] == [];
    assert Comes(v, true, path[..0]) && GetAt(v, path[..0]) == Some(v);
  }

  lemma {:induction false} ChildHashed(h: Hasher, v: Json, isProperty: bool, s: Step)
    requires !(isProperty && IsOpaqueObject(v)) && !(v.Arr? && !isProperty)
    ensures Child(Some(HashedBelow(h, v, isProperty)), s) ==
            match Child(Some(v), s) case Some(c) => Some(HashedBelow(h, c, s.Key?)) case None => None
  {
    match v
    case Obj(f) =>
      assert HashedBelow(h, v, isProperty) == HashItem(h, v);
    case Arr(items) =>
    case _ =>
  }

  /** What is covered below a child is covered below the whole. */
  lemma {:induction false} CoveredBelow(v: Json, isProperty: bool, path: Path)
    requires path != [] && !(isProperty && IsOpaqueObject(v)) && !(v.Arr? && !isProperty)
    ensures Child(Some(v), path[0]).Some? && IsCovered(Child(Some(v), path[0]).value, path[0].Key?, path[1..]) ==>
              IsCovered(v, isProperty, path)
  {
    if Child(Some(v), path[0]).Some? {
      var c := Child(Some(v), path[0]).value;
      if n :|
          && 0 <= n <= |path| - 1 && Comes(c, path[0].Key?, path[1..][..n]) && GetAt(c, path[1..][..n]).Some?
          && IsOpaqueObject(GetAt(c, path[1..][..n]).value) {
        assert path[..n + 1][1..] == path[1..][..n];
        FirstStep(v, path[..n + 1]);
        assert Comes(v, isProperty, path[..n + 1]);
      }
    }
  }

  /** The same for the properties of a resource. */
  lemma {:induction false} HashedExactly(h: Hasher, p: Props, path: Path)
    ensures Comes(Obj(p), false, path) && GetAt(Obj(p), path).Some? && IsOpaqueObject(GetAt(Obj(p), path).value) ==>
              GetAt(Obj(HashProps(h, p)), path) ==
              Some(Obj(GetAt(Obj(p), path).value.fields["$value" := Masked(h, GetAt(Obj(p), path).value.fields)]))
    ensures !IsCovered(Obj(p), false, path) ==> SameShapeAt(GetAt(Obj(p), path), GetAt(Obj(HashProps(h, p)), path))
  {
    assert HashItem(h, Obj(p)) == Obj(HashProps(h, p));
    HashedAt(h, Obj(p), false, path);
  }

  // ----- Which texts are replaced -----

  /** The text of an opaque object's value, unless it is empty or a hash already, with the text of what masks it. */
  predicate IsReplacement(h: Hasher, f: Props, r: (string, string)) {
    var v := if "$value" in f then f["$value"] else Null;
    && r.0 != "" && r.0 == (if v.Str? then v.s else h.render(v))
    && r.1 == (match Masked(h, f) case Str(s) => s case w => h.render(w))
    && !(v.Str? && IsHash(v.s))
  }

  ghost function MasksBelow(h: Hasher, v: Json, isProperty: bool): set<(string, string)> {
    if isProperty then PersistenceLoops.Masks(h, v) else PersistenceLoops.ItemMasks(h, v)
  }

  ghost predicate ReplacedAt(h: Hasher, v: Json, isProperty: bool, path: Path, r: (string, string)) {
    Comes(v, isProperty, path) && GetAt(v, path).Some? && IsOpaqueObject(GetAt(v, path).value) &&
    IsReplacement(h, GetAt(v, path).value.fields, r)
  }

  lemma {:induction false} OpaqueMasks(h: Hasher, f: Props, r: (string, string))
    requires IsOpaque(f)
    ensures r in PersistenceLoops.Masks(h, Obj(f)) <==> IsReplacement(h, f, r)
  {
    var v := OpaqueValue(f);
    MaskedExactly(h, f);
    assert PersistenceLoops.Masks(h, Obj(f)) == PersistenceLoops.MaskOf(h, v);
    assert r == (r.0, r.1);
    if v.Str? {
      HashExactly(v.s);
    }
  }

  lemma {:induction false} NotedAt(h: Hasher, v: Json, isProperty: bool, path: Path, r: (string, string))
    requires ReplacedAt(h, v, isProperty, path, r)
    ensures r in MasksBelow(h, v, isProperty)
    decreases |path|
  {
    if path == [] {
      OpaqueMasks(h, v.fields, r);
    } else {
      FirstStep(v, path);
      var c := Child(Some(v), path[0]).value;
      NotedAt(h, c, path[0].Key?, path[1..], r);
      MasksOfChild(h, v, isProperty, path[0], r);
    }
  }

  lemma {:induction false} MasksOfChild(h: Hasher, v: Json, isProperty: bool, s: Step, r: (string, string))
    requires !(isProperty && IsOpaqueObject(v)) && (s.Key? || isProperty) && Child(Some(v), s).Some?
    requires r in MasksBelow(h, Child(Some(v), s).value, s.Key?)
    ensures r in MasksBelow(h, v, isProperty)
  {
    match v
    case Obj(f) =>
      assert r in PersistenceLoops.ItemMasks(h, v);
    case Arr(items) =>
    case _ =>
  }

  lemma {:induction false} WhereNoted(h: Hasher, v: Json, isProperty: bool, r: (string, string)) returns (path: Path)
    requires r in MasksBelow(h, v, isProperty)
    ensures ReplacedAt(h, v, isProperty, path, r)
    decreases v
  {
    if isProperty && IsOpaqueObject(v) {
      OpaqueMasks(h, v.fields, r);
      path := [];
    } else {
      var s, c := NotedChild(h, v, isProperty, r);
      var rest := WhereNoted(h, c, s.Key?, r);
      path := [s] + rest;
      assert path[1..] == rest;
      FirstStep(v, path);
    }
  }

  lemma {:induction false} NotedChild(h: Hasher, v: Json, isProperty: bool, r: (string, string))
    returns (s: Step, c: Json)
    requires r in MasksBelow(h, v, isProperty) && !(isProperty && IsOpaqueObject(v))
    ensures (s.Key? || isProperty) && Child(Some(v), s) == Some(c) && c < v && r in MasksBelow(h, c, s.Key?)
  {
    match v
    case Obj(f) =>
      assert r in PersistenceLoops.ItemMasks(h, v);
      var k :| k in f && r in PersistenceLoops.Masks(h, f[k]);
      s, c := Key(k), f[k];
    case Arr(items) =>
      var i :| 0 <= i < |items| && r in PersistenceLoops.ItemMasks(h, items[i]);
      s, c := Index(i), items[i];
  }

  /** The texts that hashing notes are those of the opaque objects that it comes to, and no others. */
  lemma {:induction false} NotedExactly(h: Hasher, p: Props, r: (string, string))
    ensures r in PersistenceLoops.ItemMasks(h, Obj(p)) <==> exists path :: ReplacedAt(h, Obj(p), false, path, r)
  {
    if r in PersistenceLoops.ItemMasks(h, Obj(p)) {
      var path := WhereNoted(h, Obj(p), false, r);
    }
    if path :| ReplacedAt(h, Obj(p), false, path, r) {
      NotedAt(h, Obj(p), false, path, r);
    }
  }

  // ----- Filtering -----

  predicate TagsStart(k: string, j: int) {
    0 <= j < |k| - 3 && k[j] == 'T' && k[j + 1] == 'a' && k[j + 2] == 'g' && k[j + 3] == 's'
  }

  /** "Tags" is a part of the key. */
  predicate NamesTags(k: string) { exists j | 0 <= j < |k| :: TagsStart(k, j) }

  lemma {:induction false} TagsFirst(k: string)
    requires |k| >= 4
    ensures k[..4] == "Tags" <==> TagsStart(k, 0)
  {
    assert k[..4] == [k[0], k[1], k[2], k[3]];
  }

  lemma {:induction false} TagsLater(k: string, j: nat)
    requires k != []
    ensures TagsStart(k, j + 1) <==> TagsStart(k[1..], j)
  {
  }

  lemma {:induction false} TagsExactly(k: string)
    ensures HasTags(k) <==> NamesTags(k)
  {
    if |k| >= 4 {
      TagsFirst(k);
      TagsExactly(k[1..]);
      hide TagsStart;
      if j :| 0 <= j < |k[1..]| && TagsStart(k[1..], j) {
        TagsLater(k, j);
      }
      if j :| 0 <= j < |k| && TagsStart(k, j) {
        if j > 0 {
          TagsLater(k, j - 1);
        }
      }
    }
  }

  /** A SetOnce object keeps the stored value if that is there and not null. */
  predicate KeepsStored(v: Json, stored: Option<Json>) {
    && v.Obj? && "$strategy" in v.fields && v.fields["$strategy"] == Str("SetOnce")
    && match stored
       case None => false
       case Some(Obj(g)) => "$value" in g && g["$value"] != Null
       case Some(x) => x != Null
  }

  /** A list below a key that names tags, whose first element has a key and a value. */
  predicate IsTagList(onTags: bool, v: Json) {
    onTags && v.Arr? && |v.items| > 0 && v.items[0].Obj? && {"Key", "Value"} <= v.items[0].fields.Keys
  }

  function KeyText(raw: Json -> string, f: Props): string {
    if "Key" !in f then "" else match f["Key"] case Null => "" case Str(s) => s case k => raw(k)
  }

  ghost predicate LastWithKey(raw: Json -> string, tags: seq<Json>, key: string, j: int) {
    && 0 <= j < |tags| && key != "" && tags[j].Obj? && KeyText(raw, tags[j].fields) == key
    && forall i | j < i < |tags| && tags[i].Obj? :: KeyText(raw, tags[i].fields) != key
  }

  /** A tag keeps the value of the last stored tag with its key if that value is kept, and is otherwise as it was. */
  ghost predicate TagOutcome(raw: Json -> string, stored: seq<Json>, tag: Json, result: Json) {
    if tag.Obj? && "Value" in tag.fields && exists j ::
        && LastWithKey(raw, stored, KeyText(raw, tag.fields), j) && "Value" in stored[j].fields
        && KeepsStored(tag.fields["Value"], Some(stored[j].fields["Value"]))
    then
      forall j | LastWithKey(raw, stored, KeyText(raw, tag.fields), j) ::
        && "Value" in stored[j].fields && result == Obj(tag.fields["Value" := stored[j].fields["Value"]])
    else result == tag
  }

  /** Whether filtering comes to a path: through nothing that is kept and through no list of tags. */
  predicate Passes(onTags: bool, stored: Option<Json>, v: Json, path: Path)
    decreases |path|
  {
    path == [] ||
    (&& !IsTagList(onTags, v) && !KeepsStored(v, stored) && Child(Some(v), path[0]).Some?
     && Passes(onTags || (path[0].Key? && NamesTags(path[0].k)), Child(stored, path[0]),
               Child(Some(v), path[0]).value, path[1..]))
  }

  predicate TagsAlong(onTags: bool, path: Path) {
    onTags || exists i | 0 <= i < |path| :: path[i].Key? && NamesTags(path[i].k)
  }

  function Lookup(root: Option<Json>, path: Path): Option<Json> {
    match root case None => None case Some(r) => GetAt(r, path)
  }

  /** What filtering makes of the value at a path that it comes to. */
  ghost predicate Outcome(raw: Json -> string, onTags: bool, stored: Option<Json>, v: Json, w: Option<Json>) {
    if IsTagList(onTags, v) then
      && w.Some? && w.value.Arr? && |w.value.items| == |v.items|
      && if stored.Some? && stored.value.Arr?
         then forall i | 0 <= i < |v.items| :: TagOutcome(raw, stored.value.items, v.items[i], w.value.items[i])
         else w == Some(v)
    else if KeepsStored(v, stored) then w == stored
    else SameShapeAt(Some(v), w)
  }

  lemma {:induction false} TableExactly(raw: Json -> string, tags: seq<Json>, key: string)
    ensures key in TagTable(raw, tags) <==> exists j :: LastWithKey(raw, tags, key, j)
    ensures forall j | LastWithKey(raw, tags, key, j) :: key in TagTable(raw, tags) &&
              TagTable(raw, tags)[key] == tags[j].fields
  {
    if tags != [] {
      var n := |tags| - 1;
      TableExactly(raw, tags[..n], key);
      var last := tags[n];
      if last.Obj? && KeyText(raw, last.fields) == key && key != "" {
        assert LastWithKey(raw, tags, key, n);
        forall j | LastWithKey(raw, tags, key, j) ensures j == n {
        }
      } else {
        assert forall i | 0 <= i < n :: tags[..n][i] == tags[i];
        forall j ensures LastWithKey(raw, tags, key, j) <==> LastWithKey(raw, tags[..n], key, j) {
        }
      }
    }
  }

  lemma {:induction false} TagFiltered(raw: Json -> string, stored: seq<Json>, tag: Json)
    ensures TagOutcome(raw, stored, tag, FilterTag(raw, TagTable(raw, stored), tag))
  {
    if tag.Obj? && "Value" in tag.fields {
      var key := KeyText(raw, tag.fields);
      TableExactly(raw, stored, key);
      hide LastWithKey, TagTable;
    }
  }

  lemma {:induction false} HereFiltered(raw: Json -> string, onTags: bool, stored: Option<Json>, v: Json)
    ensures Outcome(raw, onTags, stored, v, Some(FilterValue(raw, onTags, stored, v)))
  {
    assert IsTagArray(onTags, v) <==> IsTagList(onTags, v);
    assert ShouldPreserve(v, stored) <==> KeepsStored(v, stored);
    if IsTagList(onTags, v) && stored.Some? && stored.value.Arr? {
      forall i | 0 <= i < |v.items|
        ensures TagOutcome(raw, stored.value.items, v.items[i], FilterTags(raw, stored, v.items)[i])
      {
        TagFiltered(raw, stored.value.items, v.items[i]);
      }
    }
  }

  lemma {:induction false} ChildFiltered(raw: Json -> string, onTags: bool, stored: Option<Json>, v: Json, s: Step)
    requires !IsTagList(onTags, v) && !KeepsStored(v, stored)
    ensures Child(Some(FilterValue(raw, onTags, stored, v)), s) ==
            match Child(Some(v), s)
            case Some(c) => Some(FilterValue(raw, onTags || (s.Key? && NamesTags(s.k)), Child(stored, s), c))
            case None => None
  {
    assert !IsTagArray(onTags, v) && !ShouldPreserve(v, stored);
    if s.Key? {
      TagsExactly(s.k);
    }
    match v
    case Obj(f) => FilterObject(raw, onTags, stored, v);
    case Arr(items) => FilterArray(raw, onTags, stored, v);
    case _ =>
  }

  lemma {:induction false} FilteredAt(raw: Json -> string, onTags: bool, stored: Option<Json>, v: Json, path: Path)
    ensures Passes(onTags, stored, v, path) && GetAt(v, path).Some? ==>
              Outcome(raw, TagsAlong(onTags, path), Lookup(stored, path), GetAt(v, path).value,
                      GetAt(FilterValue(raw, onTags, stored, v), path))
    decreases |path|
  {
    if path == [] {
      HereFiltered(raw, onTags, stored, v);
      assert Lookup(stored, path) == stored;
    } else if Passes(onTags, stored, v, path) {
      var s := path[0];
      var on := onTags || (s.Key? && NamesTags(s.k));
      ChildFiltered(raw, onTags, stored, v, s);
      FirstStep(v, path);
      FirstStep(FilterValue(raw, onTags, stored, v), path);
      FilteredAt(raw, on, Child(stored, s), Child(Some(v), s).value, path[1..]);
      LookupBelow(stored, path);
      TagsBelow(onTags, path);
    }
  }

  lemma {:induction false} LookupBelow(root: Option<Json>, path: Path)
    requires path != []
    ensures Lookup(root, path) == Lookup(Child(root, path[0]), path[1..])
  {
    if root.Some? {
      FirstStep(root.value, path);
    }
  }

  lemma {:induction false} TagsBelow(onTags: bool, path: Path)
    requires path != []
    ensures TagsAlong(onTags, path) <==>
            TagsAlong(onTags || (path[0].Key? && NamesTags(path[0].k)), path[1..])
  {
    assert path == [path[0]] + path[1..];
    if i :| 0 <= i < |path| && path[i].Key? && NamesTags(path[i].k) {
      assert i > 0 ==> path[1..][i - 1] == path[i];
    }
    if i :| 0 <= i < |path| - 1 && path[1..][i].Key? && NamesTags(path[1..][i].k) {
      assert path[i + 1] == path[1..][i];
    }
  }

  /** What filtering makes of the properties of a resource: at every path that it comes to, a list of tags has its
      values matched by key, a SetOnce object gives way to what is stored at the same path, and anything else is as
      it was. */
  lemma {:induction false} FilteredExactly(
    raw: Json -> string, existing: Props, p: Props, k: string, path: Path)
    requires k in p && Passes(NamesTags(k), if k in existing then Some(existing[k]) else None, p[k], path)
    requires GetAt(p[k], path).Some?
    ensures k in FilterProps(raw, existing, p)
    ensures Outcome(raw, TagsAlong(NamesTags(k), path),
                    if k in existing then GetAt(existing[k], path) else None, GetAt(p[k], path).value,
                    GetAt(FilterProps(raw, existing, p)[k], path))
    ensures FilterProps(raw, existing, p).Keys == p.Keys
  {
    TagsExactly(k);
    FilteredAt(raw, NamesTags(k), if k in existing then Some(existing[k]) else None, p[k], path);
  }
}

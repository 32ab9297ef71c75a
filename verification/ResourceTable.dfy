/** The versioned resource table (internal/metastructure/datastore/sqlite.go and datastore.go): rows are kept per
    resource and version, and the inventory is read off the newest ones. */
module ResourceTables {
  import opened Common
  import opened Json

  type Ksuid = nat

  /** A resource as stored; rest stands for the fields that no comparison looks at. */
  datatype Resource = Resource(
    nativeId: string, stack: string, typ: string, name: string,
    properties: Option<Json>, readOnly: Option<Json>, rest: string)

  /** What a delete row holds instead of a resource. */
  const blankResource := Resource("", "", "", "", None, None, "")

  datatype Row = Row(deleted: bool, nativeId: string, stack: string, typ: string, data: Resource, managed: bool)

  datatype Key = Key(ksuid: Ksuid, version: nat)
  type Table = map<Key, Row>

  datatype Call = Call(ksuid: Ksuid, resource: Resource, managed: bool, delete: bool)

  function ReadWriteEqual(a: Resource, b: Resource): bool {
    a.nativeId == b.nativeId && a.stack == b.stack && a.typ == b.typ && a.name == b.name && a.properties == b.properties
  }

  function ReadOnlyEqual(a: Resource, b: Resource): bool { a.readOnly == b.readOnly }

  // ----- Reading -----

  predicate Newest(t: Table, key: Key) {
    key in t && forall other | other in t && other.ksuid == key.ksuid :: other.version <= key.version
  }

  predicate Known(t: Table, k: Ksuid) { exists key | key in t :: key.ksuid == k }

  ghost predicate Deleted(t: Table, k: Ksuid) { exists key | Newest(t, key) :: key.ksuid == k && t[key].deleted }

  /** The inventory shows something for a KSUID. */
  ghost predicate Live(t: Table, k: Ksuid) { exists key | Newest(t, key) :: key.ksuid == k && !t[key].deleted }

  lemma {:induction false} NewestUnique(t: Table, a: Key, b: Key)
    requires Newest(t, a) && Newest(t, b) && a.ksuid == b.ksuid
    ensures a == b
  {
  }

  /** A finite nonempty set of keys has one with the greatest version. */
  lemma {:induction false} GreatestExists(keys: set<Key>)
    requires keys != {}
    ensures exists m | m in keys :: forall other | other in keys :: other.version <= m.version
  {
    var key :| key in keys;
    var others := keys - {key};
    if others == {} {
      assert keys == {key};
    } else {
      GreatestExists(others);
      var m :| m in others && forall other | other in others :: other.version <= m.version;
      if key.version <= m.version {
        assert forall other | other in keys :: other.version <= m.version;
      } else {
        assert forall other | other in keys :: other.version <= key.version;
      }
    }
  }

  lemma {:induction false} KnownHasNewest(t: Table, k: Ksuid)
    requires Known(t, k)
    ensures exists key | Newest(t, key) :: key.ksuid == k
  {
    var keys := set key | key in t && key.ksuid == k;
    var some :| some in t && some.ksuid == k;
    assert some in keys;
    GreatestExists(keys);
    var m :| m in keys && forall other | other in keys :: other.version <= m.version;
    assert Newest(t, m);
  }

  // ----- Storing -----

  predicate Matches(row: Row, r: Resource) { row.nativeId == r.nativeId && row.typ == r.typ }

  /** The row that a call compares itself with: one of the newest with its native ID and type. */
  predicate IsMatch(t: Table, r: Resource, found: Option<Key>) {
    match found
    case None => forall key | key in t :: !Matches(t[key], r)
    case Some(m) => m in t && Matches(t[m], r) && forall key | key in t && Matches(t[key], r) ::
        key.version <= m.version
  }

  predicate FreshVersion(t: Table, v: nat) { forall key | key in t :: key.version < v }

  function NewRow(c: Call): Row {
    Row(c.delete, c.resource.nativeId, c.resource.stack, c.resource.typ,
        if c.delete then blankResource else c.resource, c.managed)
  }

  function WithoutKsuid(t: Table, k: Ksuid): Table { map key | key in t && key.ksuid != k :: t[key] }

  /** The table after a call that compares itself with the found row, and the version it reports; no version is an
      error. */
  ghost function Outcome(t: Table, c: Call, found: Option<Key>, v: nat): (Table, Option<Key>)
    requires IsMatch(t, c.resource, found)
  {
    if found.None? then (t[Key(c.ksuid, v) := NewRow(c)], Some(Key(c.ksuid, v))) else
    var m := found.value;
    var cleaned := if !t[m].managed && !c.delete then WithoutKsuid(t, m.ksuid) else t;
    var rw, ro := ReadWriteEqual(c.resource, t[m].data), ReadOnlyEqual(c.resource, t[m].data);
    if c.delete && !Known(t, c.ksuid) then (t, None)
    else if c.delete && Deleted(t, c.ksuid) then (t, Some(Key(c.ksuid, m.version)))
    else if !c.delete && rw && ro then (cleaned, Some(Key(c.ksuid, m.version)))
    else
      var version := if rw && !ro then m.version else v;
      (cleaned[Key(c.ksuid, version) := NewRow(c)], Some(Key(m.ksuid, version)))
  }

  /** Rows hold managed resources, and the columns of those that are no deletes agree with the resource in them. */
  ghost predicate Sound(t: Table) {
    forall key | key in t :: t[key].managed && (!t[key].deleted ==> Agrees(t[key]))
  }

  ghost predicate IsOfStack(row: Row, stack: string) {
    !row.deleted && row.stack == stack && row.data.stack == stack
  }

  ghost predicate Agrees(row: Row) {
    row.nativeId == row.data.nativeId && row.typ == row.data.typ && row.stack == row.data.stack
  }

  // ----- One call, exactly -----

  /** A row written at a version no older than the others of its resource becomes the one shown; other resources are
      not affected. */
  lemma {:induction false} WriteShows(t: Table, c: Call, v: nat)
    requires forall key | key in t && key.ksuid == c.ksuid :: key.version <= v
    ensures Newest(t[Key(c.ksuid, v) := NewRow(c)], Key(c.ksuid, v))
    ensures c.delete ==> !Live(t[Key(c.ksuid, v) := NewRow(c)], c.ksuid)
    ensures !c.delete ==> ShowsAlike(t[Key(c.ksuid, v) := NewRow(c)], c.ksuid, c.resource)
  {
    var w := t[Key(c.ksuid, v) := NewRow(c)];
    assert Newest(w, Key(c.ksuid, v));
    forall key | Newest(w, key) && key.ksuid == c.ksuid ensures key == Key(c.ksuid, v) {
      NewestUnique(w, key, Key(c.ksuid, v));
    }
  }

  /** A row written below a newer one of its resource changes nothing that is shown. */
  lemma {:induction false} OldWriteIsHidden(t: Table, key: Key, row: Row, newer: Key, k: Ksuid)
    requires newer in t && newer.ksuid == key.ksuid && key.version < newer.version
    ensures forall r :: ShowsAlike(t[key := row], k, r) <==> ShowsAlike(t, k, r)
    ensures Live(t[key := row], k) <==> Live(t, k)
  {
    var w := t[key := row];
    assert !Newest(w, key) && !Newest(t, key);
    forall other | other != key ensures Newest(w, other) <==> Newest(t, other) {
      if Newest(t, other) && other.ksuid == key.ksuid {
        assert newer.version <= other.version;
      }
    }
  }

  lemma {:induction false} WriteFrame(t: Table, key: Key, row: Row, k: Ksuid)
    requires key.ksuid != k
    ensures forall r :: ShowsAlike(t[key := row], k, r) <==> ShowsAlike(t, k, r)
    ensures Live(t[key := row], k) <==> Live(t, k)
  {
    var w := t[key := row];
    assert forall other: Key | other.ksuid == k :: Newest(w, other) <==> Newest(t, other);
    assert forall other: Key | other.ksuid == k && other in t :: w[other] == t[other];
  }

  /** When a call leaves the inventory as it should be: unless it is compared with a row of equal read-write part,
      always; otherwise a store that differs in read-only fields needs that row's version to be as new as any of its
      resource, and one that does not differ needs its content to be shown already. */
  ghost predicate Fits(t: Table, c: Call, found: Option<Key>)
    requires IsMatch(t, c.resource, found)
  {
    found.None? || !ReadWriteEqual(c.resource, t[found.value].data) ||
    if c.delete then
      !Live(t, c.ksuid) || ReadOnlyEqual(c.resource, t[found.value].data) || UpToDate(t, c.ksuid, found.value.version)
    else if ReadOnlyEqual(c.resource, t[found.value].data) then ShowsAlike(t, c.ksuid, c.resource)
    else UpToDate(t, c.ksuid, found.value.version)
  }

  ghost predicate UpToDate(t: Table, k: Ksuid, v: nat) { forall key | key in t && key.ksuid == k :: key.version <= v }

  /** The inventory shows a resource up to the fields that no comparison looks at. */
  ghost predicate ShowsAlike(t: Table, k: Ksuid, r: Resource) {
    exists key | Newest(t, key) ::
      && key.ksuid == k && !t[key].deleted
      && t[key].data.nativeId == r.nativeId && t[key].data.stack == r.stack && t[key].data.typ == r.typ
      && t[key].data.name == r.name && t[key].data.properties == r.properties && t[key].data.readOnly == r.readOnly
  }

  /** The inventory shows what the call asked for: its resource, or nothing after a delete. */
  ghost predicate Done(t: Table, c: Call) {
    if c.delete then !Live(t, c.ksuid) else ShowsAlike(t, c.ksuid, c.resource)
  }

  lemma {:induction false} NotShown(t: Table, k: Ksuid)
    ensures !Known(t, k) ==> !Live(t, k)
    ensures Deleted(t, k) ==> !Live(t, k)
    ensures Known(t, k) && !Deleted(t, k) ==> Live(t, k)
  {
    if Known(t, k) {
      KnownHasNewest(t, k);
    }
    if Deleted(t, k) {
      var d :| Newest(t, d) && d.ksuid == k && t[d].deleted;
      forall key | Newest(t, key) && key.ksuid == k ensures key == d {
        NewestUnique(t, key, d);
      }
    }
  }

  lemma {:induction false} WriteExact(t: Table, c: Call, version: nat)
    requires Done(t, c) ==> UpToDate(t, c.ksuid, version)
    ensures Done(t[Key(c.ksuid, version) := NewRow(c)], c) <==> UpToDate(t, c.ksuid, version)
  {
    var w := t[Key(c.ksuid, version) := NewRow(c)];
    if UpToDate(t, c.ksuid, version) {
      WriteShows(t, c, version);
    } else {
      var newer :| newer in t && newer.ksuid == c.ksuid && newer.version > version;
      OldWriteIsHidden(t, Key(c.ksuid, version), NewRow(c), newer, c.ksuid);
    }
  }

  lemma {:induction false} ShownIsMatched(t: Table, c: Call, m: Key)
    requires Sound(t) && IsMatch(t, c.resource, Some(m)) && ShowsAlike(t, c.ksuid, c.resource)
    ensures UpToDate(t, c.ksuid, m.version)
  {
    var key :| Newest(t, key) && key.ksuid == c.ksuid && !t[key].deleted && ReadWriteEqual(t[key].data, c.resource);
    assert Matches(t[key], c.resource);
  }

  /** A call on managed rows has its effect exactly when it fits. */
  lemma {:induction false} CallExact(t: Table, c: Call, found: Option<Key>, v: nat)
    requires Sound(t) && IsMatch(t, c.resource, found) && FreshVersion(t, v)
    ensures Done(Outcome(t, c, found, v).0, c) <==> Fits(t, c, found)
  {
    hide Live, Deleted, ShowsAlike, Sound, UpToDate, Newest, Known, NewRow;
    NotShown(t, c.ksuid);
    FreshIsUpToDate(t, c.ksuid, v);
    WriteDone(t, c, v);
    if found.Some? {
      NotCleaned(t, found.value);
      if !c.delete && ShowsAlike(t, c.ksuid, c.resource) {
        ShownIsMatched(t, c, found.value);
      }
      if c.delete ==> Live(t, c.ksuid) {
        WriteExact(t, c, found.value.version);
      }
    }
  }

  lemma {:induction false} NotCleaned(t: Table, m: Key)
    requires Sound(t) && m in t
    ensures t[m].managed
  {
  }

  lemma {:induction false} FreshIsUpToDate(t: Table, k: Ksuid, v: nat)
    requires FreshVersion(t, v)
    ensures UpToDate(t, k, v)
  {
  }

  lemma {:induction false} WriteDone(t: Table, c: Call, v: nat)
    requires UpToDate(t, c.ksuid, v)
    ensures Done(t[Key(c.ksuid, v) := NewRow(c)], c)
  {
    WriteShows(t, c, v);
  }

  /** Other resources are shown as before. */
  lemma {:induction false} CallFrame(t: Table, c: Call, found: Option<Key>, v: nat, k: Ksuid)
    requires Sound(t) && IsMatch(t, c.resource, found) && k != c.ksuid
    ensures forall r :: ShowsAlike(Outcome(t, c, found, v).0, k, r) <==> ShowsAlike(t, k, r)
    ensures Live(Outcome(t, c, found, v).0, k) <==> Live(t, k)
  {
    hide Live, Deleted, ShowsAlike, Sound, Newest, Known, NewRow;
    WriteFrame(t, Key(c.ksuid, v), NewRow(c), k);
    if found.Some? {
      NotCleaned(t, found.value);
      WriteFrame(t, Key(c.ksuid, found.value.version), NewRow(c), k);
    }
  }

  lemma {:induction false} CallKeepsSound(t: Table, c: Call, found: Option<Key>, v: nat)
    requires Sound(t) && IsMatch(t, c.resource, found) && c.managed
    ensures Sound(Outcome(t, c, found, v).0)
  {
    hide Deleted, Known;
  }

  // ----- Calls that always fit -----

  /** A managed resource with a type, whose native ID is new for that type or is the one its newest row has, and belongs
      to no other resource of the type. */
  ghost predicate Admissible(t: Table, c: Call) {
    && c.managed && c.resource.typ != ""
    && (|| (forall key | key in t :: t[key].nativeId != c.resource.nativeId || t[key].typ != c.resource.typ)
        || ((forall key | key in t && t[key].nativeId == c.resource.nativeId && t[key].typ == c.resource.typ ::
               key.ksuid == c.ksuid) &&
            (exists key | key in t && key.ksuid == c.ksuid ::
               && (forall other | other in t && other.ksuid == c.ksuid :: other.version <= key.version)
               && t[key].nativeId == c.resource.nativeId && t[key].typ == c.resource.typ)))
  }

  /** Delete rows hold no resource. */
  ghost predicate BlankDeletes(t: Table) { forall key | key in t && t[key].deleted :: t[key].data == blankResource }

  /** An admissible call is compared with the newest row of its own resource. */
  lemma {:induction false} MatchIsNewest(t: Table, c: Call, m: Key)
    requires Admissible(t, c) && IsMatch(t, c.resource, Some(m))
    ensures m.ksuid == c.ksuid && Newest(t, m) && UpToDate(t, c.ksuid, m.version)
  {
    assert t[m].nativeId == c.resource.nativeId && t[m].typ == c.resource.typ;
    assert m.ksuid == c.ksuid;
    var key :| key in t && key.ksuid == c.ksuid && Newest(t, key) && Matches(t[key], c.resource);
    assert m in t && m.ksuid == key.ksuid && Newest(t, key);
    assert key.version == m.version;
  }

  lemma {:induction false} AdmissibleFits(t: Table, c: Call, found: Option<Key>)
    requires Sound(t) && BlankDeletes(t) && Admissible(t, c) && IsMatch(t, c.resource, found)
    ensures Fits(t, c, found)
  {
    if found.Some? {
      MatchIsNewest(t, c, found.value);
    }
  }

  lemma {:induction false} CallKeepsBlankDeletes(t: Table, c: Call, found: Option<Key>, v: nat)
    requires BlankDeletes(t) && IsMatch(t, c.resource, found)
    ensures BlankDeletes(Outcome(t, c, found, v).0)
  {
    hide Deleted, Known;
  }

  /** The newest row of the resource agrees with the call in everything but read-only properties. */
  ghost predicate SameReadWrite(t: Table, c: Call) {
    exists key | key in t && key.ksuid == c.ksuid ::
      && (forall other | other in t && other.ksuid == c.ksuid :: other.version <= key.version)
      && t[key].data.nativeId == c.resource.nativeId && t[key].data.stack == c.resource.stack
      && t[key].data.typ == c.resource.typ && t[key].data.name == c.resource.name
      && t[key].data.properties == c.resource.properties
  }

  lemma {:induction false} MatchesByContent(t: Table, c: Call, key: Key)
    requires Sound(t) && BlankDeletes(t) && key in t && c.resource.typ != ""
    ensures ReadWriteEqual(c.resource, t[key].data) ==> !t[key].deleted && Matches(t[key], c.resource)
  {
    assert t[key].deleted ==> t[key].data == blankResource;
  }

  lemma {:induction false} SameAsMatch(t: Table, c: Call, found: Option<Key>)
    requires Sound(t) && BlankDeletes(t) && Admissible(t, c) && IsMatch(t, c.resource, found)
    ensures SameReadWrite(t, c) <==> found.Some? && ReadWriteEqual(c.resource, t[found.value].data)
  {
    if found.Some? {
      MatchIsNewest(t, c, found.value);
    }
    if SameReadWrite(t, c) {
      var key :| key in t && key.ksuid == c.ksuid && Newest(t, key) && ReadWriteEqual(c.resource, t[key].data);
      MatchesByContent(t, c, key);
      if found.Some? {
        NewestUnique(t, key, found.value);
      }
    }
  }

  lemma {:induction false} WrittenIsNewest(t: Table, c: Call, v: nat)
    requires UpToDate(t, c.ksuid, v)
    ensures var w := t[Key(c.ksuid, v) := NewRow(c)];
            forall key | key in w && key.ksuid == c.ksuid :: key.version <= v
  {
  }

  /** Deleting what is not shown, but matched by some row, changes nothing. */
  lemma {:induction false} IdleDelete(t: Table, c: Call, m: Key, v: nat)
    requires IsMatch(t, c.resource, Some(m)) && c.delete
    requires forall key | key in t && key.ksuid == c.ksuid && !t[key].deleted ::
               exists other | other in t && other.ksuid == c.ksuid :: other.version > key.version
    ensures Outcome(t, c, Some(m), v).0 == t
  {
    NotShown(t, c.ksuid);
  }

  /** An admissible store adds a version exactly when its read-write part is new; a change of read-only fields alone
      overwrites the newest version. The reported version is the newest of its resource, and it holds the resource
      as it was given unless that was shown already, in which case nothing is written. */
  lemma {:induction false} VersionsAdded(t: Table, c: Call, found: Option<Key>, v: nat)
    requires Sound(t) && BlankDeletes(t) && Admissible(t, c) && IsMatch(t, c.resource, found) && FreshVersion(t, v)
    requires !c.delete
    ensures var (after, id) := Outcome(t, c, found, v);
            && (after.Keys == if SameReadWrite(t, c) then t.Keys else t.Keys + {Key(c.ksuid, v)})
            && id.Some? && id.value.ksuid == c.ksuid && id.value in after && !after[id.value].deleted
            && (forall key | key in after && key.ksuid == c.ksuid :: key.version <= id.value.version)
            && (after[id.value].data == c.resource ||
                (after == t && ShowsAlike(t, c.ksuid, c.resource) && id.value in t))
  {
    SameAsMatch(t, c, found);
    assert c.resource.typ != "";
    hide Deleted, Known, SameReadWrite, Admissible, Sound, BlankDeletes;
    FreshIsUpToDate(t, c.ksuid, v);
    WrittenIsNewest(t, c, v);
    if found.Some? {
      NotCleaned(t, found.value);
      MatchIsNewest(t, c, found.value);
      WrittenIsNewest(t, c, found.value.version);
      MatchesByContent(t, c, found.value);
    }
  }

  /** What the inventory shows after a call that took effect, row by row. */
  lemma {:induction false} DoneShows(t: Table, c: Call)
    requires Done(t, c)
    ensures !c.delete ==>
              exists key | key in t && key.ksuid == c.ksuid ::
                && (forall other | other in t && other.ksuid == c.ksuid :: other.version <= key.version)
                && !t[key].deleted
                && t[key].data.nativeId == c.resource.nativeId && t[key].data.stack == c.resource.stack
                && t[key].data.typ == c.resource.typ && t[key].data.name == c.resource.name
                && t[key].data.properties == c.resource.properties && t[key].data.readOnly == c.resource.readOnly
    ensures c.delete ==>
              forall key | key in t && key.ksuid == c.ksuid && !t[key].deleted ::
                exists other | other in t && other.ksuid == c.ksuid :: other.version > key.version
  {
    if !c.delete {
      ShownFields(t, c.ksuid, c.resource);
    } else {
      NotLiveRows(t, c.ksuid);
    }
  }

  lemma {:induction false} ShownFields(t: Table, k: Ksuid, r: Resource)
    requires ShowsAlike(t, k, r)
    ensures exists key | key in t && key.ksuid == k ::
              && (forall other | other in t && other.ksuid == k :: other.version <= key.version)
              && !t[key].deleted
              && t[key].data.nativeId == r.nativeId && t[key].data.stack == r.stack && t[key].data.typ == r.typ
              && t[key].data.name == r.name && t[key].data.properties == r.properties
              && t[key].data.readOnly == r.readOnly
  {
  }

  lemma {:induction false} NotLiveRows(t: Table, k: Ksuid)
    requires !Live(t, k)
    ensures forall key | key in t && key.ksuid == k && !t[key].deleted ::
              exists other | other in t && other.ksuid == k :: other.version > key.version
  {
    forall key | key in t && key.ksuid == k && !t[key].deleted
      ensures exists other | other in t && other.ksuid == k :: other.version > key.version
    {
      assert !Newest(t, key);
    }
  }

  /** The rows of other resources stay. */
  lemma {:induction false} OthersKept(t: Table, c: Call, found: Option<Key>, v: nat)
    requires Sound(t) && IsMatch(t, c.resource, found)
    ensures forall key: Key | key.ksuid != c.ksuid ::
              && (key in Outcome(t, c, found, v).0 <==> key in t)
              && (key in t ==> Outcome(t, c, found, v).0[key] == t[key])
  {
    hide Deleted, Known;
  }

  // ----- Whole runs -----

  ghost predicate CallStep(t: Table, c: Call, after: Table) {
    exists found, v | IsMatch(t, c.resource, found) && FreshVersion(t, v) :: after == Outcome(t, c, found, v).0
  }

  ghost predicate IsRun(calls: seq<Call>, tables: seq<Table>) {
    |tables| == |calls| + 1 && tables[0] == map[] &&
    forall i | 0 <= i < |calls| :: Admissible(tables[i], calls[i]) && CallStep(tables[i], calls[i], tables[i + 1])
  }

  /** The simple map that the table stands for: what was last stored and not deleted since. */
  function Inventory(calls: seq<Call>): map<Ksuid, Resource> {
    if calls == [] then map[]
    else
      var before, c := Inventory(calls[..|calls| - 1]), calls[|calls| - 1];
      if c.delete then before - {c.ksuid} else before[c.ksuid := c.resource]
  }

  /** The table shows exactly the resources of the map, up to the compared fields. */
  ghost predicate Represents(t: Table, inventory: map<Ksuid, Resource>) {
    forall k: Ksuid ::
      (k in inventory ==> ShowsAlike(t, k, inventory[k])) && (k !in inventory ==> !Live(t, k))
  }

  lemma {:induction false} StepRepresents(t: Table, c: Call, after: Table, inventory: map<Ksuid, Resource>)
    requires Sound(t) && BlankDeletes(t) && Represents(t, inventory) && Admissible(t, c) && CallStep(t, c, after)
    ensures Sound(after) && BlankDeletes(after)
    ensures Represents(after, if c.delete then inventory - {c.ksuid} else inventory[c.ksuid := c.resource])
  {
    hide Outcome, Fits, Sound, BlankDeletes, Live, ShowsAlike, IsMatch;
    var found, v :| IsMatch(t, c.resource, found) && FreshVersion(t, v) && after == Outcome(t, c, found, v).0;
    CallKeepsSound(t, c, found, v);
    CallKeepsBlankDeletes(t, c, found, v);
    AdmissibleFits(t, c, found);
    CallExact(t, c, found, v);
    forall k: Ksuid | k != c.ksuid
      ensures k in inventory ==> ShowsAlike(after, k, inventory[k])
      ensures k !in inventory ==> !Live(after, k)
    {
      CallFrame(t, c, found, v, k);
    }
  }

  /** After any run of admissible stores and deletes, the inventory read off the table is the simple map. */
  lemma {:induction false} TableRefinesMap(calls: seq<Call>, tables: seq<Table>)
    requires IsRun(calls, tables)
    ensures Sound(tables[|calls|]) && BlankDeletes(tables[|calls|])
    ensures Represents(tables[|calls|], Inventory(calls))
    ensures var t := tables[|calls|];
            forall k | k in Inventory(calls) ::
              exists key | key in t && key.ksuid == k ::
                && (forall other | other in t && other.ksuid == k :: other.version <= key.version)
                && !t[key].deleted
                && t[key].data.nativeId == Inventory(calls)[k].nativeId
                && t[key].data.stack == Inventory(calls)[k].stack
                && t[key].data.typ == Inventory(calls)[k].typ && t[key].data.name == Inventory(calls)[k].name
                && t[key].data.properties == Inventory(calls)[k].properties
                && t[key].data.readOnly == Inventory(calls)[k].readOnly
    ensures var t := tables[|calls|];
            forall key | key in t && key.ksuid !in Inventory(calls) && !t[key].deleted ::
              exists other | other in t && other.ksuid == key.ksuid :: other.version > key.version
  {
    RunRepresents(calls, tables);
    hide Inventory, IsRun, ShowsAlike, Live;
    var t := tables[|calls|];
    forall k | k in Inventory(calls) ensures ShowsAlike(t, k, Inventory(calls)[k]) {
    }
    forall k | k in Inventory(calls)
      ensures exists key | key in t && key.ksuid == k ::
                && (forall other | other in t && other.ksuid == k :: other.version <= key.version)
                && !t[key].deleted
                && t[key].data.nativeId == Inventory(calls)[k].nativeId
                && t[key].data.stack == Inventory(calls)[k].stack
                && t[key].data.typ == Inventory(calls)[k].typ && t[key].data.name == Inventory(calls)[k].name
                && t[key].data.properties == Inventory(calls)[k].properties
                && t[key].data.readOnly == Inventory(calls)[k].readOnly
    {
      ShownFields(t, k, Inventory(calls)[k]);
    }
    forall key | key in t && key.ksuid !in Inventory(calls) && !t[key].deleted
      ensures exists other | other in t && other.ksuid == key.ksuid :: other.version > key.version
    {
      NotLiveRows(t, key.ksuid);
    }
  }

  lemma {:induction false} RunRepresents(calls: seq<Call>, tables: seq<Table>)
    requires IsRun(calls, tables)
    ensures Sound(tables[|calls|]) && BlankDeletes(tables[|calls|])
    ensures Represents(tables[|calls|], Inventory(calls))
  {
    if calls != [] {
      var n := |calls| - 1;
      assert calls[..n] + [calls[n]] == calls;
      RunRepresents(calls[..n], tables[..n + 1]);
      StepRepresents(tables[n], calls[n], tables[n + 1], Inventory(calls[..n]));
    }
  }

  // ----- Going back to an earlier native ID -----

  /** Why the native ID must be new or current: storing one version, a second with another native ID, and the first
      again leaves the second in the inventory. */
  lemma {:induction false} StaleNativeIdIsLost(k: Ksuid, a: Resource, b: Resource, v: nat, w: nat)
    requires v < w && a.nativeId != b.nativeId
    ensures var once := map[Key(k, v) := NewRow(Call(k, a, true, false))];
            var twice := once[Key(k, w) := NewRow(Call(k, b, true, false))];
            && CallStep(map[], Call(k, a, true, false), once)
            && CallStep(once, Call(k, b, true, false), twice)
            && (forall after :: CallStep(twice, Call(k, a, true, false), after) ==> after == twice)
            && !ShowsAlike(twice, k, a)
  {
    var ca, cb := Call(k, a, true, false), Call(k, b, true, false);
    var empty: Table := map[];
    var once: Table := map[Key(k, v) := NewRow(ca)];
    var twice := once[Key(k, w) := NewRow(cb)];
    assert IsMatch(empty, a, None) && FreshVersion(empty, v) && once == Outcome(empty, ca, None, v).0;
    assert !Matches(once[Key(k, v)], b);
    assert IsMatch(once, b, None) && FreshVersion(once, w) && twice == Outcome(once, cb, None, w).0;
    assert Newest(twice, Key(k, w));
    forall after | CallStep(twice, ca, after) ensures after == twice {
      var found, x :| IsMatch(twice, a, found) && FreshVersion(twice, x) && after == Outcome(twice, ca, found, x).0;
      assert Matches(twice[Key(k, v)], a);
      assert found == Some(Key(k, v));
    }
    forall key | Newest(twice, key) && key.ksuid == k ensures key == Key(k, w) {
      NewestUnique(twice, key, Key(k, w));
    }
  }

  // ----- The datastore -----

  class Datastore {
    var rows: Table

    constructor ()
      ensures rows == map[]
    {
      rows := map[];
    }

    /** Stores or deletes, with a version newer than any in the table at hand. */
    method StoreResource(c: Call, newVersion: nat) returns (id: Option<Key>)
      requires FreshVersion(rows, newVersion)
      modifies this
      ensures exists found | IsMatch(old(rows), c.resource, found) :: (rows, id) == Outcome(old(rows), c, found,
                newVersion)
      ensures CallStep(old(rows), c, rows)
      ensures Sound(old(rows)) && BlankDeletes(old(rows)) && Admissible(old(rows), c) ==> Done(rows, c)
      ensures Sound(old(rows)) && BlankDeletes(old(rows)) && Admissible(old(rows), c) && !c.delete ==>
                exists key | key in rows && key.ksuid == c.ksuid ::
                  && (forall other | other in rows && other.ksuid == c.ksuid :: other.version <= key.version)
                  && !rows[key].deleted
                  && rows[key].data.nativeId == c.resource.nativeId && rows[key].data.stack == c.resource.stack
                  && rows[key].data.typ == c.resource.typ && rows[key].data.name == c.resource.name
                  && rows[key].data.properties == c.resource.properties
                  && rows[key].data.readOnly == c.resource.readOnly
      ensures Sound(old(rows)) && BlankDeletes(old(rows)) && Admissible(old(rows), c) && c.delete ==>
                forall key | key in rows && key.ksuid == c.ksuid && !rows[key].deleted ::
                  exists other | other in rows && other.ksuid == c.ksuid :: other.version > key.version
      ensures Sound(old(rows)) ==>
                forall key: Key | key.ksuid != c.ksuid ::
                  && (key in rows <==> key in old(rows))
                  && (key in rows ==> rows[key] == old(rows)[key])
    {
      ghost var before := rows;
      var found := FindMatch(c.resource);
      ghost var outcome := Outcome(rows, c, found, newVersion);
      if Sound(rows) && BlankDeletes(rows) && Admissible(rows, c) {
        AdmissibleFits(rows, c, found);
        CallExact(rows, c, found, newVersion);
        DoneShows(outcome.0, c);
      }
      if Sound(rows) {
        OthersKept(rows, c, found, newVersion);
      }
      hide Sound, BlankDeletes, Admissible, Done, Newest, Live, ShowsAlike;
      if found.None? {
        rows := rows[Key(c.ksuid, newVersion) := NewRow(c)];
        return Some(Key(c.ksuid, newVersion));
      }
      var m := found.value;
      var existing := rows[m];
      if !existing.managed && !c.delete {
        rows := WithoutKsuid(rows, m.ksuid);
      }
      var readWriteEqual, readOnlyEqual := ReadWriteEqual(c.resource, existing.data), ReadOnlyEqual(c.resource,
          existing.data);
      if c.delete {
        var latest := FindNewest(c.ksuid);
        if latest.None? {
          return None;
        }
        if rows[latest.value].deleted {
          return Some(Key(c.ksuid, m.version));
        }
      } else if readWriteEqual && readOnlyEqual {
        return Some(Key(c.ksuid, m.version));
      }
      var version := if readWriteEqual && !readOnlyEqual then m.version else newVersion;
      rows := rows[Key(c.ksuid, version) := NewRow(c)];
      return Some(Key(m.ksuid, version));
    }

    method FindMatch(r: Resource) returns (found: Option<Key>)
      ensures IsMatch(rows, r, found)
    {
      found := None;
      var rest := rows.Keys;
      while rest != {}
        invariant rest <= rows.Keys
        invariant found.None? ==> forall key | key in rows && key !in rest :: !Matches(rows[key], r)
        invariant found.Some? ==> found.value in rows && Matches(rows[found.value], r)
        invariant found.Some? ==>
            forall key | key in rows && key !in rest && Matches(rows[key], r) :: key.version <= found.value.version
        decreases rest
      {
        var key :| key in rest;
        rest := rest - {key};
        if Matches(rows[key], r) && (found.None? || found.value.version < key.version) {
          found := Some(key);
        }
      }
    }

    method FindNewest(k: Ksuid) returns (found: Option<Key>)
      ensures found.None? <==> !Known(rows, k)
      ensures found.Some? ==> Newest(rows, found.value) && found.value.ksuid == k
      ensures found.Some? ==> (rows[found.value].deleted <==> Deleted(rows, k))
    {
      if exists key | key in rows :: key.ksuid == k {
        KnownHasNewest(rows, k);
        var m :| m in rows && Newest(rows, m) && m.ksuid == k;
        forall key | Newest(rows, key) && key.ksuid == k ensures key == m {
          NewestUnique(rows, key, m);
        }
        return Some(m);
      }
      return None;
    }

    /** Lists what the inventory shows, each resource once. */
    method LoadAllResources() returns (out: seq<(Ksuid, Resource)>)
      ensures forall key | Newest(rows, key) && !rows[key].deleted :: (key.ksuid, rows[key].data) in out
      ensures forall e | e in out :: exists key | Newest(rows, key) :: !rows[key].deleted && e == (key.ksuid,
                rows[key].data)
      ensures forall i, j | 0 <= i < j < |out| :: out[i].0 != out[j].0
    {
      out := [];
      var rest := rows.Keys;
      while rest != {}
        invariant rest <= rows.Keys
        invariant forall key | Newest(rows, key) && key !in rest && !rows[key].deleted ::
                  (key.ksuid, rows[key].data) in out
        invariant forall e | e in out :: exists key | Newest(rows, key) && key !in rest ::
            !rows[key].deleted && e == (key.ksuid, rows[key].data)
        invariant forall i, j | 0 <= i < j < |out| :: out[i].0 != out[j].0
        decreases rest
      {
        var key :| key in rest;
        rest := rest - {key};
        if Newest(rows, key) && !rows[key].deleted {
          forall e | e in out ensures e.0 != key.ksuid {
            var other :| Newest(rows, other) && other !in rest && other != key && e == (other.ksuid, rows[other].data);
            if other.ksuid == key.ksuid {
              NewestUnique(rows, other, key);
            }
          }
          out := out + [(key.ksuid, rows[key].data)];
        }
      }
    }

    /** Lists what the inventory shows of a stack, by the column and by the resource in it; nothing is reported for a
        stack without resources. In a sound table the two agree. */
    method LoadStack(stack: string) returns (out: Option<seq<(Ksuid, Resource)>>)
      ensures out.None? <==> forall key | Newest(rows, key) :: !IsOfStack(rows[key], stack)
      ensures out.Some? ==> forall k, r :: (k, r) in out.value <==>
                exists key | Newest(rows, key) :: IsOfStack(rows[key], stack) && (k, r) == (key.ksuid, rows[key].data)
      ensures Sound(rows) ==>
                forall key | Newest(rows, key) && !rows[key].deleted ::
                  IsOfStack(rows[key], stack) <==> rows[key].data.stack == stack
    {
      var resources := [];
      var rest := rows.Keys;
      while rest != {}
        invariant rest <= rows.Keys
        invariant forall key | Newest(rows, key) && key !in rest && IsOfStack(rows[key], stack) ::
            (key.ksuid, rows[key].data) in resources
        invariant forall e | e in resources :: exists key | Newest(rows, key) ::
            IsOfStack(rows[key], stack) && e == (key.ksuid, rows[key].data)
        decreases rest
      {
        var key :| key in rest;
        rest := rest - {key};
        if Newest(rows, key) && !rows[key].deleted && rows[key].stack == stack && rows[key].data.stack == stack {
          resources := resources + [(key.ksuid, rows[key].data)];
        }
      }
      if resources == [] {
        return None;
      }
      assert resources[0] in resources;
      return Some(resources);
    }
  }
}

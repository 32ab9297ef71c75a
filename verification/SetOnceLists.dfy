/** Lists of SetOnce values and empty objects: when re-applying one is seen as a change
    (internal/metastructure/resource_update/resource_comparison.go). Normalisation drops the empty objects from the
    stored list, but filtering goes by position. */
module SetOnceLists {
  import opened Common
  import opened Json
  import opened Persistence
  import opened ResourceComparison

  /** An element: a SetOnce value, or an empty object. */
  type Entry = Option<string>

  function SetOnceOf(s: string): Json { Obj(map["$strategy" := Str("SetOnce"), "$value" := Str(s)]) }

  function ItemOf(e: Entry): Json { match e case Some(s) => SetOnceOf(s) case None => Obj(map[]) }

  function ItemsOf(es: seq<Entry>): seq<Json> { seq(|es|, i requires 0 <= i < |es| => ItemOf(es[i])) }

  function ValuesOf(ss: seq<string>): seq<Json> { seq(|ss|, i requires 0 <= i < |ss| => SetOnceOf(ss[i])) }

  /** The values that are stored. */
  function Kept(es: seq<Entry>): seq<string> {
    if es == [] then []
    else Kept(es[..|es| - 1]) + (match es[|es| - 1] case Some(s) => [s] case None => [])
  }

  /** The position of an element in the stored list. */
  function Rank(es: seq<Entry>, i: nat): nat
    requires i <= |es|
  {
    |Kept(es[..i])|
  }

  /** Each value takes the stored value at its own position, if there is one. */
  function Refilled(es: seq<Entry>, stored: seq<string>): (r: seq<Entry>)
    ensures |r| == |es|
  {
    seq(|es|, i requires 0 <= i < |es| => if es[i].Some? && i < |stored| then Some(stored[i]) else es[i])
  }

  /** A value whose position in the stored list is another's. */
  ghost predicate IsShifted(es: seq<Entry>, i: nat) {
    i < |es| && es[i].Some? && Rank(es, i) < i < |Kept(es)|
  }

  // ----- Positions -----

  lemma {:induction false} RankNext(es: seq<Entry>, i: nat)
    requires i < |es|
    ensures Rank(es, i + 1) == Rank(es, i) + if es[i].Some? then 1 else 0
  {
    assert es[..i + 1][..i] == es[..i];
  }

  lemma {:induction false} RankGrows(es: seq<Entry>, i: nat, j: nat)
    requires i <= j <= |es|
    ensures Rank(es, i) <= Rank(es, j) <= Rank(es, i) + j - i
    ensures i < j && es[i].Some? ==> Rank(es, i) < Rank(es, j)
    decreases j
  {
    if i < j {
      RankGrows(es, i, j - 1);
      RankNext(es, j - 1);
    }
  }

  lemma {:induction false} KeptAt(es: seq<Entry>, i: nat)
    requires i < |es| && es[i].Some?
    ensures Rank(es, i) < |Kept(es)| && Kept(es)[Rank(es, i)] == es[i].value
    decreases |es|
  {
    var n := |es| - 1;
    if i < n {
      KeptAt(es[..n], i);
      assert es[..n][..i] == es[..i];
    }
  }

  /** With everything kept before it, an element's position is its own; otherwise something was dropped. */
  lemma {:induction false} FirstDropped(es: seq<Entry>, i: nat) returns (d: nat)
    requires i <= |es| && Rank(es, i) < i
    ensures d < i && es[d].None? && Rank(es, d) == d
    decreases i
  {
    RankNext(es, i - 1);
    RankGrows(es, 0, i - 1);
    assert es[..0] == [];
    if Rank(es, i - 1) < i - 1 {
      d := FirstDropped(es, i - 1);
    } else {
      d := i - 1;
    }
  }

  lemma {:induction false} KeptMember(es: seq<Entry>, s: string)
    ensures s in Kept(es) <==> exists i | 0 <= i < |es| :: es[i] == Some(s)
  {
    if es != [] {
      var n := |es| - 1;
      KeptMember(es[..n], s);
      assert es == es[..n] + [es[n]];
      assert forall i | 0 <= i < n :: es[..n][i] == es[i];
    }
  }

  // ----- What refilling does -----

  lemma {:induction false} NothingShifted(es: seq<Entry>)
    requires forall i | 0 <= i < |es| :: !IsShifted(es, i)
    ensures Refilled(es, Kept(es)) == es
  {
    forall i | 0 <= i < |es| ensures Refilled(es, Kept(es))[i] == es[i] {
      if es[i].Some? && i < |Kept(es)| {
        RankGrows(es, 0, i);
        assert es[..0] == [];
        assert !IsShifted(es, i);
        KeptAt(es, i);
      }
    }
  }

  /** A shift loses the value that is stored where the first element was dropped. */
  lemma {:induction false} ShiftLoses(es: seq<Entry>, i: nat) returns (d: nat)
    requires NoDup(Kept(es)) && IsShifted(es, i)
    ensures d < |Kept(es)| && Kept(es)[d] !in Kept(Refilled(es, Kept(es)))
  {
    var c := Kept(es);
    var r := Refilled(es, c);
    d := FirstDropped(es, i);
    RankGrows(es, d, i);
    KeptMember(r, c[d]);
    forall j | 0 <= j < |es| ensures r[j] != Some(c[d]) {
      if es[j].Some? && j >= |c| {
        KeptAt(es, j);
        RankGrows(es, i, j);
        assert Rank(es, j) > d;
      }
    }
  }

  lemma {:induction false} RefilledLength(es: seq<Entry>, stored: seq<string>)
    ensures |Kept(Refilled(es, stored))| == |Kept(es)|
  {
    SameShape(es, Refilled(es, stored));
  }

  lemma {:induction false} SameShape(a: seq<Entry>, b: seq<Entry>)
    requires |a| == |b| && forall i | 0 <= i < |a| :: a[i].Some? <==> b[i].Some?
    ensures |Kept(a)| == |Kept(b)|
  {
    if a != [] {
      SameShape(a[..|a| - 1], b[..|b| - 1]);
    }
  }

  // ----- The same on documents -----

  lemma {:induction false} ItemStored(h: Hasher, e: Entry)
    ensures HashItem(h, ItemOf(e)) == ItemOf(e)
    ensures NormItem(ItemOf(e)) == if e.Some? then Some(ItemOf(e)) else None
  {
    var f := ItemOf(e).fields;
    assert HashItem(h, Obj(f)).fields == f;
    NormObject(f);
    assert NormProps(f) == f;
    assert e.Some? ==> "$value" in f;
  }

  lemma {:induction false} NormItemsOf(h: Hasher, es: seq<Entry>)
    ensures NormItems(ItemsOf(es)) == ValuesOf(Kept(es))
  {
    hide ItemOf, NormItem, SetOnceOf;
    if es != [] {
      var n := |es| - 1;
      NormItemsOf(h, es[..n]);
      ItemStored(h, es[n]);
      ItemOfValue(es[n]);
      assert ItemsOf(es) == ItemsOf(es[..n]) + [ItemOf(es[n])];
      NormItemsSnoc(ItemsOf(es[..n]), ItemOf(es[n]));
    }
  }

  lemma {:induction false} ItemOfValue(e: Entry)
    ensures e.Some? ==> ItemOf(e) == SetOnceOf(e.value)
  {
  }

  lemma {:induction false} ListStored(h: Hasher, es: seq<Entry>)
    ensures HashField(h, Arr(ItemsOf(es))) == Arr(ItemsOf(es))
    ensures NormField(Arr(ItemsOf(es))) == if Kept(es) == [] then None else Some(Arr(ValuesOf(Kept(es))))
  {
    NormItemsOf(h, es);
    hide ItemOf, SetOnceOf, HashItem;
    forall i | 0 <= i < |es| ensures HashItem(h, ItemsOf(es)[i]) == ItemsOf(es)[i] {
      ItemStored(h, es[i]);
    }
    assert HashField(h, Arr(ItemsOf(es))).items == ItemsOf(es);
  }

  lemma {:induction false} ValuesHashed(h: Hasher, ss: seq<string>)
    ensures HashField(h, Arr(ValuesOf(ss))) == Arr(ValuesOf(ss))
  {
    hide SetOnceOf, HashItem;
    forall i | 0 <= i < |ss| ensures HashItem(h, ValuesOf(ss)[i]) == ValuesOf(ss)[i] {
      ItemStored(h, Some(ss[i]));
      ItemOfValue(Some(ss[i]));
    }
    assert HashField(h, Arr(ValuesOf(ss))).items == ValuesOf(ss);
  }

  function ValueOf(stored: Option<string>): Option<Json> {
    match stored case Some(s) => Some(SetOnceOf(s)) case None => None
  }

  lemma {:induction false} ItemFiltered(raw: Json -> string, onTagsPath: bool, e: Entry, stored: Option<string>)
    ensures FilterValue(raw, onTagsPath, ValueOf(stored), ItemOf(e)) ==
            ItemOf(if e.Some? && stored.Some? then stored else e)
  {
    if e.None? {
      assert FilterValue(raw, onTagsPath, ValueOf(stored), ItemOf(e)).fields == map[];
    } else if stored.None? {
      FilterAgainstNothing(raw, onTagsPath, ItemOf(e));
    } else {
      assert ShouldPreserve(ItemOf(e), Some(SetOnceOf(stored.value)));
    }
  }

  lemma {:induction false} NoTags(onTagsPath: bool, es: seq<Entry>)
    ensures !IsTagArray(onTagsPath, Arr(ItemsOf(es))) && !IsSetOnce(Arr(ItemsOf(es)))
  {
    if es != [] {
      assert ItemsOf(es)[0] == ItemOf(es[0]);
    }
  }

  lemma {:induction false} ListFiltered(raw: Json -> string, onTagsPath: bool, es: seq<Entry>, stored: seq<string>)
    ensures FilterValue(raw, onTagsPath, Some(Arr(ValuesOf(stored))), Arr(ItemsOf(es))) ==
            Arr(ItemsOf(Refilled(es, stored)))
  {
    var ex, v := Some(Arr(ValuesOf(stored))), Arr(ItemsOf(es));
    NoTags(onTagsPath, es);
    hide ItemOf, SetOnceOf, IsTagArray, IsSetOnce;
    var r := FilterValue(raw, onTagsPath, ex, v).items;
    forall i | 0 <= i < |es| ensures r[i] == ItemsOf(Refilled(es, stored))[i] {
      ItemFiltered(raw, onTagsPath, es[i], if i < |stored| then Some(stored[i]) else None);
    }
    assert r == ItemsOf(Refilled(es, stored));
  }

  // ----- When re-applying is seen as a change -----

  /** What is compared with the stored list, and would be applied: each value is replaced by the stored one at
      its position. */
  lemma {:induction false} ListCompared(h: Hasher, raw: Json -> string, k: string, es: seq<Entry>)
    ensures var p, c := map[k := Arr(ItemsOf(es))], Kept(es);
            if c == [] then NormProps(HashProps(h, p)) == map[] && Comparable(h, raw, HashProps(h, p), p) == map[]
            else
              && NormProps(HashProps(h, p)) == map[k := Arr(ValuesOf(c))]
              && Comparable(h, raw, HashProps(h, p), p) == map[k := Arr(ValuesOf(Kept(Refilled(es, c))))]
  {
    var p, c := map[k := Arr(ItemsOf(es))], Kept(es);
    var r := Refilled(es, c);
    ListStored(h, es);
    ListStored(h, r);
    RefilledLength(es, c);
    ValuesHashed(h, Kept(r));
    ListFiltered(raw, HasTags(k), es, c);
    FilterAgainstNothing(raw, HasTags(k), Arr(ItemsOf(es)));
    hide NormField, HashField, FilterValue, HasTags, ItemsOf, ValuesOf, Kept, Refilled;
    assert HashProps(h, p) == p;
    if c == [] {
      assert NormProps(p) == map[];
      assert FilterProps(raw, map[], p) == p;
    } else {
      var stored := map[k := Arr(ValuesOf(c))];
      assert NormProps(p) == stored;
      assert FilterProps(raw, stored, p) == map[k := Arr(ItemsOf(r))];
      assert NormProps(map[k := Arr(ItemsOf(r))]) == map[k := Arr(ValuesOf(Kept(r)))];
    }
  }

  lemma {:induction false} BagsDiffer(a: seq<string>, b: seq<string>, s: string)
    requires s in a && s !in b
    ensures ToBag(Arr(ValuesOf(a))) != ToBag(Arr(ValuesOf(b)))
  {
    var x := ToBag(SetOnceOf(s));
    SameArrays(ValuesOf(a), ValuesOf(b));
    SameArrays(ValuesOf(b), ValuesOf(a));
    var i :| 0 <= i < |a| && a[i] == s;
    assert ToBags(ValuesOf(a))[i] == x;
    forall j | 0 <= j < |b| ensures ToBags(ValuesOf(b))[j] != x {
      BagOfSetOnce(b[j], s);
    }
    hide ToBag, SetOnceOf, ToBags, ValuesOf;
    assert x in multiset(ToBags(ValuesOf(a))) && x !in multiset(ToBags(ValuesOf(b)));
  }

  lemma {:induction false} BagOfSetOnce(s: string, t: string)
    requires s != t
    ensures ToBag(SetOnceOf(s)) != ToBag(SetOnceOf(t))
  {
    assert ToBag(SetOnceOf(s)).fields["$value"] == BagScalar(Str(s));
    assert ToBag(SetOnceOf(t)).fields["$value"] == BagScalar(Str(t));
  }

  /** Re-applying a list of different SetOnce values and empty objects is seen as a change exactly when some value is
      shifted: an empty object is dropped before it, and the stored list still reaches its position. */
  lemma {:induction false} ListChangesExactly(h: Hasher, raw: Json -> string, k: string, es: seq<Entry>)
    requires NoDup(Kept(es))
    ensures var p := map[k := Arr(ItemsOf(es))];
            Changed(h, raw, HashProps(h, p), p) <==> exists i: nat :: IsShifted(es, i)
  {
    var c := Kept(es);
    ListCompared(h, raw, k, es);
    hide Comparable, ToBag, Kept, ItemsOf, ValuesOf, IsShifted;
    if i: nat :| IsShifted(es, i) {
      var d := ShiftLoses(es, i);
      BagsDiffer(c, Kept(Refilled(es, c)), c[d]);
      OneFieldDiffers(k, Arr(ValuesOf(c)), Arr(ValuesOf(Kept(Refilled(es, c)))));
    } else {
      NothingShifted(es);
    }
  }

  /** An empty object ahead of two values: the first takes the second's place, and would be overwritten with it.
      With one value, the stored list does not reach its position, and nothing happens. */
  lemma {:induction false} DroppedElementShifts(h: Hasher, raw: Json -> string, k: string, a: string, b: string)
    requires a != b
    ensures var p := map[k := Arr(ItemsOf([None, Some(a), Some(b)]))];
            Changed(h, raw, HashProps(h, p), p) &&
            Comparable(h, raw, HashProps(h, p), p) == map[k := Arr(ValuesOf([b, b]))]
    ensures var p := map[k := Arr(ItemsOf([None, Some(a)]))]; !Changed(h, raw, HashProps(h, p), p)
  {
    var two: seq<Entry>, one: seq<Entry> := [None, Some(a), Some(b)], [None, Some(a)];
    KeptOfTwo(a, b);
    ListCompared(h, raw, k, two);
    assert Refilled(two, [a, b]) == [None, Some(b), Some(b)];
    assert Rank(two, 1) == 0 by { assert two[..1] == [None]; }
    assert IsShifted(two, 1);
    ListChangesExactly(h, raw, k, two);
    assert forall i: nat :: !IsShifted(one, i);
    ListChangesExactly(h, raw, k, one);
  }

  lemma {:induction false} KeptOfTwo(a: string, b: string)
    ensures Kept([None]) == [] && Kept([None, Some(a)]) == [a] && Kept([None, Some(a), Some(b)]) == [a, b]
    ensures Kept([None, Some(b), Some(b)]) == [b, b]
  {
    var x, y, z: seq<Entry> := [None, Some(a)], [None, Some(a), Some(b)], [None, Some(b), Some(b)];
    assert x[..1] == [None] && y[..2] == x && z[..2] == [None, Some(b)];
    var w: seq<Entry> := [None, Some(b)];
    assert w[..1] == [None];
    var none: seq<Entry> := [None];
    assert none[..0] == [];
  }
}

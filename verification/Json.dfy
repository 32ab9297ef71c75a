/** JSON trees and the order-insensitive comparison of internal/metastructure/util/json.go. */
module Json {
  import opened Common

  datatype Json =
    | Null
    | Bool(b: bool)
    | Num(r: real)
    | Str(s: string)
    | Arr(items: seq<Json>)
    | Obj(fields: map<string, Json>)

  /** A JSON tree with every array read as a multiset, recursively. */
  datatype Bag =
    | BagScalar(j: Json)
    | BagArr(items: multiset<Bag>)
    | BagObj(fields: map<string, Bag>)

  ghost function ToBag(j: Json): Bag
    decreases j, 0
  {
    match j
    case Arr(items) => BagArr(multiset(ToBags(items)))
    case Obj(fields) => BagObj(map k | k in fields :: ToBag(fields[k]))
    case _ => BagScalar(j)
  }

  ghost function ToBags(items: seq<Json>): (bags: seq<Bag>)
    ensures |bags| == |items|
    ensures forall i | 0 <= i < |items| :: bags[i] == ToBag(items[i])
    decreases items, 1
  {
    seq(|items|, i requires 0 <= i < |items| => ToBag(items[i]))
  }

  /** Equality with every array read as a multiset, recursively: what the comparison below decides. */
  ghost predicate Same(a: Json, b: Json) { ToBag(a) == ToBag(b) }

  lemma {:induction false} SameArrays(a: seq<Json>, b: seq<Json>)
    ensures Same(Arr(a), Arr(b)) <==> multiset(ToBags(a)) == multiset(ToBags(b))
    ensures |ToBags(a)| == |a| && forall i | 0 <= i < |a| :: ToBags(a)[i] == ToBag(a[i])
  {
  }

  // ----- The same by recursion on the two trees -----

  /** The numbers below n in some order. */
  ghost predicate IsPermutation(p: seq<nat>, n: nat) {
    |p| == n && (forall i | 0 <= i < n :: p[i] < n) && forall i, j | 0 <= i < j < n :: p[i] != p[j]
  }

  /** Scalars are equal, objects agree key by key, and the elements of arrays are paired off in some order. */
  ghost predicate Alike(a: Json, b: Json)
    decreases a
  {
    match a
    case Obj(f) => b.Obj? && f.Keys == b.fields.Keys && forall k | k in f :: Alike(f[k], b.fields[k])
    case Arr(items) =>
      b.Arr? && |items| == |b.items| &&
      exists p | IsPermutation(p, |items|) :: forall i | 0 <= i < |items| :: Alike(items[i], b.items[p[i]])
    case _ => a == b
  }

  predicate ArrayFree(v: Json)
    decreases v
  {
    match v
    case Obj(f) => forall k | k in f :: ArrayFree(f[k])
    case Arr(_) => false
    case _ => true
  }

  /** A permutation without its last number. */
  ghost function Dropping(p: seq<nat>, j: nat): (q: seq<nat>)
    requires p != []
    ensures |q| == |p| - 1
  {
    seq(|p| - 1, i requires 0 <= i < |p| - 1 => if p[i] > j then p[i] - 1 else p[i])
  }

  lemma {:induction false} DroppingPermutes(p: seq<nat>, n: nat)
    requires n > 0 && IsPermutation(p, n)
    ensures IsPermutation(Dropping(p, p[n - 1]), n - 1)
  {
    var j, q := p[n - 1], Dropping(p, p[n - 1]);
    forall i | 0 <= i < n - 1 ensures q[i] < n - 1 {
      assert p[i] != j;
    }
    forall i, k | 0 <= i < k < n - 1 ensures q[i] != q[k] {
      assert p[i] != p[k] && p[i] != j && p[k] != j;
    }
  }

  /** The sequence without the element at a position. */
  ghost function TakenOut<T>(s: seq<T>, j: nat): (r: seq<T>)
    requires j < |s|
    ensures |r| == |s| - 1
    ensures forall k | 0 <= k < |s| - 1 :: r[k] == if k < j then s[k] else s[k + 1]
  {
    s[..j] + s[j + 1..]
  }

  lemma {:induction false} TakenOutBag<T>(s: seq<T>, j: nat)
    requires j < |s|
    ensures multiset(s) == multiset(TakenOut(s, j)) + multiset{s[j]}
  {
    assert s == s[..j] + [s[j]] + s[j + 1..];
  }

  /** A pairing of equal elements makes the multisets equal. */
  lemma {:induction false} PairedIsEqual<T>(s: seq<T>, t: seq<T>, p: seq<nat>)
    requires |s| == |t| && IsPermutation(p, |s|) && forall i | 0 <= i < |s| :: s[i] == t[p[i]]
    ensures multiset(s) == multiset(t)
  {
    if s != [] {
      var n := |s| - 1;
      var j := p[n];
      DroppingPermutes(p, n + 1);
      forall i | 0 <= i < n ensures s[..n][i] == TakenOut(t, j)[Dropping(p, j)[i]] {
        assert p[i] != j && s[i] == t[p[i]];
      }
      PairedIsEqual(s[..n], TakenOut(t, j), Dropping(p, j));
      TakenOutBag(t, j);
      assert s == s[..n] + [s[n]];
    }
  }

  lemma {:induction false} BagCancels<T>(a: multiset<T>, b: multiset<T>, x: T)
    requires a + multiset{x} == b + multiset{x}
    ensures a == b
  {
    assert a == a + multiset{x} - multiset{x};
  }

  lemma {:induction false} NoNumbers()
    ensures IsPermutation([], 0)
  {
  }

  lemma {:induction false} SmallNumbers(p: seq<nat>, n: nat)
    requires IsPermutation(p, n)
    ensures |p| == n && forall i | 0 <= i < n :: p[i] < n
  {
  }

  lemma {:induction false} AtEnd(p: seq<nat>, q: seq<nat>, j: nat, n: nat)
    requires IsPermutation(q, n) && j <= n && |p| == n + 1 && p[n] == j
    requires forall i | 0 <= i < n :: p[i] == if q[i] < j then q[i] else q[i] + 1
    ensures IsPermutation(p, n + 1)
  {
    forall i, k | 0 <= i < k < n + 1 ensures p[i] != p[k] {
      if k < n {
        assert q[i] != q[k];
      }
    }
  }

  lemma {:induction false} OneLess<T>(s: seq<T>, t: seq<T>, j: nat)
    requires multiset(s) == multiset(t) && s != [] && j < |t| && t[j] == s[|s| - 1]
    ensures multiset(s[..|s| - 1]) == multiset(TakenOut(t, j))
  {
    var n := |s| - 1;
    TakenOutBag(t, j);
    assert s == s[..n] + [s[n]];
    BagCancels(multiset(s[..n]), multiset(TakenOut(t, j)), s[n]);
  }

  /** Equal multisets can be paired off. */
  lemma {:induction false} EqualIsPaired<T>(s: seq<T>, t: seq<T>) returns (p: seq<nat>)
    requires multiset(s) == multiset(t)
    ensures |s| == |t| && IsPermutation(p, |s|) && forall i | 0 <= i < |s| :: s[i] == t[p[i]]
  {
    hide IsPermutation;
    assert |multiset(s)| == |s| && |multiset(t)| == |t|;
    if s == [] {
      p := [];
      NoNumbers();
    } else {
      var n := |s| - 1;
      assert s[n] in multiset(t);
      var j :| 0 <= j < |t| && t[j] == s[n];
      OneLess(s, t, j);
      var q := EqualIsPaired(s[..n], TakenOut(t, j));
      SmallNumbers(q, n);
      p := seq(n, i requires 0 <= i < n => if q[i] < j then q[i] else q[i] + 1) + [j];
      AtEnd(p, q, j, n);
      SmallNumbers(p, n + 1);
      forall i | 0 <= i < n ensures s[i] == t[p[i]] {
        assert s[..n][i] == TakenOut(t, j)[q[i]];
      }
    }
  }

  lemma {:induction false} SameArraysAlike(a: seq<Json>, b: seq<Json>)
    requires forall i, j | 0 <= i < |a| && 0 <= j < |b| :: Same(a[i], b[j]) <==> Alike(a[i], b[j])
    ensures Same(Arr(a), Arr(b)) <==> Alike(Arr(a), Arr(b))
  {
    SameArrays(a, b);
    SameArrays(b, a);
    hide ToBag, ToBags;
    var s, t := ToBags(a), ToBags(b);
    if Same(Arr(a), Arr(b)) {
      var p := EqualIsPaired(s, t);
      forall i | 0 <= i < |a| ensures Alike(a[i], b[p[i]]) {
        assert s[i] == t[p[i]];
        assert Same(a[i], b[p[i]]);
      }
    }
    if Alike(Arr(a), Arr(b)) {
      var p :| IsPermutation(p, |a|) && forall i | 0 <= i < |a| :: Alike(a[i], b[p[i]]);
      forall i | 0 <= i < |a| ensures s[i] == t[p[i]] {
        assert Same(a[i], b[p[i]]);
      }
      PairedIsEqual(s, t, p);
    }
  }

  /** Reading arrays as multisets compares the same trees as equal as pairing their elements off does. */
  lemma {:induction false} SameIsAlike(a: Json, b: Json)
    ensures Same(a, b) <==> Alike(a, b)
    decreases a
  {
    match a
    case Obj(f) =>
      if b.Obj? && f.Keys == b.fields.Keys {
        var p, q := ToBag(a).fields, ToBag(b).fields;
        assert p.Keys == f.Keys == q.Keys;
        forall k | k in f ensures p[k] == q[k] <==> Alike(f[k], b.fields[k]) {
          SameIsAlike(f[k], b.fields[k]);
        }
        assert p == q <==> forall k | k in f :: p[k] == q[k];
      } else if b.Obj? {
        assert ToBag(a).fields.Keys == f.Keys && ToBag(b).fields.Keys == b.fields.Keys;
      }
    case Arr(items) =>
      if b.Arr? {
        forall i, j | 0 <= i < |items| && 0 <= j < |b.items|
          ensures Same(items[i], b.items[j]) <==> Alike(items[i], b.items[j])
        {
          SameIsAlike(items[i], b.items[j]);
        }
        SameArraysAlike(items, b.items);
      }
    case _ =>
  }

  /** Without arrays, equal means equal. */
  lemma {:induction false} SameWithoutArrays(a: Json, b: Json)
    requires ArrayFree(a) && ArrayFree(b)
    ensures Same(a, b) <==> a == b
    decreases a
  {
    if a.Obj? && b.Obj? {
      var p, q := ToBag(a).fields, ToBag(b).fields;
      assert p.Keys == a.fields.Keys && q.Keys == b.fields.Keys;
      if Same(a, b) {
        forall k | k in a.fields ensures k in b.fields && a.fields[k] == b.fields[k] {
          assert k in q && p[k] == q[k];
          SameWithoutArrays(a.fields[k], b.fields[k]);
        }
        assert a.fields == b.fields;
      }
    }
  }

  /** The elements that carry no mark yet. */
  ghost function Unmarked(bags: seq<Bag>, marks: seq<bool>): multiset<Bag>
    requires |bags| == |marks|
  {
    if bags == [] then multiset{}
    else
      Unmarked(bags[..|bags| - 1], marks[..|bags| - 1]) +
      (if marks[|bags| - 1] then multiset{} else multiset{bags[|bags| - 1]})
  }

  ghost predicate HasUnmarked(bags: seq<Bag>, marks: seq<bool>, x: Bag)
    requires |bags| == |marks|
  {
    exists j | 0 <= j < |bags| :: !marks[j] && bags[j] == x
  }

  lemma {:induction false} HasUnmarkedSnoc(bags: seq<Bag>, marks: seq<bool>, x: Bag)
    requires |bags| == |marks| > 0
    ensures var n := |bags| - 1;
            HasUnmarked(bags, marks, x) <==> HasUnmarked(bags[..n], marks[..n], x) || (!marks[n] && bags[n] == x)
  {
    var n := |bags| - 1;
    if j :| 0 <= j < n && !marks[..n][j] && bags[..n][j] == x {
      assert !marks[j] && bags[j] == x;
    }
    if j :| 0 <= j < n && !marks[j] && bags[j] == x {
      assert !marks[..n][j] && bags[..n][j] == x;
    }
  }

  lemma {:induction false} UnmarkedMember(bags: seq<Bag>, marks: seq<bool>, x: Bag)
    requires |bags| == |marks|
    ensures x in Unmarked(bags, marks) <==> HasUnmarked(bags, marks, x)
  {
    if bags != [] {
      hide HasUnmarked;
      var n := |bags| - 1;
      UnmarkedMember(bags[..n], marks[..n], x);
      HasUnmarkedSnoc(bags, marks, x);
    }
  }

  /** Marking an element takes exactly one copy of it away. */
  lemma {:induction false} MarkOne(bags: seq<Bag>, marks: seq<bool>, j: nat)
    requires |bags| == |marks| && j < |bags| && !marks[j]
    ensures Unmarked(bags, marks) == Unmarked(bags, marks[j := true]) + multiset{bags[j]}
  {
    var n := |bags| - 1;
    var marks' := marks[j := true];
    if j == n {
      assert marks'[..n] == marks[..n];
    } else {
      MarkOne(bags[..n], marks[..n], j);
      assert marks'[..n] == marks[..n][j := true];
    }
  }

  lemma {:induction false} NothingMarked(bags: seq<Bag>, marks: seq<bool>)
    requires |bags| == |marks| && forall j | 0 <= j < |marks| :: !marks[j]
    ensures Unmarked(bags, marks) == multiset(bags)
  {
    if bags != [] {
      var n := |bags| - 1;
      NothingMarked(bags[..n], marks[..n]);
      assert bags == bags[..n] + [bags[n]];
    }
  }

  ghost predicate Every(marks: seq<bool>) { forall k | 0 <= k < |marks| :: marks[k] }

  lemma {:induction false} EverythingMarked(bags: seq<Bag>, marks: seq<bool>)
    requires |bags| == |marks| && forall j | 0 <= j < |marks| :: marks[j]
    ensures Unmarked(bags, marks) == multiset{}
  {
    if bags != [] {
      EverythingMarked(bags[..|bags| - 1], marks[..|bags| - 1]);
    }
  }

  /** The first `i` elements of `a` have been matched with the marked elements of `b`. */
  ghost predicate Balanced(a: seq<Bag>, b: seq<Bag>, i: nat, marks: seq<bool>) {
    i <= |a| && |b| == |marks| && multiset(a[..i]) + Unmarked(b, marks) == multiset(b)
  }

  lemma {:induction false} BalancedStart(a: seq<Bag>, b: seq<Bag>, marks: seq<bool>)
    requires |b| == |marks| && forall j | 0 <= j < |marks| :: !marks[j]
    ensures Balanced(a, b, 0, marks)
  {
    NothingMarked(b, marks);
  }

  lemma {:induction false} BalancedStep(a: seq<Bag>, b: seq<Bag>, i: nat, marks: seq<bool>, marks': seq<bool>)
    requires Balanced(a, b, i, marks) && i < |a| && |marks'| == |b|
    requires Unmarked(b, marks) == Unmarked(b, marks') + multiset{a[i]}
    ensures Balanced(a, b, i + 1, marks')
  {
    assert a[..i + 1] == a[..i] + [a[i]];
  }

  /** An element with no partner among the unmarked ones rules equality out: first-match marking never needs to be
      undone. */
  lemma {:induction false} NoPartner(a: seq<Bag>, b: seq<Bag>, i: nat, marks: seq<bool>)
    requires Balanced(a, b, i, marks) && i < |a| && a[i] !in Unmarked(b, marks)
    ensures multiset(a) != multiset(b)
  {
    assert a == a[..i] + [a[i]] + a[i + 1..];
    assert multiset(a) == multiset(a[..i]) + multiset{a[i]} + multiset(a[i + 1..]);
    assert multiset(a)[a[i]] > multiset(a[..i])[a[i]] == multiset(b)[a[i]];
  }

  /** Once every element of one side has a partner, the arrays are equal exactly when the other side has none
      left over. */
  lemma {:induction false} MatchingComplete(a: seq<Bag>, b: seq<Bag>, marks: seq<bool>)
    requires Balanced(a, b, |a|, marks)
    ensures Every(marks) <==> multiset(a) == multiset(b)
  {
    assert a[..|a|] == a;
    if Every(marks) {
      EverythingMarked(b, marks);
    } else {
      var j :| 0 <= j < |marks| && !marks[j];
      UnmarkedMember(b, marks, b[j]);
      assert multiset(b)[b[j]] > multiset(a)[b[j]];
    }
  }

  /** Compares two JSON trees without regard to the order of array elements. Arrays are matched greedily: each
      element takes the first unmarked equal one. */
  method DeepEqualIgnoreArrayOrder(a: Json, b: Json) returns (equal: bool)
    ensures equal <==> Same(a, b)
    ensures equal <==> Alike(a, b)
    ensures ArrayFree(a) && ArrayFree(b) ==> (equal <==> a == b)
    decreases a, 2
  {
    hide Alike, ArrayFree;
    SameIsAlike(a, b);
    if ArrayFree(a) && ArrayFree(b) {
      SameWithoutArrays(a, b);
    }
    if a == Null || b == Null {
      return a == b;
    }
    match a {
      case Obj(fields) =>
        if !b.Obj? || |fields| != |b.fields| {
          ObjectsDiffer(a, b);
          return false;
        }
        equal := EqualFields(fields, b.fields, a);
      case Arr(items) =>
        if !b.Arr? || |items| != |b.items| {
          ArraysDiffer(a, b);
          return false;
        }
        equal := EqualItems(items, b.items, a);
      case _ =>
        equal := a == b;
    }
  }

  lemma {:induction false} ObjectsDiffer(a: Json, b: Json)
    requires a.Obj? && (!b.Obj? || |a.fields| != |b.fields|)
    ensures !Same(a, b)
  {
    if b.Obj? {
      assert ToBag(a).fields.Keys == a.fields.Keys && ToBag(b).fields.Keys == b.fields.Keys;
      assert |a.fields| == |a.fields.Keys| && |b.fields| == |b.fields.Keys|;
    }
  }

  lemma {:induction false} ArraysDiffer(a: Json, b: Json)
    requires a.Arr? && (!b.Arr? || |a.items| != |b.items|)
    ensures !Same(a, b)
  {
    if b.Arr? {
      assert |multiset(ToBags(a.items))| == |a.items| && |multiset(ToBags(b.items))| == |b.items|;
    }
  }

  method EqualFields(m: map<string, Json>, n: map<string, Json>, ghost whole: Json) returns (equal: bool)
    requires |m| == |n| && whole == Obj(m)
    ensures equal <==> Same(Obj(m), Obj(n))
    decreases whole, 0
  {
    ghost var p, q := ToBag(Obj(m)).fields, ToBag(Obj(n)).fields;
    assert p.Keys == m.Keys && q.Keys == n.Keys;
    var todo := m.Keys;
    while todo != {}
      invariant todo <= m.Keys
      invariant forall k | k in m.Keys - todo :: k in n && p[k] == q[k]
      decreases todo
    {
      var k :| k in todo;
      todo := todo - {k};
      if k !in n {
        assert k in p && k !in q;
        return false;
      }
      var same := DeepEqualIgnoreArrayOrder(m[k], n[k]);
      if !same {
        assert p[k] != q[k];
        return false;
      }
    }
    SameSizeSubset(m.Keys, n.Keys);
    return true;
  }

  /** The inner loop: marks the first unmarked element equal to `x`. */
  method MarkFirstEqual(x: Json, b: seq<Json>, matched: array<bool>, ghost whole: Json) returns (found: bool)
    requires matched.Length == |b| && x < whole
    modifies matched
    ensures found ==> Unmarked(ToBags(b), old(matched[..])) == Unmarked(ToBags(b), matched[..]) + multiset{ToBag(x)}
    ensures !found ==> matched[..] == old(matched[..]) && ToBag(x) !in Unmarked(ToBags(b), matched[..])
    decreases whole, 0
  {
    ghost var q, marks := ToBags(b), matched[..];
    for j := 0 to |b|
      invariant matched[..] == marks
      invariant forall k | 0 <= k < j :: marks[k] || q[k] != ToBag(x)
    {
      var same := DeepEqualIgnoreArrayOrder(x, b[j]);
      if same && !matched[j] {
        MarkOne(q, marks, j);
        matched[j] := true;
        assert matched[..] == marks[j := true];
        return true;
      }
    }
    UnmarkedMember(q, marks, ToBag(x));
    return false;
  }

  method EqualItems(a: seq<Json>, b: seq<Json>, ghost whole: Json) returns (equal: bool)
    requires |a| == |b| && whole == Arr(a)
    ensures equal <==> Same(Arr(a), Arr(b))
    decreases whole, 1
  {
    hide Unmarked, ToBags, Balanced, ToBag, Same, Every;
    ghost var p, q := ToBags(a), ToBags(b);
    SameArrays(a, b);
    SameArrays(b, a);
    var matched := new bool[|b|](_ => false);
    BalancedStart(p, q, matched[..]);
    for i := 0 to |a|
      invariant Balanced(p, q, i, matched[..])
    {
      ghost var marks := matched[..];
      var found := MarkFirstEqual(a[i], b, matched, whole);
      if !found {
        NoPartner(p, q, i, marks);
        return false;
      }
      BalancedStep(p, q, i, marks, matched[..]);
    }
    MatchingComplete(p, q, matched[..]);
    equal := AllMarked(matched);
  }

  method AllMarked(matched: array<bool>) returns (all: bool)
    ensures all <==> Every(matched[..])
  {
    for j := 0 to matched.Length
      invariant forall k | 0 <= k < j :: matched[k]
    {
      if !matched[j] {
        assert !matched[..][j];
        return false;
      }
    }
    return true;
  }
}

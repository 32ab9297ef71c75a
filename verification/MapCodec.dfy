/** The text form of list parameters (internal/metastructure/util/maps.go): "key1:value1,key2:value2", keys sorted. */
module MapCodec {
  import opened Common

  type Params = map<string, string>

  // ----- Sorted keys -----

  predicate Less(a: string, b: string) {
    b != [] && (a == [] || a[0] < b[0] || (a[0] == b[0] && Less(a[1..], b[1..])))
  }

  lemma {:induction false} LessTotal(a: string, b: string)
    ensures a == b || Less(a, b) || Less(b, a)
  {
    if a != [] && b != [] && a[0] == b[0] {
      LessTotal(a[1..], b[1..]);
      assert a == [a[0]] + a[1..] && b == [b[0]] + b[1..];
    }
  }

  lemma {:induction false} LessIrreflexive(a: string)
    ensures !Less(a, a)
  {
    if a != [] {
      LessIrreflexive(a[1..]);
    }
  }

  lemma {:induction false} LessTransitive(a: string, b: string, c: string)
    requires Less(a, b) && Less(b, c)
    ensures Less(a, c)
  {
    if a != [] && a[0] == b[0] == c[0] {
      LessTransitive(a[1..], b[1..], c[1..]);
    }
  }

  /** The order of keys is that of dictionaries: by the first character in which two differ, a text before its longer
      continuations. */
  lemma {:induction false} LessExactly(a: string, b: string)
    ensures Less(a, b) <==>
            exists i | 0 <= i <= |a| && i < |b| :: a[..i] == b[..i] && (i < |a| ==> a[i] < b[i])
  {
    if b != [] && a != [] && a[0] == b[0] {
      LessExactly(a[1..], b[1..]);
      if i :| 0 <= i < |a| && i < |b| - 1 && a[1..][..i] == b[1..][..i] && (i < |a| - 1 ==> a[1..][i] < b[1..][i]) {
        assert a[..i + 1] == [a[0]] + a[1..][..i] && b[..i + 1] == [b[0]] + b[1..][..i];
        assert i + 1 < |a| ==> a[i + 1] < b[i + 1];
      }
      if i :| 0 <= i <= |a| && i < |b| && a[..i] == b[..i] && (i < |a| ==> a[i] < b[i]) {
        assert i > 0;
        assert a[1..][..i - 1] == a[..i][1..] && b[1..][..i - 1] == b[..i][1..];
        assert i < |a| ==> a[1..][i - 1] < b[1..][i - 1];
      }
    } else if b != [] {
      assert a[..0] == b[..0];
      if i :| 0 <= i <= |a| && i < |b| && a[..i] == b[..i] && (i < |a| ==> a[i] < b[i]) {
        assert i > 0 ==> a[..i][0] == b[..i][0];
      }
    }
  }

  ghost predicate Sorted(keys: seq<string>) { forall i, j | 0 <= i < j < |keys| :: Less(keys[i], keys[j]) }

  /** There is only one sorted list of a set of keys, so the order in which a map lists them does not matter. */
  lemma {:induction false} SortedUnique(a: seq<string>, b: seq<string>)
    requires Sorted(a) && Sorted(b) && Elements(a) == Elements(b)
    ensures a == b
  {
    ElementsEmpty(a);
    ElementsEmpty(b);
    if a != [] {
      SameHead(a, b);
      TailElements(a);
      TailElements(b);
      SortedUnique(a[1..], b[1..]);
      assert a == [a[0]] + a[1..] && b == [b[0]] + b[1..];
    }
  }

  lemma {:induction false} ElementsEmpty(a: seq<string>)
    ensures Elements(a) == {} <==> a == []
  {
    if a != [] {
      assert a[0] in Elements(a);
    }
  }

  lemma {:induction false} SameHead(a: seq<string>, b: seq<string>)
    requires Sorted(a) && Sorted(b) && Elements(a) == Elements(b) && a != [] && b != []
    ensures a[0] == b[0]
  {
    assert a[0] in Elements(b) && b[0] in Elements(a);
    var i :| 0 <= i < |b| && b[i] == a[0];
    var j :| 0 <= j < |a| && a[j] == b[0];
    if i > 0 && j > 0 {
      LessTransitive(a[0], b[0], a[0]);
      LessIrreflexive(a[0]);
    }
  }

  lemma {:induction false} TailElements(a: seq<string>)
    requires Sorted(a) && a != []
    ensures Elements(a[1..]) == Elements(a) - {a[0]} && Sorted(a[1..])
  {
    LessIrreflexive(a[0]);
    assert forall i | 1 <= i < |a| :: Less(a[0], a[i]);
    assert forall k | k in a :: k == a[0] || k in a[1..];
  }

  // ----- Encoding -----

  function Pair(k: string, v: string): string { k + ":" + v }

  function Pairs(keys: seq<string>, m: Params): (ps: seq<string>)
    requires forall k | k in keys :: k in m
    ensures |ps| == |keys|
  {
    seq(|keys|, i requires 0 <= i < |keys| => Pair(keys[i], m[keys[i]]))
  }

  function Joined(parts: seq<string>): string {
    if parts == [] then []
    else if |parts| == 1 then parts[0]
    else parts[0] + "," + Joined(parts[1..])
  }

  /** The text of a map: its pairs in the order of their keys. */
  ghost predicate Encodes(m: Params, s: string) {
    exists keys: seq<string> | Sorted(keys) && Elements(keys) == m.Keys :: Text(keys, m) == s
  }

  ghost function Text(keys: seq<string>, m: Params): string
    requires Elements(keys) == m.Keys
  {
    assert forall k | k in keys :: k in Elements(keys);
    Joined(Pairs(keys, m))
  }

  /** The text of no, one and two pairs. */
  lemma {:induction false} TextOfFew(k: string, v: string, l: string, w: string)
    requires Less(k, l)
    ensures Encodes(map[], "")
    ensures Encodes(map[k := v], k + ":" + v)
    ensures Encodes(map[k := v, l := w], k + ":" + v + "," + l + ":" + w)
  {
    var none: seq<string> := [];
    assert Sorted(none) && Elements(none) == {};
    assert Text(none, map[]) == "";
    assert Sorted([k]) && Elements([k]) == {k};
    assert Text([k], map[k := v]) == k + ":" + v;
    LessIrreflexive(k);
    var m := map[k := v, l := w];
    assert Sorted([k, l]) && Elements([k, l]) == {k, l} == m.Keys;
    var pairs := Pairs([k, l], m);
    assert pairs == [k + ":" + v, l + ":" + w];
    assert pairs[1..] == [l + ":" + w];
    assert Joined(pairs) == (k + ":" + v) + "," + (l + ":" + w);
    assert Text([k, l], m) == k + ":" + v + "," + l + ":" + w;
  }

  // ----- Decoding -----

  /** The pieces between commas. */
  function Pieces(s: string): (ps: seq<string>)
    ensures ps != []
    decreases |s|, |s| + 1
  {
    PiecesFrom(s, 0)
  }

  function PiecesFrom(s: string, i: nat): (ps: seq<string>)
    requires i <= |s|
    ensures ps != []
    decreases |s|, |s| - i
  {
    if i == |s| then [s]
    else if s[i] == ',' then [s[..i]] + Pieces(s[i + 1..])
    else PiecesFrom(s, i + 1)
  }

  /** The parts before and after the first colon. */
  function Cut(pair: string): (r: Option<(string, string)>)
    ensures r.None? <==> ':' !in pair
    ensures r.Some? ==> pair == r.value.0 + ":" + r.value.1 && ':' !in r.value.0
  {
    if pair == [] then None
    else if pair[0] == ':' then Some(([], pair[1..]))
    else match Cut(pair[1..])
      case None => None
      case Some(r) => Some(([pair[0]] + r.0, r.1))
  }

  /** The map read from pieces, later ones overwriting earlier ones; a piece without a colon is an index out of range.
      */
  function ReadPieces(pieces: seq<string>): Option<Params> {
    if pieces == [] then Some(map[])
    else match ReadPieces(pieces[..|pieces| - 1])
      case None => None
      case Some(m) => (match Cut(pieces[|pieces| - 1])
                       case None => None
                       case Some(kv) => Some(m[kv.0 := kv.1]))
  }

  function Decoded(s: string): Option<Params> {
    if s == [] then Some(map[]) else ReadPieces(Pieces(s))
  }

  // ----- The loops -----

  method SortStrings(keys: seq<string>) returns (sorted: seq<string>)
    ensures Sorted(sorted) && Elements(sorted) == Elements(keys)
  {
    sorted := [];
    for i := 0 to |keys|
      invariant Sorted(sorted) && Elements(sorted) == Elements(keys[..i])
    {
      sorted := Insert(keys[i], sorted);
      assert keys[..i + 1] == keys[..i] + [keys[i]];
    }
    assert keys[..|keys|] == keys;
  }

  method Insert(k: string, sorted: seq<string>) returns (r: seq<string>)
    requires Sorted(sorted)
    ensures Sorted(r) && Elements(r) == Elements(sorted) + {k}
  {
    var i := 0;
    while i < |sorted| && Less(sorted[i], k)
      invariant i <= |sorted|
      invariant forall j | 0 <= j < i :: Less(sorted[j], k)
    {
      i := i + 1;
    }
    if i < |sorted| && sorted[i] == k {
      assert k in sorted;
      return sorted;
    }
    if i < |sorted| {
      LessTotal(sorted[i], k);
      forall j | i < j < |sorted| ensures Less(k, sorted[j]) {
        LessTransitive(k, sorted[i], sorted[j]);
      }
    }
    r := sorted[..i] + [k] + sorted[i..];
    assert sorted == sorted[..i] + sorted[i..];
  }

  /** The keys of a map, in whatever order it lists them. */
  method KeysOf(m: Params) returns (keys: seq<string>)
    ensures Elements(keys) == m.Keys
  {
    hide Elements;
    keys := [];
    NoElements();
    var rest := m.Keys;
    while rest != {}
      invariant rest <= m.Keys
      invariant Elements(keys) == m.Keys - rest
      decreases rest
    {
      var k :| k in rest;
      OneMoreElement(keys, k);
      keys, rest := keys + [k], rest - {k};
    }
  }

  lemma {:induction false} NoElements()
    ensures Elements<string>([]) == {}
  {
  }

  lemma {:induction false} OneMoreElement(keys: seq<string>, k: string)
    ensures Elements(keys + [k]) == Elements(keys) + {k}
  {
    ElementsAppend(keys, [k]);
  }

  method MapToString(m: Params) returns (s: string)
    ensures Encodes(m, s)
  {
    var keys := KeysOf(m);
    keys := SortStrings(keys);
    s := WritePairs(keys, m);
  }

  method WritePairs(keys: seq<string>, m: Params) returns (s: string)
    requires Elements(keys) == m.Keys
    ensures s == Text(keys, m)
  {
    assert forall k | k in keys :: k in Elements(keys);
    hide Elements;
    ghost var pairs := Pairs(keys, m);
    s := "";
    for i := 0 to |keys|
      invariant s == Joined(pairs[..i])
    {
      assert pairs[..i + 1] == pairs[..i] + [pairs[i]];
      JoinedAppend(pairs[..i], pairs[i]);
      if i > 0 {
        s := s + ",";
      }
      s := s + keys[i];
      s := s + ":";
      s := s + m[keys[i]];
    }
    assert pairs[..|keys|] == pairs;
  }

  method StringToMap(s: string) returns (r: Option<Params>)
    ensures r == Decoded(s)
  {
    if |s| == 0 {
      return Some(map[]);
    }
    var result: Params := map[];
    var pieces := Pieces(s);
    for i := 0 to |pieces|
      invariant ReadPieces(pieces[..i]) == Some(result)
    {
      assert pieces[..i + 1][..i] == pieces[..i];
      match Cut(pieces[i])
      case None =>
        NoneStays(pieces, i + 1);
        return None;
      case Some(kv) => result := result[kv.0 := kv.1];
    }
    assert pieces[..|pieces|] == pieces;
    return Some(result);
  }

  lemma {:induction false} NoneStays(pieces: seq<string>, i: nat)
    requires i <= |pieces| && ReadPieces(pieces[..i]) == None
    ensures ReadPieces(pieces) == None
  {
    if i == |pieces| {
      assert pieces[..i] == pieces;
    } else {
      assert pieces[..|pieces| - 1][..i] == pieces[..i];
      NoneStays(pieces[..|pieces| - 1], i);
    }
  }

  // ----- Round trip -----

  /** No separator where it would be misread. */
  ghost predicate Clean(m: Params) {
    forall k | k in m :: ':' !in k && ',' !in k && ',' !in m[k]
  }

  lemma {:induction false} JoinedAppend(parts: seq<string>, p: string)
    ensures Joined(parts + [p]) == if parts == [] then p else Joined(parts) + "," + p
  {
    if |parts| > 0 {
      assert (parts + [p])[1..] == parts[1..] + [p];
      JoinedAppend(parts[1..], p);
      if |parts| > 1 {
        assert parts[0] + "," + (Joined(parts[1..]) + "," + p) == (parts[0] + "," + Joined(parts[1..])) + "," + p;
      }
    }
  }

  lemma {:induction false} PiecesOne(p: string, rest: string, i: nat)
    requires ',' !in p && i <= |p|
    ensures PiecesFrom(p + "," + rest, i) == [p] + Pieces(rest)
    decreases |p| - i
  {
    var s := p + "," + rest;
    if i == |p| {
      assert s[..i] == p && s[i + 1..] == rest;
    } else {
      assert s[i] == p[i];
      PiecesOne(p, rest, i + 1);
    }
  }

  lemma {:induction false} PiecesLast(p: string, i: nat)
    requires ',' !in p && i <= |p|
    ensures PiecesFrom(p, i) == [p]
    decreases |p| - i
  {
    if i < |p| {
      PiecesLast(p, i + 1);
    }
  }

  /** Parts without commas are found again. */
  lemma {:induction false} PiecesOfJoined(parts: seq<string>)
    requires parts != [] && forall p | p in parts :: ',' !in p
    ensures Pieces(Joined(parts)) == parts
  {
    if |parts| == 1 {
      PiecesLast(parts[0], 0);
    } else {
      PiecesOfJoined(parts[1..]);
      PiecesOne(parts[0], Joined(parts[1..]), 0);
    }
  }

  lemma {:induction false} CutPair(k: string, v: string)
    requires ':' !in k
    ensures Cut(Pair(k, v)) == Some((k, v))
  {
    if k != [] {
      assert Pair(k, v)[1..] == Pair(k[1..], v);
      assert Pair(k, v)[0] == k[0];
      CutPair(k[1..], v);
      assert [k[0]] + k[1..] == k;
    } else {
      assert Pair(k, v)[1..] == v;
    }
  }

  lemma {:induction false} OneMoreKey(keys: seq<string>, m: Params)
    requires keys != [] && forall k | k in keys :: k in m
    ensures var last := |keys| - 1;
            (map k | k in keys[..last] :: m[k])[keys[last] := m[keys[last]]] == (map k | k in keys :: m[k])
  {
    assert keys == keys[..|keys| - 1] + [keys[|keys| - 1]];
  }

  lemma {:induction false} ReadPairs(keys: seq<string>, m: Params)
    requires forall k | k in keys :: k in m && ':' !in k
    ensures ReadPieces(Pairs(keys, m)) == Some(map k | k in keys :: m[k])
  {
    if keys != [] {
      var last := |keys| - 1;
      ReadPairs(keys[..last], m);
      CutPair(keys[last], m[keys[last]]);
      assert Pairs(keys, m)[..last] == Pairs(keys[..last], m);
      OneMoreKey(keys, m);
    }
  }

  lemma {:induction false} CleanRoundTrip(m: Params, s: string)
    requires Encodes(m, s) && Clean(m)
    ensures Decoded(s) == Some(m)
  {
    var keys :| Sorted(keys) && Elements(keys) == m.Keys && Text(keys, m) == s;
    assert forall k :: k in keys <==> k in Elements(keys);
    var pairs := Pairs(keys, m);
    if keys == [] {
      assert m.Keys == {};
      assert s == [];
    } else {
      forall p | p in pairs ensures ',' !in p {
      }
      PiecesOfJoined(pairs);
      assert s != [] by { assert |pairs[0]| > 0; }
      ReadPairs(keys, m);
      assert (map k | k in keys :: m[k]) == m;
    }
  }

  lemma {:induction false} PiecesHaveNoComma(s: string, i: nat)
    requires i <= |s| && ',' !in s[..i]
    ensures forall p | p in PiecesFrom(s, i) :: ',' !in p
    decreases |s|, |s| - i
  {
    if i == |s| {
      assert s[..i] == s;
    } else if s[i] == ',' {
      PiecesHaveNoComma(s[i + 1..], 0);
    } else {
      assert s[..i + 1] == s[..i] + [s[i]];
      PiecesHaveNoComma(s, i + 1);
    }
  }

  lemma {:induction false} ReadIsClean(pieces: seq<string>)
    requires forall p | p in pieces :: ',' !in p
    ensures ReadPieces(pieces).Some? ==> Clean(ReadPieces(pieces).value)
  {
    if pieces != [] {
      ReadIsClean(pieces[..|pieces| - 1]);
      var p := pieces[|pieces| - 1];
      assert p in pieces;
    }
  }

  /** Whatever is decoded is clean. */
  lemma {:induction false} DecodedIsClean(s: string)
    ensures Decoded(s).Some? ==> Clean(Decoded(s).value)
  {
    if s != [] {
      PiecesHaveNoComma(s, 0);
      ReadIsClean(Pieces(s));
    }
  }

  /** A map comes back from its text exactly when it is clean. */
  lemma {:induction false} RoundTripExactly(m: Params, s: string)
    requires Encodes(m, s)
    ensures Decoded(s) == Some(m) <==> Clean(m)
  {
    if Clean(m) {
      CleanRoundTrip(m, s);
    }
    DecodedIsClean(s);
  }

  /** Every map has exactly one text, and clean maps with the same text are equal: the text can serve as a key. */
  lemma {:induction false} TextIsKey(m: Params, n: Params, s: string, t: string)
    requires Encodes(m, s) && Encodes(n, t)
    ensures m == n ==> s == t
    ensures Clean(m) && Clean(n) && s == t ==> m == n
  {
    if m == n {
      var a :| Sorted(a) && Elements(a) == m.Keys && Text(a, m) == s;
      var b :| Sorted(b) && Elements(b) == m.Keys && Text(b, n) == t;
      SortedUnique(a, b);
    }
    if Clean(m) && Clean(n) {
      CleanRoundTrip(m, s);
      CleanRoundTrip(n, t);
    }
  }

  /** Decoding breaks off exactly when a piece of a nonempty text has no colon. */
  lemma {:induction false} DecodingFails(s: string)
    ensures Decoded(s) == None <==> s != [] && exists p | p in Pieces(s) :: ':' !in p
  {
    if s != [] {
      ReadFails(Pieces(s));
    }
  }

  lemma {:induction false} ReadFails(pieces: seq<string>)
    ensures ReadPieces(pieces) == None <==> exists p | p in pieces :: ':' !in p
  {
    if pieces != [] {
      var last := |pieces| - 1;
      ReadFails(pieces[..last]);
      assert pieces == pieces[..last] + [pieces[last]];
    }
  }
}

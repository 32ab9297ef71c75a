/** One node of the changeset pipeline with its links
    (internal/metastructure/changeset/changeset.go, `ResourceUpdateGroup`). A link is the operation URI of the
    group it points to. */
module UpdateGroup {
  import opened Common
  import opened Operations

  /** The downstream links are a slice: the first `count` places of the array `backing`. */
  datatype Group = Group(updates: seq<ResourceUpdate>, upstream: seq<OpUri>, backing: seq<OpUri>, count: nat) {
    function Downstream(): seq<OpUri> {
      if count <= |backing| then backing[..count] else backing
    }

    predicate Done() { updates == [] }

    predicate HasRunningUpdate() {
      exists i | 0 <= i < |updates| :: updates[i].state == InProgress
    }
  }

  /** The first position of `x`, or the length when there is none. */
  function IndexOf<T(==)>(s: seq<T>, x: T): (i: nat)
    ensures i <= |s|
    ensures i < |s| ==> s[i] == x
    ensures forall j | 0 <= j < i :: s[j] != x
  {
    if s == [] || s[0] == x then 0 else 1 + IndexOf(s[1..], x)
  }

  /** `s` with its first `x` taken out. */
  function Without<T(==)>(s: seq<T>, x: T): seq<T> {
    var i := IndexOf(s, x);
    if i < |s| then s[..i] + s[i + 1..] else s
  }

  /** The array behind a slice of length `count` after the slice's first `x` has been taken out by moving the
      rest of the slice one place down. The array keeps its length, so its old last element stays. */
  function ShiftedDown<T(==)>(backing: seq<T>, count: nat, x: T): (r: seq<T>)
    requires count <= |backing|
    ensures |r| == |backing|
  {
    var i := IndexOf(backing[..count], x);
    if i < count then backing[..i] + backing[i + 1..count] + backing[count - 1..] else backing
  }

  /** `us` with its first update for operation `n` taken out. */
  function WithoutUpdate(us: seq<ResourceUpdate>, n: OpUri): seq<ResourceUpdate> {
    if us == [] then []
    else if us[0].Node() == n then us[1..]
    else [us[0]] + WithoutUpdate(us[1..], n)
  }

  lemma {:induction false} WithoutRemoves<T>(s: seq<T>, x: T)
    requires NoDup(s)
    ensures NoDup(Without(s, x))
    ensures Elements(Without(s, x)) == Elements(s) - {x}
    ensures x !in s ==> Without(s, x) == s
  {
    var i := IndexOf(s, x);
    var r := Without(s, x);
    if i < |s| {
      assert forall k | 0 <= k < |r| :: r[k] == if k < i then s[k] else s[k + 1];
      forall y | y in s && y != x ensures y in r {
        var k :| 0 <= k < |s| && s[k] == y;
        assert y == if k < i then r[k] else r[k - 1];
      }
    }
  }

  lemma {:induction false} PrefixElements<T>(s: seq<T>, i: nat)
    requires NoDup(s) && i < |s|
    ensures s[i] in Elements(s) && s[i] !in Elements(s[..i])
    ensures Elements(s[..i + 1]) == Elements(s[..i]) + {s[i]}
  {
    assert s[..i + 1] == s[..i] + [s[i]];
  }

  /** What is left of the slice after a shift, and what the array holds there. */
  lemma {:induction false} ShiftedDownSlice<T>(backing: seq<T>, count: nat, x: T)
    requires count <= |backing|
    ensures x in backing[..count] ==>
              count > 0 && ShiftedDown(backing, count, x)[..count - 1] == Without(backing[..count], x)
    ensures x !in backing[..count] ==> ShiftedDown(backing, count, x) == backing
    ensures forall y | y in ShiftedDown(backing, count, x) :: y in backing
  {
    var i := IndexOf(backing[..count], x);
    if i < count {
      var r := ShiftedDown(backing, count, x);
      assert r[..count - 1] == Without(backing[..count], x);
    }
  }

  /** The search loop of the link operations. */
  method Find<T(==)>(s: seq<T>, x: T) returns (i: nat)
    ensures i == IndexOf(s, x)
  {
    i := 0;
    while i < |s| && s[i] != x
      invariant i <= |s|
      invariant forall j | 0 <= j < i :: s[j] != x
    {
      i := i + 1;
    }
  }

  /** The first update of a group that has not been started. */
  method NextUpdate(g: Group) returns (next: Option<ResourceUpdate>)
    ensures next.None? ==> forall i | 0 <= i < |g.updates| :: g.updates[i].state != NotStarted
    ensures next.Some? ==> exists i | 0 <= i < |g.updates| ::
              && g.updates[i] == next.value && g.updates[i].state == NotStarted
              && forall j | 0 <= j < i :: g.updates[j].state != NotStarted
  {
    for i := 0 to |g.updates|
      invariant forall j | 0 <= j < i :: g.updates[j].state != NotStarted
    {
      if g.updates[i].state == NotStarted {
        return Some(g.updates[i]);
      }
    }
    return None;
  }

  /** Takes out the update with the same URI and operation. */
  method Pop(g: Group, update: ResourceUpdate) returns (r: Group)
    ensures r == g.(updates := WithoutUpdate(g.updates, update.Node()))
  {
    for i := 0 to |g.updates|
      invariant g.updates[..i] + WithoutUpdate(g.updates[i..], update.Node()) == WithoutUpdate(g.updates, update.Node())
    {
      assert g.updates[i..][1..] == g.updates[i + 1..];
      if g.updates[i].Uri() == update.Uri() && g.updates[i].operation == update.operation {
        return g.(updates := g.updates[..i] + g.updates[i + 1..]);
      }
    }
    return g;
  }
}

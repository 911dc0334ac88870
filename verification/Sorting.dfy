/** Insertion sort by a strict order on distinct elements: what it returns is the only sorted arrangement. */
module Sorting {

  ghost predicate StrictlySorted<T(!new)>(s: seq<T>, before: (T, T) -> bool) {
    forall i, j | 0 <= i < j < |s| :: before(s[i], s[j])
  }

  ghost predicate Distinct<T>(s: seq<T>) {
    forall i, j | 0 <= i < j < |s| :: s[i] != s[j]
  }

  ghost predicate SameMembers<T(!new)>(a: seq<T>, b: seq<T>) {
    forall x :: x in a <==> x in b
  }

  /** `before` orders the given elements strictly and totally. */
  ghost predicate Orders<T(!new)>(before: (T, T) -> bool, members: iset<T>) {
    && (forall x | x in members :: !before(x, x))
    && (forall x, y | x in members && y in members :: x == y || before(x, y) || before(y, x))
    && (forall x, y, z | x in members && y in members && z in members && before(x, y) && before(y, z) :: before(x, z))
  }

  ghost predicate Within<T(!new)>(s: seq<T>, members: iset<T>) {
    forall i | 0 <= i < |s| :: s[i] in members
  }

  function Insert<T(!new)>(x: T, s: seq<T>, before: (T, T) -> bool): (r: seq<T>)
    ensures |r| == |s| + 1
  {
    if s == [] || before(x, s[0]) then [x] + s else [s[0]] + Insert(x, s[1..], before)
  }

  function SortBy<T(!new)>(s: seq<T>, before: (T, T) -> bool): (r: seq<T>)
    ensures |r| == |s|
  {
    if s == [] then [] else Insert(s[|s| - 1], SortBy(s[..|s| - 1], before), before)
  }

  lemma {:induction false} InsertMembers<T(!new)>(x: T, s: seq<T>, before: (T, T) -> bool)
    ensures SameMembers(Insert(x, s, before), [x] + s)
  {
    if s == [] || before(x, s[0]) {
    } else {
      InsertMembers(x, s[1..], before);
      assert s == [s[0]] + s[1..];
    }
  }

  lemma {:induction false} InsertSorts<T(!new)>(x: T, s: seq<T>, before: (T, T) -> bool, members: iset<T>)
    requires Orders(before, members) && Within(s, members) && x in members
    requires StrictlySorted(s, before) && x !in s
    ensures StrictlySorted(Insert(x, s, before), before)
  {
    var r := Insert(x, s, before);
    if s == [] {
    } else if before(x, s[0]) {
      forall j | 0 < j < |r| ensures before(x, r[j]) {
        assert r[j] == s[j - 1];
      }
    } else {
      var rest := Insert(x, s[1..], before);
      assert s == [s[0]] + s[1..];
      InsertSorts(x, s[1..], before, members);
      InsertMembers(x, s[1..], before);
      assert s[0] in s;
      forall j | 0 < j < |r| ensures before(s[0], r[j]) {
        assert r[j] == rest[j - 1] && rest[j - 1] in [x] + s[1..];
        if r[j] != x {
          var k :| 0 <= k < |s[1..]| && s[1..][k] == r[j];
          assert before(s[0], s[k + 1]);
        }
      }
    }
  }

  lemma {:induction false} SortBySorts<T(!new)>(s: seq<T>, before: (T, T) -> bool, members: iset<T>)
    requires Orders(before, members) && Within(s, members) && Distinct(s)
    ensures StrictlySorted(SortBy(s, before), before) && SameMembers(SortBy(s, before), s)
  {
    if s != [] {
      var front, x := s[..|s| - 1], s[|s| - 1];
      assert s == front + [x];
      SortBySorts(front, before, members);
      var sorted := SortBy(front, before);
      forall i | 0 <= i < |sorted| ensures sorted[i] in members && sorted[i] != x {
        assert sorted[i] in front;
      }
      InsertSorts(x, sorted, before, members);
      InsertMembers(x, sorted, before);
    }
  }

  /** There is only one way to arrange given elements in strict order. */
  lemma {:induction false} SortedIsUnique<T(!new)>(a: seq<T>, b: seq<T>, before: (T, T) -> bool, members: iset<T>)
    requires Orders(before, members) && Within(a, members) && Within(b, members)
    requires StrictlySorted(a, before) && StrictlySorted(b, before) && SameMembers(a, b)
    ensures a == b
  {
    HasMemberIffNonEmpty(a);
    HasMemberIffNonEmpty(b);
    if a == [] {
    } else {
      assert a[0] in b && b[0] in a;
      var i :| 0 <= i < |b| && b[i] == a[0];
      var j :| 0 <= j < |a| && a[j] == b[0];
      assert a[0] == b[0];
      TailMembers(a, before, members);
      TailMembers(b, before, members);
      forall x ensures x in a[1..] <==> x in b[1..] {
        assert x in a <==> x in b;
      }
      SortedIsUnique(a[1..], b[1..], before, members);
    }
  }

  lemma TailMembers<T(!new)>(s: seq<T>, before: (T, T) -> bool, members: iset<T>)
    requires Orders(before, members) && Within(s, members) && StrictlySorted(s, before) && s != []
    ensures forall x :: x in s[1..] <==> x in s && x != s[0]
  {
    assert s == [s[0]] + s[1..];
    assert forall k | 0 < k < |s| :: before(s[0], s[k]);
  }

  lemma HasMemberIffNonEmpty<T(!new)>(s: seq<T>)
    ensures s != [] <==> exists x :: x in s
  {
    if s != [] {
      assert s[0] in s;
    }
  }

  /** The elements of a set, in some order. */
  method Elements<T(!new)>(s: set<T>) returns (q: seq<T>)
    ensures Distinct(q) && forall x :: x in q <==> x in s
  {
    q := [];
    var pending := s;
    while pending != {}
      invariant pending <= s && Distinct(q)
      invariant forall x :: x in q <==> x in s && x !in pending
      decreases |pending|
    {
      var x :| x in pending;
      pending := pending - {x};
      q := q + [x];
    }
  }
}

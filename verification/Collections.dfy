/** Lists read as sets, as multisets and up to reordering. */
module Collections {

  function Elements<T(!new,==)>(s: seq<T>): (r: set<T>)
    ensures forall x :: x in r <==> x in s
  {
    set x | x in s
  }

  ghost predicate NoDuplicates<T>(s: seq<T>) {
    forall i, j :: 0 <= i < j < |s| ==> s[i] != s[j]
  }

  ghost predicate Permuted<T>(a: seq<T>, b: seq<T>) {
    multiset(a) == multiset(b)
  }

  lemma {:induction false} ElementsCount<T(!new)>(s: seq<T>)
    ensures |Elements(s)| <= |s|
    ensures |Elements(s)| == |s| <==> NoDuplicates(s)
  {
    if s == [] {
      assert Elements(s) == {};
    } else {
      ElementsCount(s[1..]);
      ElementsOfTail(s);
      DuplicatesOfTail(s);
    }
  }

  lemma ElementsOfTail<T(!new)>(s: seq<T>)
    requires s != []
    ensures Elements(s) == {s[0]} + Elements(s[1..])
  {
    assert s == [s[0]] + s[1..];
  }

  lemma DuplicatesOfTail<T(!new)>(s: seq<T>)
    requires s != []
    ensures NoDuplicates(s) <==> s[0] !in s[1..] && NoDuplicates(s[1..])
  {
    var rest := s[1..];
    assert forall i :: 0 <= i < |rest| ==> rest[i] == s[i + 1];
    if s[0] in rest {
      var j :| 0 <= j < |rest| && rest[j] == s[0];
      assert s[0] == s[j + 1];
    } else if NoDuplicates(rest) {
      forall i, j | 0 <= i < j < |s| ensures s[i] != s[j] {
        assert s[j] == rest[j - 1];
        if i > 0 { assert s[i] == rest[i - 1]; }
      }
    } else {
      var i, j :| 0 <= i < j < |rest| && rest[i] == rest[j];
      assert s[i + 1] == s[j + 1];
    }
  }

  lemma {:induction false} DistinctMultiplicity<T(!new)>(s: seq<T>)
    requires NoDuplicates(s)
    ensures forall x :: multiset(s)[x] == if x in s then 1 else 0
  {
    if s != [] {
      var rest := s[1..];
      assert forall i :: 0 <= i < |rest| ==> rest[i] == s[i + 1];
      DistinctMultiplicity(rest);
      assert s == [s[0]] + rest;
      assert s[0] !in rest;
    }
  }

  /** Distinct lists with the same members are reorderings of each other. */
  lemma SameMembersPermuted<T(!new)>(a: seq<T>, b: seq<T>)
    requires NoDuplicates(a) && NoDuplicates(b)
    ensures Permuted(a, b) <==> Elements(a) == Elements(b)
  {
    DistinctMultiplicity(a);
    DistinctMultiplicity(b);
    if Permuted(a, b) {
      assert forall x :: x in a <==> x in multiset(a);
      assert forall x :: x in b <==> x in multiset(b);
    }
  }

  lemma PermutedKeepsBasics<T(!new)>(a: seq<T>, b: seq<T>)
    requires Permuted(a, b)
    ensures |a| == |b| && Elements(a) == Elements(b)
    ensures NoDuplicates(a) <==> NoDuplicates(b)
  {
    assert |a| == |multiset(a)| == |multiset(b)| == |b|;
    assert forall x :: x in a <==> x in multiset(a);
    assert forall x :: x in b <==> x in multiset(b);
    ElementsCount(a);
    ElementsCount(b);
  }

  /** Distinct members of a set as large as the list are all of that set. */
  lemma Pigeonhole<T(!new)>(s: seq<T>, all: set<T>)
    requires NoDuplicates(s) && Elements(s) <= all
    ensures |s| <= |all|
    ensures |s| == |all| <==> Elements(s) == all
  {
    ElementsCount(s);
    assert all == Elements(s) + (all - Elements(s));
    assert |all| == |Elements(s)| + |all - Elements(s)|;
  }

  ghost function Map<T, U>(s: seq<T>, f: T -> U): (r: seq<U>)
    ensures |r| == |s|
    ensures forall i :: 0 <= i < |s| ==> r[i] == f(s[i])
  {
    seq(|s|, i requires 0 <= i < |s| => f(s[i]))
  }

  function Sum(s: seq<nat>): nat {
    if s == [] then 0 else s[0] + Sum(s[1..])
  }

  lemma {:induction false} SumOfConcat(a: seq<nat>, b: seq<nat>)
    ensures Sum(a + b) == Sum(a) + Sum(b)
  {
    if a == [] {
      assert a + b == b;
    } else {
      assert (a + b)[1..] == a[1..] + b;
      SumOfConcat(a[1..], b);
    }
  }

  /** The list without its position `k`. */
  ghost function Without<T>(s: seq<T>, k: nat): seq<T>
    requires k < |s|
  {
    s[..k] + s[k + 1..]
  }

  lemma PermutedWithout<T(!new)>(a: seq<T>, b: seq<T>, k: nat)
    requires a != [] && Permuted(a, b) && k < |b| && b[k] == a[0]
    ensures Permuted(a[1..], Without(b, k))
  {
    assert a == [a[0]] + a[1..];
    assert multiset(a[1..]) == multiset(a) - multiset{a[0]};
    assert b == b[..k] + [b[k]] + b[k + 1..];
    assert multiset(Without(b, k)) == multiset(b) - multiset{b[k]};
  }

  lemma HeadIsSomewhere<T(!new)>(a: seq<T>, b: seq<T>) returns (k: nat)
    requires a != [] && Permuted(a, b)
    ensures k < |b| && b[k] == a[0]
  {
    assert a[0] in multiset(a);
    assert a[0] in multiset(b);
    assert a[0] in b;
    k :| k < |b| && b[k] == a[0];
  }

  lemma {:induction false} PermutedSum(a: seq<nat>, b: seq<nat>)
    requires Permuted(a, b)
    ensures Sum(a) == Sum(b)
  {
    if a == [] {
      assert multiset(b) == multiset{};
      assert |b| == |multiset(b)|;
    } else {
      var k := HeadIsSomewhere(a, b);
      PermutedWithout(a, b, k);
      PermutedSum(a[1..], Without(b, k));
      assert b == b[..k] + ([b[k]] + b[k + 1..]);
      SumOfConcat(b[..k], [b[k]] + b[k + 1..]);
      SumOfConcat(b[..k], b[k + 1..]);
      assert ([b[k]] + b[k + 1..])[1..] == b[k + 1..];
    }
  }

  lemma {:induction false} PermutedMap<T(!new), U(!new)>(a: seq<T>, b: seq<T>, f: T -> U)
    requires Permuted(a, b)
    ensures Permuted(Map(a, f), Map(b, f))
  {
    if a == [] {
      assert |b| == |multiset(b)| == 0;
    } else {
      var k := HeadIsSomewhere(a, b);
      PermutedWithout(a, b, k);
      PermutedMap(a[1..], Without(b, k), f);
      assert Map(a, f) == [f(a[0])] + Map(a[1..], f);
      assert Map(b, f) == Map(b, f)[..k] + [f(b[k])] + Map(b, f)[k + 1..];
      assert Map(Without(b, k), f) == Map(b, f)[..k] + Map(b, f)[k + 1..];
    }
  }

  // ---------- a loop that collects what it has seen ----------

  ghost predicate Collected<T(!new)>(seen: set<T>, s: seq<T>, i: nat)
    requires i <= |s|
  {
    seen == Elements(s[..i]) && NoDuplicates(s[..i])
  }

  lemma CollectNone<T(!new)>(s: seq<T>)
    ensures Collected({}, s, 0)
  {
  }

  lemma CollectNext<T(!new)>(seen: set<T>, s: seq<T>, i: nat)
    requires i < |s| && Collected(seen, s, i)
    ensures s[i] in seen ==> !NoDuplicates(s)
    ensures s[i] !in seen ==> Collected(seen + {s[i]}, s, i + 1)
  {
    if s[i] in seen {
      var j :| 0 <= j < i && s[..i][j] == s[i];
      assert s[j] == s[i];
    } else {
      assert s[..i + 1] == s[..i] + [s[i]];
      assert forall j :: 0 <= j < i ==> s[..i][j] in s[..i];
    }
  }

  lemma CollectedAll<T(!new)>(seen: set<T>, s: seq<T>)
    requires Collected(seen, s, |s|)
    ensures seen == Elements(s) && NoDuplicates(s)
  {
    assert s[..|s|] == s;
  }
}

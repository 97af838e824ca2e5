/** Byte order on strings, and the order in which a BTreeMap hands out its keys. */
module ByteOrder {

  predicate Below(a: string, b: string) {
    if b == "" then false
    else if a == "" then true
    else if a[0] != b[0] then a[0] < b[0]
    else Below(a[1..], b[1..])
  }

  lemma {:induction false} BelowIsTransitive(a: string, b: string, c: string)
    requires Below(a, b) && Below(b, c)
    ensures Below(a, c)
  {
    if a != "" && a[0] == b[0] && b[0] == c[0] {
      BelowIsTransitive(a[1..], b[1..], c[1..]);
    }
  }

  lemma {:induction false} BelowIsAsymmetric(a: string, b: string)
    requires Below(a, b)
    ensures !Below(b, a) && a != b
  {
    if a != "" && a[0] == b[0] {
      BelowIsAsymmetric(a[1..], b[1..]);
    }
  }

  lemma {:induction false} BelowIsTotal(a: string, b: string)
    ensures a == b || Below(a, b) || Below(b, a)
  {
    if a != "" && b != "" && a[0] == b[0] {
      BelowIsTotal(a[1..], b[1..]);
      if a[1..] == b[1..] {
        assert a == [a[0]] + a[1..] == [b[0]] + b[1..] == b;
      }
    }
  }

  lemma {:induction false} PrefixKeepsOrder(p: string, a: string, b: string)
    ensures Below(p + a, p + b) == Below(a, b)
  {
    if p == "" {
      assert p + a == a && p + b == b;
    } else {
      assert (p + a)[1..] == p[1..] + a && (p + b)[1..] == p[1..] + b;
      PrefixKeepsOrder(p[1..], a, b);
    }
  }

  /** Strictly increasing in byte order. */
  ghost predicate Ascending(keys: seq<string>) {
    forall i, j :: 0 <= i < j < |keys| ==> Below(keys[i], keys[j])
  }

  predicate IsLeast(keys: set<string>, m: string) {
    m in keys && forall k :: k in keys && k != m ==> Below(m, k)
  }

  lemma {:induction false} LeastExists(keys: set<string>)
    requires keys != {}
    ensures exists m :: IsLeast(keys, m)
  {
    var x :| x in keys;
    var rest := keys - {x};
    if rest == {} {
      assert keys == {x};
      assert IsLeast(keys, x);
    } else {
      LeastExists(rest);
      var m :| IsLeast(rest, m);
      BelowIsTotal(x, m);
      if Below(x, m) {
        forall k | k in keys && k != x ensures Below(x, k) {
          if k != m { BelowIsTransitive(x, m, k); }
        }
        assert IsLeast(keys, x);
      } else {
        assert IsLeast(keys, m);
      }
    }
  }

  function Least(keys: set<string>): (m: string)
    requires keys != {}
    ensures m in keys && IsLeast(keys, m)
  {
    LeastExists(keys);
    assert forall m, n :: IsLeast(keys, m) && IsLeast(keys, n) ==> m == n by {
      forall m, n | IsLeast(keys, m) && IsLeast(keys, n) && m != n ensures false {
        BelowIsAsymmetric(m, n);
      }
    }
    var m :| m in keys && IsLeast(keys, m);
    m
  }

  /** The keys of a BTreeMap in iteration order. */
  function SortedKeys(keys: set<string>): (r: seq<string>)
    ensures Ascending(r)
    ensures forall k :: k in r <==> k in keys
    ensures |r| == |keys|
  {
    if keys == {} then []
    else
      var m := Least(keys);
      [m] + SortedKeys(keys - {m})
  }

  /** An ascending list is determined by its members. */
  lemma {:induction false} AscendingIsUnique(a: seq<string>, b: seq<string>)
    requires Ascending(a) && Ascending(b)
    requires forall k :: k in a <==> k in b
    ensures a == b
  {
    if a == [] {
      assert forall i :: 0 <= i < |b| ==> b[i] in b;
    } else {
      assert a[0] in b && b[0] in a;
      if a[0] != b[0] {
        assert Below(a[0], b[0]) by {
          var i :| 0 <= i < |a| && a[i] == b[0];
        }
        assert Below(b[0], a[0]) by {
          var i :| 0 <= i < |b| && b[i] == a[0];
        }
        BelowIsAsymmetric(a[0], b[0]);
      }
      HeadIsNotInTail(a);
      HeadIsNotInTail(b);
      assert a == [a[0]] + a[1..] && b == [b[0]] + b[1..];
      forall k ensures k in a[1..] <==> k in b[1..] {
        if k in a[1..] { assert k in a; }
        if k in b[1..] { assert k in b; }
      }
      AscendingIsUnique(a[1..], b[1..]);
    }
  }

  lemma HeadIsNotInTail(a: seq<string>)
    requires Ascending(a) && a != []
    ensures a[0] !in a[1..]
  {
    forall i | 1 <= i < |a| ensures a[i] != a[0] {
      BelowIsAsymmetric(a[0], a[i]);
    }
  }

  lemma AscendingHasNoDuplicates(a: seq<string>)
    requires Ascending(a)
    ensures forall i, j :: 0 <= i < j < |a| ==> a[i] != a[j]
  {
    forall i, j | 0 <= i < j < |a| ensures a[i] != a[j] {
      BelowIsAsymmetric(a[i], a[j]);
    }
  }
}

/** Go's byte-wise string order, and sorting by it. */
module Order {
  import opened Utf8
  import opened Sequences

  predicate Less(a: Bytes, b: Bytes) {
    b != [] && (a == [] || a[0] < b[0] || (a[0] == b[0] && Less(a[1..], b[1..])))
  }

  lemma {:induction false} LessTotal(a: Bytes, b: Bytes)
    ensures Less(a, b) || Less(b, a) || a == b
    ensures !(Less(a, b) && Less(b, a))
    ensures !Less(a, a)
  {
    if a != [] && b != [] {
      LessTotal(a[1..], b[1..]);
      assert a == [a[0]] + a[1..] && b == [b[0]] + b[1..];
    }
    if a != [] { LessTotal(a[1..], a[1..]); }
  }

  lemma {:induction false} LessTransitive(a: Bytes, b: Bytes, c: Bytes)
    requires Less(a, b) && Less(b, c)
    ensures Less(a, c)
  {
    if a != [] && a[0] == b[0] == c[0] {
      LessTransitive(a[1..], b[1..], c[1..]);
    }
  }

  ghost predicate Ascending(s: seq<Bytes>) {
    forall i, j :: 0 <= i < j < |s| ==> Less(s[i], s[j])
  }

  function Insert(s: seq<Bytes>, x: Bytes): (r: seq<Bytes>)
    ensures multiset(r) == multiset(s) + multiset{x}
    ensures |r| == |s| + 1
  {
    if s == [] || !Less(s[0], x) then [x] + s
    else assert s == [s[0]] + s[1..]; [s[0]] + Insert(s[1..], x)
  }

  /** sort.Strings. */
  function SortStrings(s: seq<Bytes>): (r: seq<Bytes>)
    ensures multiset(r) == multiset(s)
    ensures |r| == |s|
  {
    if s == [] then []
    else assert s == s[..|s| - 1] + [s[|s| - 1]]; Insert(SortStrings(s[..|s| - 1]), s[|s| - 1])
  }

  lemma {:induction false} InsertAscending(s: seq<Bytes>, x: Bytes)
    requires Ascending(s) && x !in s
    ensures Ascending(Insert(s, x))
  {
    if s == [] {
    } else if Less(s[0], x) {
      InsertAscending(s[1..], x);
      var r := Insert(s[1..], x);
      forall j | 0 <= j < |r| ensures Less(s[0], r[j]) {
        assert r[j] in multiset(r);
        if r[j] != x {
          assert r[j] in multiset(s[1..]);
          var i :| 0 <= i < |s[1..]| && s[1..][i] == r[j];
          assert s[i + 1] == r[j];
        }
      }
    } else {
      LessTotal(s[0], x);
      assert x != s[0];
      forall j | 0 <= j < |s| ensures Less(x, s[j]) {
        if j > 0 { LessTransitive(x, s[0], s[j]); }
      }
    }
  }

  /** Sorting distinct strings yields a strictly ascending sequence of the same strings. */
  lemma {:induction false} SortAscending(s: seq<Bytes>)
    requires Distinct(s)
    ensures Ascending(SortStrings(s)) && Elements(SortStrings(s)) == Elements(s)
  {
    if s != [] {
      var t := s[..|s| - 1];
      SortAscending(t);
      assert s[|s| - 1] in SortStrings(t) <==> s[|s| - 1] in multiset(SortStrings(t));
      InsertAscending(SortStrings(t), s[|s| - 1]);
    }
    forall x ensures x in Elements(SortStrings(s)) <==> x in Elements(s) {
      assert x in multiset(SortStrings(s)) <==> x in multiset(s);
    }
  }

  /** A set of strings has one strictly ascending listing. */
  lemma {:induction false} AscendingUnique(s: seq<Bytes>, t: seq<Bytes>)
    requires Ascending(s) && Ascending(t) && Elements(s) == Elements(t)
    ensures s == t
  {
    assert s != [] ==> s[0] in Elements(s);
    assert t != [] ==> t[0] in Elements(t);
    if s != [] && t != [] {
      assert s[0] in Elements(t);
      var i :| 0 <= i < |t| && t[i] == s[0];
      assert t[0] in Elements(s);
      var j :| 0 <= j < |s| && s[j] == t[0];
      LessTotal(s[0], t[0]);
      assert s[0] == t[0];
      ElementsTail(s);
      ElementsTail(t);
      AscendingUnique(s[1..], t[1..]);
      assert s == [s[0]] + s[1..] && t == [t[0]] + t[1..];
    }
  }

  lemma ElementsTail(s: seq<Bytes>)
    requires s != [] && Ascending(s)
    ensures Elements(s[1..]) == Elements(s) - {s[0]}
  {
    LessTotal(s[0], s[0]);
    forall x | x in Elements(s) && x != s[0] ensures x in Elements(s[1..]) {
      var i :| 0 <= i < |s| && s[i] == x;
      assert s[1..][i - 1] == x;
    }
    forall x | x in Elements(s[1..]) ensures x in Elements(s) && x != s[0] {
      var i :| 0 <= i < |s[1..]| && s[1..][i] == x;
      assert s[i + 1] == x && Less(s[0], s[i + 1]);
    }
  }

  /** Every finite set of strings has a listing without repetition. */
  lemma {:induction false} ListingExists(keys: set<Bytes>) returns (s: seq<Bytes>)
    ensures Distinct(s) && Elements(s) == keys
    decreases keys
  {
    if keys == {} {
      s := [];
    } else {
      var k :| k in keys;
      var t := ListingExists(keys - {k});
      AppendDistinct(t, k);
      s := t + [k];
    }
  }

  lemma AppendDistinct(s: seq<Bytes>, k: Bytes)
    requires Distinct(s) && k !in Elements(s)
    ensures Distinct(s + [k]) && Elements(s + [k]) == Elements(s) + {k}
  {
    forall i | 0 <= i < |s| ensures (s + [k])[i] != k {
      assert s[i] in Elements(s);
    }
    forall x | x in Elements(s) + {k} ensures x in Elements(s + [k]) {
      if x == k { assert (s + [k])[|s|] == x; }
      else { var i :| 0 <= i < |s| && s[i] == x; assert (s + [k])[i] == x; }
    }
  }

  /** THE sorted listing of a set of strings. */
  ghost function Sorted(keys: set<Bytes>): (s: seq<Bytes>)
    ensures Ascending(s) && Elements(s) == keys
  {
    assert exists s :: Ascending(s) && Elements(s) == keys by {
      var t := ListingExists(keys);
      SortAscending(t);
    }
    var s :| Ascending(s) && Elements(s) == keys;
    s
  }

  /** sortedKeys: whatever order the map is iterated in, the result is the one
      ascending listing of its keys. */
  method SortedKeys<V>(m: map<Bytes, V>) returns (keys: seq<Bytes>)
    ensures keys == Sorted(m.Keys)
  {
    keys := [];
    var rest := m.Keys;
    while rest != {}
      invariant rest <= m.Keys
      invariant Distinct(keys)
      invariant Elements(keys) == m.Keys - rest
    {
      var k :| k in rest;
      AppendDistinct(keys, k);
      keys := keys + [k];
      rest := rest - {k};
    }
    SortAscending(keys);
    keys := SortStrings(keys);
    AscendingUnique(keys, Sorted(m.Keys));
  }
}

/** Orders on byte strings and sorting by them. */
module ByteOrder {
  import opened Prelude

  /** Bytewise lexicographic order, a proper prefix first. */
  predicate Lex(a: Bytes, b: Bytes)
  {
    b != [] && (a == [] || a[0] < b[0] || (a[0] == b[0] && Lex(a[1..], b[1..])))
  }

  /** Section 3.9 of RFC 7049: the shorter string first, strings of one length bytewise. */
  predicate LengthFirst(a: Bytes, b: Bytes)
  {
    |a| < |b| || (|a| == |b| && Lex(a, b))
  }

  /** `less` is a strict total order on `keys`. */
  ghost predicate Orders(less: (Bytes, Bytes) -> bool, keys: set<Bytes>)
  {
    && (forall a | a in keys :: !less(a, a))
    && (forall a, b | a in keys && b in keys :: less(a, b) || a == b || less(b, a))
    && (forall a, b, c | a in keys && b in keys && c in keys :: less(a, b) && less(b, c) ==> less(a, c))
  }

  lemma {:induction false} LexIrreflexive(a: Bytes)
    ensures !Lex(a, a)
  {
    if a != [] { LexIrreflexive(a[1..]); }
  }

  lemma {:induction false} LexTotal(a: Bytes, b: Bytes)
    ensures Lex(a, b) || a == b || Lex(b, a)
  {
    if a != [] && b != [] && a[0] == b[0] {
      LexTotal(a[1..], b[1..]);
      if a[1..] == b[1..] {
        assert a == [a[0]] + a[1..] && b == [b[0]] + b[1..];
      }
    }
  }

  lemma {:induction false} LexTransitive(a: Bytes, b: Bytes, c: Bytes)
    requires Lex(a, b) && Lex(b, c)
    ensures Lex(a, c)
  {
    if a != [] && a[0] == b[0] == c[0] {
      LexTransitive(a[1..], b[1..], c[1..]);
    }
  }

  /** The first byte that differs decides, or the end of the shorter string. */
  lemma {:induction false} LexIff(a: Bytes, b: Bytes)
    ensures Lex(a, b) <==>
            exists i | 0 <= i <= |a| && i < |b| :: a[..i] == b[..i] && (i == |a| || a[i] < b[i])
  {
    if a != [] && b != [] && a[0] == b[0] {
      LexIff(a[1..], b[1..]);
      if i :| 0 <= i <= |a[1..]| && i < |b[1..]| && a[1..][..i] == b[1..][..i]
              && (i == |a[1..]| || a[1..][i] < b[1..][i]) {
        assert a[..i + 1] == [a[0]] + a[1..][..i] && b[..i + 1] == [b[0]] + b[1..][..i];
      }
      if i :| 0 <= i <= |a| && i < |b| && a[..i] == b[..i] && (i == |a| || a[i] < b[i]) {
        assert i > 0;
        assert a[1..][..i - 1] == a[..i][1..] && b[1..][..i - 1] == b[..i][1..];
      }
    } else {
      assert a[..0] == b[..0];
      assert forall i | 0 < i <= |a| && i < |b| && a[..i] == b[..i] :: a[..i][0] == b[..i][0];
    }
  }

  lemma LexOrders(keys: set<Bytes>)
    ensures Orders(Lex, keys)
  {
    forall a | a in keys ensures !Lex(a, a) { LexIrreflexive(a); }
    forall a, b | a in keys && b in keys ensures Lex(a, b) || a == b || Lex(b, a) { LexTotal(a, b); }
    forall a, b, c | a in keys && b in keys && c in keys && Lex(a, b) && Lex(b, c) ensures Lex(a, c) {
      LexTransitive(a, b, c);
    }
  }

  lemma LengthFirstOrders(keys: set<Bytes>)
    ensures Orders(LengthFirst, keys)
  {
    LexOrders(keys);
  }

  /** A difference inside a prefix of equal length decides, whatever follows. */
  lemma {:induction false} LexDecidedByPrefix(p: Bytes, q: Bytes, x: Bytes, y: Bytes)
    requires |p| == |q| && Lex(p, q)
    ensures Lex(p + x, q + y)
  {
    assert (p + x)[1..] == p[1..] + x && (q + y)[1..] == q[1..] + y;
    if p[0] == q[0] {
      LexDecidedByPrefix(p[1..], q[1..], x, y);
    }
  }

  lemma {:induction false} LexCommonPrefix(p: Bytes, x: Bytes, y: Bytes)
    ensures Lex(p + x, p + y) <==> Lex(x, y)
  {
    if p == [] {
      assert p + x == x && p + y == y;
    } else {
      assert (p + x)[1..] == p[1..] + x && (p + y)[1..] == p[1..] + y;
      LexCommonPrefix(p[1..], x, y);
    }
  }

  // ---------- Sorting ----------

  predicate Sorted(less: (Bytes, Bytes) -> bool, s: seq<Bytes>)
  {
    forall i, j | 0 <= i < j < |s| :: less(s[i], s[j])
  }

  ghost predicate Distinct(s: seq<Bytes>)
  {
    forall i, j | 0 <= i < j < |s| :: s[i] != s[j]
  }

  /** `order` lists the elements of `keys`, each once: one iteration over a Go map's keys. */
  ghost predicate Enumerates(order: seq<Bytes>, keys: set<Bytes>)
  {
    && Distinct(order)
    && (forall k :: k in order <==> k in keys)
  }

  /** An enumeration has as many elements as the set. */
  lemma {:induction false} DistinctLength(s: seq<Bytes>, keys: set<Bytes>)
    requires Enumerates(s, keys)
    ensures |s| == |keys|
  {
    if s == [] {
      assert keys == {};
    } else {
      assert s[0] in keys;
      forall x ensures x in s[1..] <==> x in keys - {s[0]} {
        assert x in s <==> x == s[0] || x in s[1..];
      }
      DistinctLength(s[1..], keys - {s[0]});
    }
  }

  function Insert(less: (Bytes, Bytes) -> bool, x: Bytes, s: seq<Bytes>): (r: seq<Bytes>)
    ensures multiset(r) == multiset(s) + multiset{x}
  {
    if s == [] || less(x, s[0]) then [x] + s
    else
      assert s == [s[0]] + s[1..];
      [s[0]] + Insert(less, x, s[1..])
  }

  function SortBy(less: (Bytes, Bytes) -> bool, s: seq<Bytes>): (r: seq<Bytes>)
    ensures multiset(r) == multiset(s)
  {
    if s == [] then []
    else
      assert s == [s[0]] + s[1..];
      Insert(less, s[0], SortBy(less, s[1..]))
  }

  lemma SameMembers(s: seq<Bytes>, t: seq<Bytes>)
    requires multiset(s) == multiset(t)
    ensures |s| == |t| && forall x :: x in s <==> x in t
  {
    assert |s| == |multiset(s)| == |multiset(t)| == |t|;
    forall x ensures x in s <==> x in t {
      assert x in s <==> x in multiset(s);
      assert x in t <==> x in multiset(t);
    }
  }

  lemma {:induction false} InsertSorted(less: (Bytes, Bytes) -> bool, x: Bytes, s: seq<Bytes>, keys: set<Bytes>)
    requires Orders(less, keys) && x in keys && forall y | y in s :: y in keys
    requires Sorted(less, s) && x !in s
    ensures Sorted(less, Insert(less, x, s))
  {
    if s != [] && !less(x, s[0]) {
      InsertSorted(less, x, s[1..], keys);
      var r := Insert(less, x, s[1..]);
      SameMembers(r, s[1..] + [x]);
      forall k | 0 <= k < |r| ensures less(s[0], r[k]) {
        assert r[k] in s[1..] + [x];
      }
    }
  }

  lemma {:induction false} SortBySorts(less: (Bytes, Bytes) -> bool, s: seq<Bytes>, keys: set<Bytes>)
    requires Orders(less, keys) && Distinct(s) && forall y | y in s :: y in keys
    ensures Sorted(less, SortBy(less, s))
  {
    if s != [] {
      SortBySorts(less, s[1..], keys);
      SameMembers(SortBy(less, s[1..]), s[1..]);
      assert s[0] !in s[1..];
      InsertSorted(less, s[0], SortBy(less, s[1..]), keys);
    }
  }

  /** A set has one strictly increasing listing. */
  lemma {:induction false} SortedUnique(less: (Bytes, Bytes) -> bool, s: seq<Bytes>, t: seq<Bytes>, keys: set<Bytes>)
    requires Orders(less, keys) && Sorted(less, s) && Sorted(less, t)
    requires forall x | x in s :: x in keys
    requires forall x :: x in s <==> x in t
    ensures s == t
  {
    assert forall k | 0 <= k < |s| :: s[k] in t;
    assert forall k | 0 <= k < |t| :: t[k] in s;
    if s != [] && t != [] {
      assert s[0] in t && t[0] in s;
      assert s[0] == t[0];
      forall x ensures x in s[1..] <==> x in t[1..] {
        assert x in s <==> x == s[0] || x in s[1..];
        assert x in t <==> x == t[0] || x in t[1..];
      }
      SortedUnique(less, s[1..], t[1..], keys);
      assert s == [s[0]] + s[1..] && t == [t[0]] + t[1..];
    }
  }

  /** Sorting an enumeration gives a strictly increasing permutation of it. */
  lemma SortEnumeration(less: (Bytes, Bytes) -> bool, order: seq<Bytes>, keys: set<Bytes>)
    requires Orders(less, keys) && Enumerates(order, keys)
    ensures Enumerates(SortBy(less, order), keys) && Sorted(less, SortBy(less, order))
    ensures multiset(SortBy(less, order)) == multiset(order)
  {
    SortBySorts(less, order, keys);
    SameMembers(SortBy(less, order), order);
  }

  /** Sorting forgets the iteration order: only the set of keys matters. */
  lemma SortIgnoresOrder(less: (Bytes, Bytes) -> bool, order1: seq<Bytes>, order2: seq<Bytes>, keys: set<Bytes>)
    requires Orders(less, keys) && Enumerates(order1, keys) && Enumerates(order2, keys)
    ensures SortBy(less, order1) == SortBy(less, order2)
  {
    SortEnumeration(less, order1, keys);
    SortEnumeration(less, order2, keys);
    SortedUnique(less, SortBy(less, order1), SortBy(less, order2), keys);
  }
}

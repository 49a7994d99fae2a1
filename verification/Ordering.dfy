/**
 The orders the service sorts by. Every ORDER BY and every sorted(...) it relies on
 compares a tuple of strings and numbers, so one key type and one order serve them all.
 Strings compare by code point, as both the SQL engine and the host language do.
 */
module Ordering {

  datatype SortKey = SortKey(major: int, name: string, minor: int, text: string, last: string)

  predicate StrLess(a: string, b: string) {
    if b == "" then false
    else if a == "" then true
    else a[0] < b[0] || (a[0] == b[0] && StrLess(a[1..], b[1..]))
  }

  predicate Less(a: SortKey, b: SortKey) {
    || a.major < b.major
    || (a.major == b.major
        && (|| StrLess(a.name, b.name)
            || (a.name == b.name
                && (|| a.minor < b.minor
                    || (a.minor == b.minor
                        && (|| StrLess(a.text, b.text)
                            || (a.text == b.text && StrLess(a.last, b.last))))))))
  }

  predicate Leq(a: SortKey, b: SortKey) {
    !Less(b, a)
  }

  lemma {:induction false} StrTrichotomy(a: string, b: string)
    ensures StrLess(a, b) || a == b || StrLess(b, a)
    ensures !(StrLess(a, b) && StrLess(b, a))
    ensures !StrLess(a, a)
  {
    if a != "" && b != "" {
      StrTrichotomy(a[1..], b[1..]);
      assert a == [a[0]] + a[1..] && b == [b[0]] + b[1..];
    }
    if a != "" {
      StrTrichotomy(a[1..], a[1..]);
    }
  }

  lemma {:induction false} StrTransitive(a: string, b: string, c: string)
    requires StrLess(a, b) && StrLess(b, c)
    ensures StrLess(a, c)
  {
    if a != "" && a[0] == b[0] == c[0] {
      StrTransitive(a[1..], b[1..], c[1..]);
    }
  }

  lemma {:induction false} Trichotomy(a: SortKey, b: SortKey)
    ensures Less(a, b) || a == b || Less(b, a)
    ensures !(Less(a, b) && Less(b, a))
    ensures !Less(a, a)
  {
    StrTrichotomy(a.name, b.name);
    StrTrichotomy(a.text, b.text);
    StrTrichotomy(a.last, b.last);
  }

  lemma {:induction false} Transitive(a: SortKey, b: SortKey, c: SortKey)
    requires Less(a, b) && Less(b, c)
    ensures Less(a, c)
  {
    if StrLess(a.name, b.name) && StrLess(b.name, c.name) {
      StrTransitive(a.name, b.name, c.name);
    }
    if StrLess(a.text, b.text) && StrLess(b.text, c.text) {
      StrTransitive(a.text, b.text, c.text);
    }
    if StrLess(a.last, b.last) && StrLess(b.last, c.last) {
      StrTransitive(a.last, b.last, c.last);
    }
  }

  lemma {:induction false} LeqTransitive(a: SortKey, b: SortKey, c: SortKey)
    requires Leq(a, b) && Leq(b, c)
    ensures Leq(a, c)
  {
    Trichotomy(a, b);
    Trichotomy(b, c);
    Trichotomy(a, c);
    if Less(c, a) && Less(a, b) {
      Transitive(c, a, b);
    }
  }

  // ---------------------------------------------------------------------------
  // Enumerating a table in key order
  // ---------------------------------------------------------------------------

  ghost predicate Injective<T(!new)>(s: set<T>, key: T -> SortKey) {
    forall x, y :: x in s && y in s && key(x) == key(y) ==> x == y
  }

  ghost predicate StrictlySorted<T>(r: seq<T>, key: T -> SortKey) {
    forall i, j :: 0 <= i < j < |r| ==> Less(key(r[i]), key(r[j]))
  }

  ghost predicate IsLeast<T(!new)>(m: T, s: set<T>, key: T -> SortKey) {
    m in s && forall x :: x in s ==> Leq(key(m), key(x))
  }

  lemma {:induction false} LeastExists<T(!new)>(s: set<T>, key: T -> SortKey)
    requires s != {}
    ensures exists m :: IsLeast(m, s, key)
    decreases |s|
  {
    var x :| x in s;
    Trichotomy(key(x), key(x));
    if s == {x} {
      assert IsLeast(x, s, key);
    } else {
      var rest := s - {x};
      assert s == rest + {x};
      LeastExists(rest, key);
      var m :| IsLeast(m, rest, key);
      Trichotomy(key(m), key(x));
      var best := if Less(key(x), key(m)) then x else m;
      forall y | y in s ensures Leq(key(best), key(y)) {
        if y != x && best == x {
          LeqTransitive(key(x), key(m), key(y));
        }
      }
      assert IsLeast(best, s, key);
    }
  }

  /** The elements of `s` in key order; unique when the key tells them apart. */
  ghost function Enumerate<T(!new)>(s: set<T>, key: T -> SortKey): (r: seq<T>)
    ensures |r| == |s|
    ensures forall x :: x in r <==> x in s
    decreases |s|
  {
    if s == {} then []
    else
      LeastExists(s, key);
      var m :| IsLeast(m, s, key);
      [m] + Enumerate(s - {m}, key)
  }

  lemma {:induction false} PrependLeast<T(!new)>(m: T, r: seq<T>, key: T -> SortKey)
    requires StrictlySorted(r, key)
    requires forall x :: x in r ==> Less(key(m), key(x))
    ensures StrictlySorted([m] + r, key)
  {
  }

  lemma {:induction false} EnumerateSorted<T(!new)>(s: set<T>, key: T -> SortKey)
    requires Injective(s, key)
    ensures StrictlySorted(Enumerate(s, key), key)
    decreases |s|
  {
    if s != {} {
      var m := Enumerate(s, key)[0];
      var rest := Enumerate(s - {m}, key);
      assert IsLeast(m, s, key) && Enumerate(s, key) == [m] + rest;
      EnumerateSorted(s - {m}, key);
      forall x | x in rest ensures Less(key(m), key(x)) {
        assert x in s - {m};
        Trichotomy(key(m), key(x));
      }
      PrependLeast(m, rest, key);
    }
  }

  lemma {:induction false} SortedIsDistinct<T>(r: seq<T>, key: T -> SortKey)
    requires StrictlySorted(r, key)
    ensures forall i, j :: 0 <= i < j < |r| ==> r[i] != r[j]
  {
    forall i, j | 0 <= i < j < |r| ensures r[i] != r[j] {
      Trichotomy(key(r[i]), key(r[j]));
    }
  }

  lemma {:induction false} HeadIsLeast<T(!new)>(r: seq<T>, x: T, key: T -> SortKey)
    requires StrictlySorted(r, key) && x in r
    ensures Leq(key(r[0]), key(x))
    ensures key(x) == key(r[0]) ==> x == r[0]
  {
    var i :| 0 <= i < |r| && r[i] == x;
    Trichotomy(key(r[0]), key(x));
    assert i > 0 ==> Less(key(r[0]), key(r[i]));
  }

  /** A table has only one listing in strictly increasing key order. */
  lemma {:induction false} SortedListingUnique<T(!new)>(a: seq<T>, b: seq<T>, key: T -> SortKey)
    requires StrictlySorted(a, key) && StrictlySorted(b, key)
    requires forall x :: x in a <==> x in b
    ensures a == b
  {
    assert |a| > 0 ==> a[0] in a;
    assert |b| > 0 ==> b[0] in b;
    if a != [] {
      HeadIsLeast(a, b[0], key);
      HeadIsLeast(b, a[0], key);
      Trichotomy(key(a[0]), key(b[0]));
      SortedIsDistinct(a, key);
      SortedIsDistinct(b, key);
      assert a == [a[0]] + a[1..] && b == [b[0]] + b[1..];
      forall x ensures x in a[1..] <==> x in b[1..] {
        assert x in a[1..] <==> x in a && x != a[0];
        assert x in b[1..] <==> x in b && x != b[0];
      }
      SortedListingUnique(a[1..], b[1..], key);
    }
  }

  lemma {:induction false} ListingIsEnumerate<T(!new)>(r: seq<T>, s: set<T>, key: T -> SortKey)
    requires StrictlySorted(r, key)
    requires forall x :: x in r <==> x in s
    ensures r == Enumerate(s, key)
  {
    SortedIsDistinct(r, key);
    forall x, y | x in s && y in s && key(x) == key(y) ensures x == y {
      var i :| 0 <= i < |r| && r[i] == x;
      var j :| 0 <= j < |r| && r[j] == y;
      Trichotomy(key(x), key(y));
    }
    EnumerateSorted(s, key);
    SortedListingUnique(r, Enumerate(s, key), key);
  }

  /** A cursor over a table in key order. */
  method Select<T(!new)>(s: set<T>, key: T -> SortKey) returns (r: seq<T>)
    requires Injective(s, key)
    ensures r == Enumerate(s, key)
  {
    r := [];
    var rest := s;
    while rest != {}
      invariant rest <= s
      invariant StrictlySorted(r, key)
      invariant forall x :: x in s <==> x in rest || x in r
      invariant forall x, y :: x in r && y in rest ==> Less(key(x), key(y))
      decreases |rest|
    {
      LeastExists(rest, key);
      var m :| m in rest && forall x :: x in rest ==> Leq(key(m), key(x));
      forall y | y in rest - {m} ensures Less(key(m), key(y)) {
        assert m in s && y in s && Leq(key(m), key(y));
        Trichotomy(key(m), key(y));
      }
      r := r + [m];
      rest := rest - {m};
    }
    ListingIsEnumerate(r, s, key);
  }

  // ---------------------------------------------------------------------------
  // Stable sort of a list
  // ---------------------------------------------------------------------------

  function Insert<T>(x: T, s: seq<T>, key: T -> SortKey): seq<T> {
    if s == [] || Leq(key(x), key(s[0])) then [x] + s
    else [s[0]] + Insert(x, s[1..], key)
  }

  /** Stable sort: elements with equal keys keep their relative order. */
  function StableSort<T>(s: seq<T>, key: T -> SortKey): seq<T> {
    if s == [] then [] else Insert(s[0], StableSort(s[1..], key), key)
  }

  ghost predicate Sorted<T>(s: seq<T>, key: T -> SortKey) {
    forall i, j :: 0 <= i < j < |s| ==> Leq(key(s[i]), key(s[j]))
  }

  /** Where an element goes: behind all that are less, in front of the first that is not. */
  lemma {:induction false} InsertAt<T>(x: T, s: seq<T>, key: T -> SortKey, n: nat)
    requires n <= |s| && (n < |s| ==> Leq(key(x), key(s[n])))
    requires forall i :: 0 <= i < n ==> !Leq(key(x), key(s[i]))
    ensures Insert(x, s, key) == s[..n] + ([x] + s[n..])
    decreases n
  {
    if n == 0 {
      assert s[..0] + ([x] + s[0..]) == [x] + s;
    } else {
      InsertAt(x, s[1..], key, n - 1);
      assert s[1..][..n - 1] == s[1..n] && s[1..][n - 1..] == s[n..];
      assert s[..n] == [s[0]] + s[1..n];
    }
  }

  lemma {:induction false} InsertElements<T>(x: T, s: seq<T>, key: T -> SortKey)
    ensures multiset(Insert(x, s, key)) == multiset([x] + s)
  {
    if s == [] || Leq(key(x), key(s[0])) {
    } else {
      InsertElements(x, s[1..], key);
      assert s == [s[0]] + s[1..];
      assert [x] + s == [x] + ([s[0]] + s[1..]);
      assert multiset([x] + s[1..]) == multiset([x]) + multiset(s[1..]);
    }
  }

  lemma {:induction false} InsertSorted<T>(x: T, s: seq<T>, key: T -> SortKey)
    requires Sorted(s, key)
    ensures Sorted(Insert(x, s, key), key)
  {
    if s == [] {
    } else if Leq(key(x), key(s[0])) {
      forall j | 0 <= j < |s| ensures Leq(key(x), key(s[j])) {
        if j > 0 { LeqTransitive(key(x), key(s[0]), key(s[j])); }
      }
    } else {
      InsertSorted(x, s[1..], key);
      InsertElements(x, s[1..], key);
      Trichotomy(key(x), key(s[0]));
      var r := Insert(x, s[1..], key);
      forall y | y in r ensures Leq(key(s[0]), key(y)) {
        assert y in multiset(r);
        assert y in [x] + s[1..];
      }
    }
  }

  lemma {:induction false} StableSortSorts<T>(s: seq<T>, key: T -> SortKey)
    ensures Sorted(StableSort(s, key), key)
    ensures multiset(StableSort(s, key)) == multiset(s)
  {
    if s != [] {
      StableSortSorts(s[1..], key);
      InsertSorted(s[0], StableSort(s[1..], key), key);
      InsertElements(s[0], StableSort(s[1..], key), key);
      assert s == [s[0]] + s[1..];
      assert multiset([s[0]] + StableSort(s[1..], key)) == multiset([s[0]]) + multiset(StableSort(s[1..], key));
    }
  }
}

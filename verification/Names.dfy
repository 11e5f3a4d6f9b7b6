/** Optional values and results, in place of Go's nil and error returns. */
module Wrappers {
  datatype Option<+T> = None | Some(value: T)

  datatype Result<+T, +E> = Ok(value: T) | Err(error: E)
}

/**
 The order of Go strings, sorting, and name-ordered listings of maps.

 Go iterates over a map in an arbitrary order and then sorts. Here every such
 result is equated with a function of the map alone, so the order cannot matter.
 */
module Names {

  /** Go's `<` on strings: UTF-8 byte order, which is code point order. */
  predicate Less(a: string, b: string) {
    if |b| == 0 then false
    else if |a| == 0 then true
    else if a[0] != b[0] then a[0] < b[0]
    else Less(a[1..], b[1..])
  }

  /** Go's order of strings: at the first difference the smaller character, or the end, comes first. */
  lemma {:induction false} LessIsLexicographic(a: string, b: string)
    ensures Less(a, b) <==> exists k: nat :: FirstDifference(a, b, k) && (k == |a| || a[k] < b[k])
  {
    if |b| == 0 || |a| == 0 {
      assert |a| == 0 && |b| != 0 ==> FirstDifference(a, b, 0);
    } else if a[0] != b[0] {
      assert FirstDifference(a, b, 0);
    } else {
      LessIsLexicographic(a[1..], b[1..]);
      if k: nat :| FirstDifference(a[1..], b[1..], k) && (k == |a[1..]| || a[1..][k] < b[1..][k]) {
        assert FirstDifference(a, b, k + 1);
      }
      if k: nat :| FirstDifference(a, b, k) && (k == |a| || a[k] < b[k]) {
        assert k > 0 && FirstDifference(a[1..], b[1..], k - 1);
      }
    }
  }

  /** Both strings agree before k, and b goes on there. */
  ghost predicate FirstDifference(a: string, b: string, k: nat) {
    k <= |a| && k < |b| && forall i | 0 <= i < k :: a[i] == b[i]
  }

  lemma LessIrreflexive(a: string)
    ensures !Less(a, a)
  {
  }

  lemma {:induction false} LessTransitive(a: string, b: string, c: string)
    requires Less(a, b) && Less(b, c)
    ensures Less(a, c)
  {
    if |a| != 0 && a[0] == b[0] && b[0] == c[0] {
      LessTransitive(a[1..], b[1..], c[1..]);
    }
  }

  lemma {:induction false} LessTotal(a: string, b: string)
    ensures a == b || Less(a, b) || Less(b, a)
  {
    if |a| != 0 && |b| != 0 && a[0] == b[0] {
      LessTotal(a[1..], b[1..]);
      if a[1..] == b[1..] {
        assert a == [a[0]] + a[1..] == b;
      }
    }
  }

  predicate SortedBy<T>(s: seq<T>, key: T -> string) {
    forall i, j | 0 <= i < j < |s| :: key(s[i]) == key(s[j]) || Less(key(s[i]), key(s[j]))
  }

  predicate StrictlySortedBy<T>(s: seq<T>, key: T -> string) {
    forall i, j | 0 <= i < j < |s| :: Less(key(s[i]), key(s[j]))
  }

  const SELF: string -> string := (x: string) => x

  function InsertBy<T>(x: T, s: seq<T>, key: T -> string): seq<T> {
    if s == [] then [x]
    else if Less(key(s[0]), key(x)) then [s[0]] + InsertBy(x, s[1..], key)
    else [x] + s
  }

  /** `sort.Strings` and `sort.Slice` by a key. */
  function SortBy<T>(s: seq<T>, key: T -> string): seq<T> {
    if s == [] then [] else InsertBy(s[0], SortBy(s[1..], key), key)
  }

  lemma {:induction false} InsertKeepsElements<T>(x: T, s: seq<T>, key: T -> string)
    ensures multiset(InsertBy(x, s, key)) == multiset(s) + multiset{x}
  {
    if s != [] && Less(key(s[0]), key(x)) {
      InsertKeepsElements(x, s[1..], key);
      assert s == [s[0]] + s[1..];
    }
  }

  lemma InElements<T>(s: seq<T>, x: T)
    ensures x in s <==> x in multiset(s)
  {
  }

  lemma {:induction false} InsertSorts<T>(x: T, s: seq<T>, key: T -> string)
    requires SortedBy(s, key)
    ensures SortedBy(InsertBy(x, s, key), key)
  {
    if s == [] {
    } else if Less(key(s[0]), key(x)) {
      var rest := InsertBy(x, s[1..], key);
      InsertSorts(x, s[1..], key);
      InsertKeepsElements(x, s[1..], key);
      forall j | 0 <= j < |rest| ensures key(s[0]) == key(rest[j]) || Less(key(s[0]), key(rest[j])) {
        InElements(rest, rest[j]);
        InElements(s[1..], rest[j]);
      }
    } else {
      LessTotal(key(s[0]), key(x));
      forall j | 0 <= j < |s| ensures key(x) == key(s[j]) || Less(key(x), key(s[j])) {
        if j > 0 && key(s[0]) != key(x) && key(s[0]) != key(s[j]) {
          LessTransitive(key(x), key(s[0]), key(s[j]));
        }
      }
    }
  }

  /** Sorting loses nothing, invents nothing, and orders the result. */
  lemma {:induction false} SortIsOrderedPermutation<T>(s: seq<T>, key: T -> string)
    ensures multiset(SortBy(s, key)) == multiset(s)
    ensures SortedBy(SortBy(s, key), key)
    ensures forall x :: x in SortBy(s, key) <==> x in s
  {
    if s != [] {
      SortIsOrderedPermutation(s[1..], key);
      InsertKeepsElements(s[0], SortBy(s[1..], key), key);
      InsertSorts(s[0], SortBy(s[1..], key), key);
      assert s == [s[0]] + s[1..];
    }
    forall x ensures x in SortBy(s, key) <==> x in s {
      InElements(SortBy(s, key), x);
      InElements(s, x);
    }
  }

  lemma {:induction false} SortOfStrict<T>(s: seq<T>, key: T -> string)
    requires StrictlySortedBy(s, key)
    ensures SortBy(s, key) == s
  {
    if s != [] {
      SortOfStrict(s[1..], key);
      if |s| > 1 {
        LessAsymmetric(key(s[0]), key(s[1]));
      }
    }
  }

  lemma LessAsymmetric(a: string, b: string)
    requires Less(a, b)
    ensures !Less(b, a)
  {
    if Less(b, a) {
      LessTransitive(a, b, a);
      LessIrreflexive(a);
    }
  }

  lemma HeadIsMember<T>(s: seq<T>)
    ensures s != [] ==> s[0] in s
  {
  }

  /** A strictly ordered listing is determined by its set of elements. */
  lemma {:induction false} StrictListingIsUnique<T>(a: seq<T>, b: seq<T>, key: T -> string)
    requires StrictlySortedBy(a, key) && StrictlySortedBy(b, key)
    requires forall x :: x in a <==> x in b
    ensures a == b
  {
    HeadIsMember(a);
    HeadIsMember(b);
    if a != [] {
      assert a[0] in a && a[0] in b;
      assert b[0] in b && b[0] in a;
      var i :| 0 <= i < |a| && a[i] == b[0];
      var j :| 0 <= j < |b| && b[j] == a[0];
      if i > 0 && j > 0 {
        LessTransitive(key(a[0]), key(b[0]), key(a[0]));
        LessIrreflexive(key(a[0]));
      }
      assert a[0] == b[0];
      LessIrreflexive(key(a[0]));
      forall x ensures x in a[1..] <==> x in b[1..] {
        if x in a[1..] {
          assert x in a && x in b;
        }
        if x in b[1..] {
          assert x in b && x in a;
        }
      }
      StrictListingIsUnique(a[1..], b[1..], key);
    }
  }

  /** The names of a set in increasing order. */
  ghost function SortedNames(s: set<string>): (r: seq<string>)
    ensures StrictlySortedBy(r, SELF)
    ensures forall x :: x in r <==> x in s
    ensures |r| == |s|
  {
    if s == {} then []
    else
      var x :| x in s;
      var rest := SortedNames(s - {x});
      InsertStrict(x, rest);
      InsertBy(x, rest, SELF)
  }

  lemma InsertStrict(x: string, s: seq<string>)
    requires StrictlySortedBy(s, SELF) && x !in s
    ensures StrictlySortedBy(InsertBy(x, s, SELF), SELF)
    ensures forall y :: y in InsertBy(x, s, SELF) <==> y in s || y == x
    ensures |InsertBy(x, s, SELF)| == |s| + 1
  {
    InsertSorts(x, s, SELF);
    InsertKeepsElements(x, s, SELF);
    var r := InsertBy(x, s, SELF);
    assert |r| == |multiset(r)|;
    assert |s| == |multiset(s)|;
    forall y ensures y in r <==> y in s || y == x {
      InElements(r, y);
      InElements(s, y);
    }
    forall i, j | 0 <= i < j < |r| ensures r[i] != r[j] {
      StrictHasNoDuplicates(s);
      if r[i] == r[j] {
        TwiceInMultiset(r, i, j);
        InElements(s, x);
      }
    }
  }

  lemma StrictHasNoDuplicates(s: seq<string>)
    requires StrictlySortedBy(s, SELF)
    ensures forall y :: multiset(s)[y] <= 1
  {
    forall i, j | 0 <= i < j < |s| ensures s[i] != s[j] {
      LessIrreflexive(s[i]);
    }
    DistinctMultiset(s);
  }

  lemma {:induction false} DistinctMultiset<T>(s: seq<T>)
    requires forall i, j | 0 <= i < j < |s| :: s[i] != s[j]
    ensures forall y :: multiset(s)[y] <= 1
    ensures |set x | x in s| == |s|
  {
    if s != [] {
      var last := |s| - 1;
      DistinctMultiset(s[..last]);
      assert s == s[..last] + [s[last]];
      assert multiset(s) == multiset(s[..last]) + multiset{s[last]};
      InElements(s[..last], s[last]);
      assert (set x | x in s) == (set x | x in s[..last]) + {s[last]};
    }
  }

  lemma TwiceInMultiset<T>(s: seq<T>, i: nat, j: nat)
    requires i < j < |s| && s[i] == s[j]
    ensures multiset(s)[s[i]] >= 2
  {
    assert s == s[..j] + [s[j]] + s[j + 1..];
    assert s[..j][i] == s[i];
    InElements(s[..j], s[i]);
  }

  lemma AppendDistinct<T>(s: seq<T>, x: T)
    requires x !in s && forall i, j | 0 <= i < j < |s| :: s[i] != s[j]
    ensures forall i, j | 0 <= i < j < |s| + 1 :: (s + [x])[i] != (s + [x])[j]
  {
    forall i | 0 <= i < |s| ensures s[i] != x {
      assert s[i] in s;
    }
  }

  /** Visiting one more key of a map. */
  lemma VisitKey<T>(whole: map<string, T>, todo: set<string>, name: string)
    requires name in todo
    ensures name in whole ==> (whole - todo)[name := whole[name]] == whole - (todo - {name})
    ensures name !in whole ==> whole - todo == whole - (todo - {name})
  {
  }

  /** The values of a map, listed in the order of their names. */
  ghost function Listing<T>(m: map<string, T>): (r: seq<T>)
    ensures |r| == |m|
    ensures forall i | 0 <= i < |r| :: SortedNames(m.Keys)[i] in m && r[i] == m[SortedNames(m.Keys)[i]]
  {
    var names := SortedNames(m.Keys);
    assert forall i | 0 <= i < |names| :: names[i] in names;
    seq(|names|, i requires 0 <= i < |names| => m[names[i]])
  }

  lemma ListingHas<T>(m: map<string, T>, x: T)
    ensures x in Listing(m) <==> x in m.Values
  {
    var names, listed := SortedNames(m.Keys), Listing(m);
    if x in m.Values {
      var n :| n in m && m[n] == x;
      assert n in names;
      var i :| 0 <= i < |names| && names[i] == n;
      assert listed[i] == x;
    }
  }

  /**
   Collecting one value per name in any order and sorting by name gives the
   listing of the map: the map's iteration order leaves no trace.
   */
  lemma SortedCollectionIsListing<T>(items: seq<T>, m: map<string, T>, key: T -> string)
    requires forall n | n in m :: key(m[n]) == n
    requires forall x :: x in items <==> x in m.Values
    requires forall i, j | 0 <= i < j < |items| :: items[i] != items[j]
    ensures SortBy(items, key) == Listing(m)
    ensures StrictlySortedBy(Listing(m), key)
  {
    var sorted := SortBy(items, key);
    var listed := Listing(m);
    SortIsOrderedPermutation(items, key);
    DistinctMultiset(items);
    forall i, j | 0 <= i < j < |sorted| ensures Less(key(sorted[i]), key(sorted[j])) {
      if sorted[i] == sorted[j] {
        TwiceInMultiset(sorted, i, j);
      }
      assert sorted[i] in sorted && sorted[j] in sorted;
      assert sorted[i] in m.Values && sorted[j] in m.Values;
    }
    forall x ensures x in sorted <==> x in listed {
      ListingHas(m, x);
    }
    StrictListingIsUnique(sorted, listed, key);
  }

  lemma Regrouped<T>(a: seq<T>, b: seq<T>, c: seq<T>)
    ensures a + b + c == a + (b + c)
  {
  }
}

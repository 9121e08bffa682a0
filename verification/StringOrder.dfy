/** Strictly ascending sequences, and the string order the worker sorts by.

    Go compares strings byte by byte, which for UTF-8 is code point order, the order of
    Dafny characters. Everything the worker sorts has no duplicates, so a sorted slice is a
    strictly ascending sequence and is determined by its set of elements. */
module StringOrder {

  /** `less` is a strict order: asymmetric and transitive. */
  ghost predicate StrictOrder<T(!new)>(less: (T, T) -> bool) {
    && (forall x, y :: less(x, y) ==> !less(y, x))
    && (forall x, y, z :: less(x, y) && less(y, z) ==> less(x, z))
  }

  ghost predicate Ascending<T>(less: (T, T) -> bool, s: seq<T>) {
    forall i, j :: 0 <= i < j < |s| ==> less(s[i], s[j])
  }

  ghost function Elements<T>(s: seq<T>): set<T> {
    set x | x in s
  }

  lemma ElementsGrow<T>(s: seq<T>)
    ensures Elements(s[..0]) == {}
    ensures forall i :: 0 <= i < |s| ==> Elements(s[..i + 1]) == Elements(s[..i]) + {s[i]}
  {
    forall i | 0 <= i < |s|
      ensures Elements(s[..i + 1]) == Elements(s[..i]) + {s[i]}
    {
      assert s[..i + 1] == s[..i] + [s[i]];
    }
  }

  lemma ElementsAll<T>(s: seq<T>, all: set<T>)
    requires forall x :: x in s <==> x in all
    ensures Elements(s) == all
  {
  }

  lemma EmptyIff<T(!new)>(s: seq<T>)
    ensures s == [] <==> forall x :: x !in s
  {
    if s != [] {
      assert s[0] in s;
    }
  }

  /** Two ascending sequences with the same elements are the same sequence. */
  lemma {:induction false} AscendingUnique<T(!new)>(less: (T, T) -> bool, a: seq<T>, b: seq<T>)
    requires StrictOrder(less)
    requires Ascending(less, a) && Ascending(less, b)
    requires forall x :: x in a <==> x in b
    ensures a == b
    decreases |a|
  {
    if |a| == 0 {
      EmptyIff(b);
    } else {
      assert a[0] in b && b[0] in a;
      assert a[0] == b[0];
      forall x
        ensures x in a[1..] <==> x in b[1..]
      {
        if x in a[1..] {
          assert x in b;
          assert less(a[0], x);
        }
        if x in b[1..] {
          assert x in a;
          assert less(b[0], x);
        }
      }
      AscendingUnique(less, a[1..], b[1..]);
    }
  }

  lemma AscendingLength<T>(less: (T, T) -> bool, s: seq<T>)
    requires Ascending(less, s)
    requires forall x | x in s :: !less(x, x)
    ensures |Elements(s)| == |s|
    decreases |s|
  {
    if |s| > 0 {
      var last := |s| - 1;
      AscendingLength(less, s[..last]);
      assert s == s[..last] + [s[last]];
      assert Elements(s) == Elements(s[..last]) + {s[last]};
      assert s[last] !in s[..last];
    }
  }

  /** Lexicographic order by character. */
  predicate Less(a: string, b: string)
    decreases |a|
  {
    if |b| == 0 then false
    else if |a| == 0 then true
    else if a[0] != b[0] then a[0] < b[0]
    else Less(a[1..], b[1..])
  }

  lemma {:induction false} LessTotal(a: string, b: string)
    ensures Less(a, b) || a == b || Less(b, a)
    ensures Less(a, b) ==> !Less(b, a) && a != b
    decreases |a|
  {
    if |a| > 0 && |b| > 0 {
      LessTotal(a[1..], b[1..]);
      if a[0] == b[0] && a[1..] == b[1..] {
        assert a == [a[0]] + a[1..] && b == [b[0]] + b[1..];
      }
    }
  }

  lemma {:induction false} LessTransitive(a: string, b: string, c: string)
    requires Less(a, b) && Less(b, c)
    ensures Less(a, c)
    decreases |a|
  {
    if |a| > 0 && a[0] == b[0] && b[0] == c[0] {
      LessTransitive(a[1..], b[1..], c[1..]);
    }
  }

  lemma LessStrict()
    ensures StrictOrder(Less) && Total(Less)
  {
    forall x, y
      ensures Less(x, y) ==> !Less(y, x)
      ensures Less(x, y) || x == y || Less(y, x)
    {
      LessTotal(x, y);
    }
    forall x, y, z | Less(x, y) && Less(y, z)
      ensures Less(x, z)
    {
      LessTransitive(x, y, z);
    }
  }

  ghost predicate Total<T(!new)>(less: (T, T) -> bool) {
    forall x, y :: less(x, y) || x == y || less(y, x)
  }

  lemma InsertAscending<T(!new)>(less: (T, T) -> bool, s: seq<T>, i: nat, x: T)
    requires StrictOrder(less) && Total(less)
    requires Ascending(less, s) && x !in s && i <= |s|
    requires forall j :: 0 <= j < i ==> less(s[j], x)
    requires i < |s| ==> !less(s[i], x)
    ensures var t := s[..i] + [x] + s[i..];
            Ascending(less, t) && forall y :: y in t <==> y in s || y == x
  {
    var t := s[..i] + [x] + s[i..];
    if i < |s| {
      assert s[i] != x;
    }
    forall y
      ensures y in t <==> y in s || y == x
    {
      assert s == s[..i] + s[i..];
    }
  }

  /** Sorts the elements of a set, whatever order they are walked in. */
  method SortSet<T(==, !new)>(less: (T, T) -> bool, s: set<T>) returns (out: seq<T>)
    requires StrictOrder(less) && Total(less)
    ensures Ascending(less, out)
    ensures forall x :: x in out <==> x in s
    ensures |out| == |s|
  {
    out := [];
    var rest := s;
    while rest != {}
      invariant rest <= s
      invariant Ascending(less, out)
      invariant forall x :: x in out <==> x in s - rest
      decreases rest
    {
      var x :| x in rest;
      var i := 0;
      while i < |out| && less(out[i], x)
        invariant 0 <= i <= |out|
        invariant forall j :: 0 <= j < i ==> less(out[j], x)
      {
        i := i + 1;
      }
      InsertAscending(less, out, i, x);
      rest := rest - {x};
      out := out[..i] + [x] + out[i..];
    }
    assert Elements(out) == s;
    AscendingLength(less, out);
  }

  /** The sorted key slice of a map. */
  method SortedKeys(s: set<string>) returns (out: seq<string>)
    ensures Ascending(Less, out)
    ensures forall x :: x in out <==> x in s
    ensures |out| == |s|
  {
    LessStrict();
    out := SortSet(Less, s);
  }

  ghost predicate IsSorted(s: set<string>, sorted: seq<string>) {
    Ascending(Less, sorted) && forall x :: x in sorted <==> x in s
  }

  lemma SortedExists(s: set<string>)
    ensures exists sorted :: IsSorted(s, sorted)
  {
    if s == {} {
      assert IsSorted(s, []);
    } else {
      var x :| x in s;
      SortedExists(s - {x});
      var rest :| IsSorted(s - {x}, rest);
      LessStrict();
      var i := 0;
      while i < |rest| && Less(rest[i], x)
        invariant 0 <= i <= |rest|
        invariant forall j :: 0 <= j < i ==> Less(rest[j], x)
      {
        i := i + 1;
      }
      InsertAscending(Less, rest, i, x);
      assert IsSorted(s, rest[..i] + [x] + rest[i..]);
    }
  }

  /** The sorted sequence of a set's elements. */
  ghost function Sorted(s: set<string>): (sorted: seq<string>)
    ensures IsSorted(s, sorted)
  {
    SortedExists(s);
    var sorted :| IsSorted(s, sorted);
    sorted
  }

  /** The `n` first elements of `s` in string order. */
  ghost function First(s: set<string>, n: nat): set<string> {
    if n < |Sorted(s)| then Elements(Sorted(s)[..n]) else s
  }

  lemma SortedUnique(s: set<string>, sorted: seq<string>)
    requires Ascending(Less, sorted)
    requires forall x :: x in sorted <==> x in s
    ensures sorted == Sorted(s)
  {
    LessStrict();
    AscendingUnique(Less, sorted, Sorted(s));
  }

  lemma FirstSize(s: set<string>, n: nat)
    ensures |First(s, n)| <= n
    ensures First(s, n) <= s
  {
    LessStrict();
    var sorted := Sorted(s);
    if n < |sorted| {
      AscendingLength(Less, sorted[..n]);
    } else {
      AscendingLength(Less, sorted);
      assert Elements(sorted) == s;
    }
  }

  /** A string outside any finite set: longer than all of them. */
  lemma FreshString(s: set<string>) returns (x: string)
    ensures x !in s
    ensures forall y :: y in s ==> |y| < |x|
  {
    if s == {} {
      x := "a";
    } else {
      var y :| y in s;
      var z := FreshString(s - {y});
      x := z + y + "a";
    }
  }
}

/** Go's string ordering and `sort.Strings`, as the environment listing uses them. */
module GoSort {

  /** Go's `<` on strings: byte-wise lexicographic order, which on well-formed
      text is the order of code points compared one by one. */
  predicate Less(a: string, b: string)
    ensures a < b ==> Less(a, b)
  {
    if a == [] then b != []
    else if b == [] then false
    else if a[0] != b[0] then a[0] < b[0]
    else
      assert a < b ==> a[1..] < b[1..];
      Less(a[1..], b[1..])
  }

  predicate Le(a: string, b: string)
  {
    !Less(b, a)
  }

  lemma {:induction false} LessIrreflexive(a: string)
    ensures !Less(a, a)
  {
    if a != [] { LessIrreflexive(a[1..]); }
  }

  lemma {:induction false} LessTransitive(a: string, b: string, c: string)
    requires Less(a, b) && Less(b, c)
    ensures Less(a, c)
  {
    if a != [] && b != [] && c != [] && a[0] == b[0] == c[0] {
      LessTransitive(a[1..], b[1..], c[1..]);
    }
  }

  /** Any two different strings are ordered one way or the other. */
  lemma {:induction false} LessTotal(a: string, b: string)
    ensures a == b || Less(a, b) || Less(b, a)
  {
    if a != [] && b != [] && a[0] == b[0] {
      LessTotal(a[1..], b[1..]);
      if a[1..] == b[1..] {
        assert a == [a[0]] + a[1..] && b == [b[0]] + b[1..];
      }
    }
  }

  lemma LessAsymmetric(a: string, b: string)
    requires Less(a, b)
    ensures !Less(b, a)
  {
    if Less(b, a) {
      LessTransitive(a, b, a);
      LessIrreflexive(a);
    }
  }

  lemma LeTransitive(a: string, b: string, c: string)
    requires Le(a, b) && Le(b, c)
    ensures Le(a, c)
  {
    LessTotal(a, b);
    if Less(c, a) {
      if a == b {
      } else {
        LessTransitive(c, a, b);
      }
    }
  }

  lemma LeAntisymmetric(a: string, b: string)
    requires Le(a, b) && Le(b, a)
    ensures a == b
  {
    LessTotal(a, b);
  }

  predicate Sorted(s: seq<string>)
  {
    forall i, j :: 0 <= i < j < |s| ==> Le(s[i], s[j])
  }

  /** Inserts `x` into a sorted sequence, before the first element not smaller than it. */
  function Insert(x: string, s: seq<string>): (r: seq<string>)
    ensures multiset(r) == multiset(s) + multiset{x}
  {
    if s == [] then [x]
    else if Le(x, s[0]) then [x] + s
    else
      assert s == [s[0]] + s[1..];
      [s[0]] + Insert(x, s[1..])
  }

  /** A lower bound of `x` and of every element of `s` bounds every element after insertion. */
  lemma InsertLowerBound(b: string, x: string, s: seq<string>)
    requires Le(b, x)
    requires forall k :: 0 <= k < |s| ==> Le(b, s[k])
    ensures forall k :: 0 <= k < |Insert(x, s)| ==> Le(b, Insert(x, s)[k])
  {
    var r := Insert(x, s);
    forall k | 0 <= k < |r| ensures Le(b, r[k]) {
      assert r[k] in multiset(r);
      if r[k] != x {
        assert r[k] in multiset(s);
        var m :| 0 <= m < |s| && s[m] == r[k];
      }
    }
  }

  lemma {:induction false} InsertSorted(x: string, s: seq<string>)
    requires Sorted(s)
    ensures Sorted(Insert(x, s))
  {
    if s == [] {
    } else if Le(x, s[0]) {
      forall j | 0 <= j < |s| ensures Le(x, s[j]) {
        if j > 0 { LeTransitive(x, s[0], s[j]); }
      }
    } else {
      var t := Insert(x, s[1..]);
      InsertSorted(x, s[1..]);
      LessAsymmetric(s[0], x);
      assert forall k :: 0 <= k < |s[1..]| ==> s[1..][k] == s[k + 1];
      InsertLowerBound(s[0], x, s[1..]);
      var r := [s[0]] + t;
      forall i, j | 0 <= i < j < |r| ensures Le(r[i], r[j]) {
        if i == 0 { assert r[j] == t[j - 1]; }
        else { assert r[i] == t[i - 1] && r[j] == t[j - 1]; }
      }
    }
  }

  /** `sort.Strings`: a sorted rearrangement of its input. */
  function SortStrings(s: seq<string>): (r: seq<string>)
    ensures Sorted(r)
    ensures multiset(r) == multiset(s)
  {
    if s == [] then []
    else
      var t := SortStrings(s[1..]);
      InsertSorted(s[0], t);
      assert s == [s[0]] + s[1..];
      Insert(s[0], t)
  }

  lemma MultisetTail(s: seq<string>)
    requires s != []
    ensures multiset(s[1..]) == multiset(s) - multiset{s[0]}
  {
    assert s == [s[0]] + s[1..];
  }

  /** The first entry of a sorted sequence is below every entry. */
  lemma SortedHead(s: seq<string>, k: nat)
    requires Sorted(s) && k < |s|
    ensures Le(s[0], s[k])
  {
    if k == 0 { LessIrreflexive(s[0]); }
  }

  /** Two sorted rearrangements of each other start with the same entry. */
  lemma SortedSameHead(a: seq<string>, b: seq<string>)
    requires Sorted(a) && Sorted(b) && a != []
    requires multiset(a) == multiset(b)
    ensures b != [] && a[0] == b[0]
  {
    assert a[0] in multiset(b);
    var k :| 0 <= k < |b| && b[k] == a[0];
    assert b[0] in multiset(a);
    var m :| 0 <= m < |a| && a[m] == b[0];
    SortedHead(b, k);
    SortedHead(a, m);
    LeAntisymmetric(a[0], b[0]);
  }

  /** A sorted rearrangement is unique: sorting fixes the order completely. */
  lemma {:induction false} SortedUnique(a: seq<string>, b: seq<string>)
    requires Sorted(a) && Sorted(b)
    requires multiset(a) == multiset(b)
    ensures a == b
  {
    if a == [] {
      assert |b| == |multiset(b)| == 0;
    } else {
      SortedSameHead(a, b);
      MultisetTail(a);
      MultisetTail(b);
      SortedUnique(a[1..], b[1..]);
      assert a == [a[0]] + a[1..] && b == [b[0]] + b[1..];
    }
  }

  /** Some listing of the elements of a set, each once, in no particular order
      (the order in which Go's `range` visits the keys of a map is unspecified). */
  ghost function Enumerate(keys: set<string>): (r: seq<string>)
    ensures multiset(r) == multiset(keys)
    decreases keys
  {
    if keys == {} then []
    else
      var x :| x in keys;
      var rest := keys - {x};
      assert keys == rest + {x};
      assert multiset(keys) == multiset(rest) + multiset{x};
      [x] + Enumerate(rest)
  }

  /** The elements of a set in ascending order. */
  ghost function AscendingKeys(keys: set<string>): seq<string>
  {
    SortStrings(Enumerate(keys))
  }

  /** Two equal entries at different positions occur at least twice. */
  lemma RepeatedEntry(s: seq<string>, i: nat, j: nat)
    requires i < j < |s|
    ensures s[i] == s[j] ==> multiset(s)[s[i]] >= 2
  {
    if s[i] == s[j] {
      assert s == s[..j] + s[j..];
      assert s[i] in s[..j];
      assert s[j..][0] == s[j];
    }
  }

  /** AscendingKeys lists every element of the set exactly once, in strictly
      ascending order, whatever order the elements were visited in. */
  lemma AscendingKeysSpec(keys: set<string>, visited: seq<string>)
    requires multiset(visited) == multiset(keys)
    ensures SortStrings(visited) == AscendingKeys(keys)
    ensures |AscendingKeys(keys)| == |keys|
    ensures forall x :: x in AscendingKeys(keys) <==> x in keys
    ensures forall i, j :: 0 <= i < j < |AscendingKeys(keys)| ==> Less(AscendingKeys(keys)[i], AscendingKeys(keys)[j])
  {
    var r := AscendingKeys(keys);
    SortedUnique(SortStrings(visited), r);
    assert |r| == |multiset(r)| == |multiset(keys)| == |keys|;
    forall x ensures x in r <==> x in keys {
      assert x in r <==> x in multiset(r);
    }
    forall i, j | 0 <= i < j < |r| ensures Less(r[i], r[j]) {
      LessTotal(r[i], r[j]);
      RepeatedEntry(r, i, j);
      assert multiset(keys)[r[i]] <= 1;
      assert r[i] != r[j];
    }
  }
}

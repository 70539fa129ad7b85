/** Python's order on tuples, and its stable sort.  A tuple is a sequence of components, and a component (a
  string, a digest, a number) is a sequence of integers, both compared lexicographically. */
module TupleOrder {

  type Key = seq<seq<int>>

  /** Code points of a string. */
  function Codes(s: string): (c: seq<int>)
    ensures |c| == |s|
  {
    seq(|s|, i requires 0 <= i < |s| => s[i] as int)
  }

  lemma CodesInjective(a: string, b: string)
    requires Codes(a) == Codes(b)
    ensures a == b
  {
    forall i | 0 <= i < |a| ensures a[i] == b[i] {
      assert Codes(a)[i] == Codes(b)[i];
    }
  }

  predicate Below(a: seq<int>, b: seq<int>) {
    if b == [] then false
    else if a == [] then true
    else if a[0] != b[0] then a[0] < b[0]
    else Below(a[1..], b[1..])
  }

  predicate Less(a: Key, b: Key) {
    if b == [] then false
    else if a == [] then true
    else if a[0] != b[0] then Below(a[0], b[0])
    else Less(a[1..], b[1..])
  }

  lemma {:induction false} BelowTotal(a: seq<int>, b: seq<int>)
    ensures !Below(a, a)
    ensures Below(a, b) || a == b || Below(b, a)
    ensures !(Below(a, b) && Below(b, a))
  {
    if a != [] { BelowTotal(a[1..], a[1..]); }
    if a != [] && b != [] && a[0] == b[0] {
      BelowTotal(a[1..], b[1..]);
      if a[1..] == b[1..] { assert a == [a[0]] + a[1..] == b; }
    }
  }

  lemma {:induction false} BelowTransitive(a: seq<int>, b: seq<int>, c: seq<int>)
    requires Below(a, b) && Below(b, c)
    ensures Below(a, c)
  {
    if a != [] && a[0] == b[0] == c[0] {
      BelowTransitive(a[1..], b[1..], c[1..]);
    }
  }

  /** The sequences agree before place `k`, and there the first one ends or is smaller. */
  ghost predicate SmallerAt(a: seq<int>, b: seq<int>, k: int) {
    0 <= k <= |a| && k < |b| && a[..k] == b[..k] && (k == |a| || a[k] < b[k])
  }

  lemma SmallerFurther(a: seq<int>, b: seq<int>, k: int)
    requires a != [] && b != []
    ensures SmallerAt(a, b, k) <==> if k == 0 then a[0] < b[0] else a[0] == b[0] && SmallerAt(a[1..], b[1..], k - 1)
  {
    if 0 < k <= |a| && k < |b| {
      assert a[..k] == [a[0]] + a[1..][..k - 1] && b[..k] == [b[0]] + b[1..][..k - 1];
      assert a[..k] == b[..k] ==> a[..k][0] == b[..k][0] && a[..k][1..] == b[..k][1..];
    }
  }

  /** One sequence is below another exactly when it is a proper beginning of it, or smaller where they first
    differ. */
  lemma {:induction false} BelowExactlyWhen(a: seq<int>, b: seq<int>)
    ensures Below(a, b) <==> exists k :: SmallerAt(a, b, k)
  {
    if a != [] && b != [] {
      if a[0] == b[0] { BelowExactlyWhen(a[1..], b[1..]); }
      if Below(a, b) {
        var k := 0;
        if a[0] == b[0] {
          var l :| SmallerAt(a[1..], b[1..], l);
          k := l + 1;
        }
        SmallerFurther(a, b, k);
      }
      if k :| SmallerAt(a, b, k) { SmallerFurther(a, b, k); }
    } else if Below(a, b) {
      assert SmallerAt(a, b, 0);
    }
  }

  /** The tuples agree before component `k`, and there the first one ends or is below. */
  ghost predicate LessAt(a: Key, b: Key, k: int) {
    0 <= k <= |a| && k < |b| && a[..k] == b[..k] && (k == |a| || (a[k] != b[k] && Below(a[k], b[k])))
  }

  lemma LessFurther(a: Key, b: Key, k: int)
    requires a != [] && b != []
    ensures LessAt(a, b, k) <==> if k == 0 then a[0] != b[0] && Below(a[0], b[0]) else a[0] == b[0] && LessAt(a[1..], b[1..], k - 1)
  {
    if 0 < k <= |a| && k < |b| {
      assert a[..k] == [a[0]] + a[1..][..k - 1] && b[..k] == [b[0]] + b[1..][..k - 1];
      assert a[..k] == b[..k] ==> a[..k][0] == b[..k][0] && a[..k][1..] == b[..k][1..];
    }
  }

  /** Tuples compare in the same way, component by component. */
  lemma {:induction false} LessExactlyWhen(a: Key, b: Key)
    ensures Less(a, b) <==> exists k :: LessAt(a, b, k)
  {
    if a != [] && b != [] {
      if a[0] == b[0] { LessExactlyWhen(a[1..], b[1..]); }
      if Less(a, b) {
        var k := 0;
        if a[0] == b[0] {
          var l :| LessAt(a[1..], b[1..], l);
          k := l + 1;
        }
        LessFurther(a, b, k);
      }
      if k :| LessAt(a, b, k) { LessFurther(a, b, k); }
    } else if Less(a, b) {
      assert LessAt(a, b, 0);
    }
  }

  lemma BelowOne(x: int, y: int)
    ensures Below([x], [y]) <==> x < y
  {
    assert [x][1..] == [] && [y][1..] == [];
  }

  lemma LessFirst(a: Key, b: Key)
    requires a != [] && b != []
    ensures Less(a, b) <==> if a[0] == b[0] then Less(a[1..], b[1..]) else Below(a[0], b[0])
  {
  }

  /** Tuples are totally ordered. */
  lemma {:induction false} LessTotal(a: Key, b: Key)
    ensures !Less(a, a)
    ensures Less(a, b) || a == b || Less(b, a)
    ensures !(Less(a, b) && Less(b, a))
  {
    if a != [] { LessTotal(a[1..], a[1..]); }
    if a != [] && b != [] {
      BelowTotal(a[0], b[0]);
      if a[0] == b[0] {
        LessTotal(a[1..], b[1..]);
        if a[1..] == b[1..] { assert a == [a[0]] + a[1..] == b; }
      }
    }
  }

  lemma {:induction false} LessTransitive(a: Key, b: Key, c: Key)
    requires Less(a, b) && Less(b, c)
    ensures Less(a, c)
  {
    if a != [] {
      if a[0] == b[0] && b[0] == c[0] {
        LessTransitive(a[1..], b[1..], c[1..]);
      } else if a[0] != b[0] && b[0] != c[0] {
        BelowTransitive(a[0], b[0], c[0]);
        BelowTotal(a[0], c[0]);
      }
    }
  }

  ghost predicate Ordered<T>(s: seq<T>, key: T -> Key) {
    forall i, j :: 0 <= i < j < |s| ==> !Less(key(s[j]), key(s[i]))
  }

  ghost predicate StrictlyOrdered<T>(s: seq<T>, key: T -> Key) {
    forall i, j :: 0 <= i < j < |s| ==> Less(key(s[i]), key(s[j]))
  }

  ghost predicate DistinctKeys<T>(s: seq<T>, key: T -> Key) {
    forall i, j :: 0 <= i < j < |s| ==> key(s[i]) != key(s[j])
  }

  /** Stable insertion: before the first element whose key is not smaller. */
  function Insert<T>(x: T, s: seq<T>, key: T -> Key): seq<T>
    decreases |s|
  {
    if s == [] then [x]
    else if Less(key(s[0]), key(x)) then [s[0]] + Insert(x, s[1..], key)
    else [x] + s
  }

  /** The stable sort: equal keys keep their order, since every element is inserted in front of its later
    equals. */
  function Sort<T>(s: seq<T>, key: T -> Key): seq<T>
    decreases |s|
  {
    if s == [] then [] else Insert(s[0], Sort(s[1..], key), key)
  }

  lemma OrderedCons<T>(x: T, s: seq<T>, key: T -> Key)
    requires Ordered(s, key) && forall y :: y in s ==> !Less(key(y), key(x))
    ensures Ordered([x] + s, key)
  {
  }

  lemma HeadIsLeast<T>(x: T, s: seq<T>, key: T -> Key)
    requires Ordered(s, key) && s != [] && !Less(key(s[0]), key(x))
    ensures forall y :: y in s ==> !Less(key(y), key(x))
  {
    forall j | 0 <= j < |s| ensures !Less(key(s[j]), key(x)) {
      if j > 0 && Less(key(s[j]), key(x)) {
        LessTotal(key(s[0]), key(x));
        if key(s[0]) != key(x) { LessTransitive(key(s[j]), key(x), key(s[0])); }
      }
    }
  }

  lemma {:induction false} InsertKeeps<T>(x: T, s: seq<T>, key: T -> Key)
    ensures multiset(Insert(x, s, key)) == multiset{x} + multiset(s)
    decreases |s|
  {
    if s != [] {
      assert s == [s[0]] + s[1..];
      InsertKeeps(x, s[1..], key);
    }
  }

  lemma {:induction false} InsertSorted<T>(x: T, s: seq<T>, key: T -> Key)
    requires Ordered(s, key)
    ensures Ordered(Insert(x, s, key), key)
    decreases |s|
  {
    if s != [] && Less(key(s[0]), key(x)) {
      var rest := Insert(x, s[1..], key);
      InsertSorted(x, s[1..], key);
      forall y | y in rest ensures !Less(key(y), key(s[0])) {
        InsertKeeps(x, s[1..], key);
        assert y in multiset(rest);
        LessTotal(key(s[0]), key(x));
      }
      OrderedCons(s[0], rest, key);
    } else if s != [] {
      HeadIsLeast(x, s, key);
      OrderedCons(x, s, key);
    }
  }

  /** Sorting permutes and orders. */
  lemma {:induction false} SortIsSorted<T>(s: seq<T>, key: T -> Key)
    ensures Ordered(Sort(s, key), key)
    ensures multiset(Sort(s, key)) == multiset(s)
    ensures |Sort(s, key)| == |s|
    decreases |s|
  {
    if s != [] {
      assert s == [s[0]] + s[1..];
      SortIsSorted(s[1..], key);
      InsertSorted(s[0], Sort(s[1..], key), key);
      InsertKeeps(s[0], Sort(s[1..], key), key);
    }
    assert |multiset(Sort(s, key))| == |Sort(s, key)|;
    assert |multiset(s)| == |s|;
  }

  lemma SortMembers<T>(s: seq<T>, key: T -> Key)
    ensures forall x :: x in Sort(s, key) <==> x in s
  {
    SortIsSorted(s, key);
    forall x ensures x in Sort(s, key) <==> x in s {
      assert x in Sort(s, key) <==> x in multiset(Sort(s, key));
      assert x in s <==> x in multiset(s);
    }
  }

  lemma OrderedDistinct<T>(s: seq<T>, key: T -> Key)
    requires Ordered(s, key) && DistinctKeys(s, key)
    ensures StrictlyOrdered(s, key)
  {
    forall i, j | 0 <= i < j < |s| ensures Less(key(s[i]), key(s[j])) {
      LessTotal(key(s[i]), key(s[j]));
    }
  }

  lemma HeadsAgree<T>(a: seq<T>, b: seq<T>, key: T -> Key)
    requires StrictlyOrdered(a, key) && Ordered(b, key) && multiset(a) == multiset(b) && a != [] && b != []
    ensures a[0] == b[0]
  {
    assert b[0] in multiset(a) && a[0] in multiset(b);
    var i :| 0 <= i < |a| && a[i] == b[0];
    var j :| 0 <= j < |b| && b[j] == a[0];
    assert i > 0 ==> Less(key(a[0]), key(a[i]));
    assert j > 0 ==> !Less(key(b[j]), key(b[0]));
  }

  lemma TailsAgree<T>(a: seq<T>, b: seq<T>)
    requires a != [] && b != [] && a[0] == b[0] && multiset(a) == multiset(b)
    ensures multiset(a[1..]) == multiset(b[1..])
  {
    assert a == [a[0]] + a[1..] && b == [b[0]] + b[1..];
    assert multiset(a[1..]) == multiset(a) - multiset{a[0]};
    assert multiset(b[1..]) == multiset(b) - multiset{b[0]};
  }

  /** There is only one ordered arrangement of elements that can be ordered strictly. */
  lemma {:induction false} ArrangementUnique<T>(a: seq<T>, b: seq<T>, key: T -> Key)
    requires StrictlyOrdered(a, key) && Ordered(b, key) && multiset(a) == multiset(b)
    ensures a == b
    decreases |a|
  {
    assert |multiset(a)| == |a| && |multiset(b)| == |b|;
    if a != [] {
      HeadsAgree(a, b, key);
      TailsAgree(a, b);
      ArrangementUnique(a[1..], b[1..], key);
      assert a == [a[0]] + a[1..] && b == [b[0]] + b[1..];
    }
  }

  // ----- sets, listed in order -----

  /** The list holds these members and nothing else. */
  ghost predicate Lists<T>(s: seq<T>, members: set<T>) {
    (forall x :: x in s ==> x in members) && (forall x :: x in members ==> x in s)
  }

  lemma TailMembers<T>(s: seq<T>, key: T -> Key, x: T)
    requires StrictlyOrdered(s, key) && s != []
    ensures x in s[1..] <==> x in s && x != s[0]
  {
    LessTotal(key(s[0]), key(s[0]));
    if x in s && x != s[0] {
      var i :| 0 <= i < |s| && s[i] == x;
      assert s[1..][i - 1] == x;
    }
  }

  /** A set has one strictly ordered listing. */
  lemma {:induction false} SameMembers<T>(a: seq<T>, b: seq<T>, key: T -> Key)
    requires StrictlyOrdered(a, key) && StrictlyOrdered(b, key)
    requires forall x :: x in a <==> x in b
    ensures a == b
    decreases |a|
  {
    if b != [] { assert b[0] in a; }
    if a != [] {
      assert a[0] in b;
      var i :| 0 <= i < |b| && b[i] == a[0];
      var j :| 0 <= j < |a| && a[j] == b[0];
      LessTotal(key(a[0]), key(b[0]));
      assert i == 0;
      forall x ensures x in a[1..] <==> x in b[1..] {
        TailMembers(a, key, x);
        TailMembers(b, key, x);
      }
      SameMembers(a[1..], b[1..], key);
      assert a == [a[0]] + a[1..] && b == [b[0]] + b[1..];
    }
  }

  /** It is as long as the set is large. */
  lemma {:induction false} ListingLength<T>(s: seq<T>, members: set<T>, key: T -> Key)
    requires StrictlyOrdered(s, key) && Lists(s, members)
    ensures |s| == |members|
    decreases |s|
  {
    if s == [] {
      assert members == {};
    } else {
      forall x ensures x in s[1..] <==> x in members - {s[0]} { TailMembers(s, key, x); }
      ListingLength(s[1..], members - {s[0]}, key);
    }
  }

  lemma SortLists<T>(picked: seq<T>, members: set<T>, key: T -> Key)
    requires DistinctKeys(picked, key) && Lists(picked, members)
    ensures StrictlyOrdered(Sort(picked, key), key) && Lists(Sort(picked, key), members)
  {
    var sorted := Sort(picked, key);
    SortIsSorted(picked, key);
    forall x | x in sorted ensures x in members { assert x in multiset(sorted) && x in picked; }
    forall x | x in members ensures x in sorted { assert x in picked && x in multiset(picked); }
    DistinctPermuted(picked, sorted, key);
    OrderedDistinct(sorted, key);
  }

  /** List a set in order. */
  method SortedMembers<T(==)>(members: set<T>, key: T -> Key) returns (sorted: seq<T>)
    requires forall x, y :: x in members && y in members && key(x) == key(y) ==> x == y
    ensures StrictlyOrdered(sorted, key) && Lists(sorted, members)
  {
    var rest, picked: seq<T> := members, [];
    while rest != {}
      invariant rest <= members && Lists(picked, members - rest)
      invariant DistinctKeys(picked, key)
      decreases |rest|
    {
      var x :| x in rest;
      forall i | 0 <= i < |picked| ensures key(picked[i]) != key(x) {
        assert picked[i] in picked && picked[i] in members - rest;
      }
      rest, picked := rest - {x}, picked + [x];
    }
    assert members - rest == members;
    SortLists(picked, members, key);
    sorted := Sort(picked, key);
  }

  lemma DistinctPermuted<T>(a: seq<T>, b: seq<T>, key: T -> Key)
    requires DistinctKeys(a, key) && multiset(a) == multiset(b)
    ensures DistinctKeys(b, key)
  {
    forall i, j | 0 <= i < j < |b| ensures key(b[i]) != key(b[j]) {
      assert b[i] in multiset(a) && b[j] in multiset(a);
      if b[i] == b[j] {
        OccursTwice(b, i, j);
        OccursOnce(a, b[i], key);
      } else {
        var k :| 0 <= k < |a| && a[k] == b[i];
        var l :| 0 <= l < |a| && a[l] == b[j];
        assert k != l;
      }
    }
  }

  lemma OccursTwice<T>(b: seq<T>, i: nat, j: nat)
    requires i < j < |b| && b[i] == b[j]
    ensures multiset(b)[b[i]] >= 2
  {
    assert b == b[..i] + [b[i]] + b[i + 1..j] + [b[j]] + b[j + 1..];
  }

  lemma {:induction false} OccursOnce<T>(a: seq<T>, x: T, key: T -> Key)
    requires DistinctKeys(a, key)
    ensures multiset(a)[x] <= 1
    decreases |a|
  {
    if a != [] {
      assert a == [a[0]] + a[1..];
      forall i | 0 <= i < |a[1..]| ensures a[1..][i] != a[0] {
        assert key(a[0]) != key(a[i + 1]);
      }
      assert DistinctKeys(a[1..], key) by {
        forall i, j | 0 <= i < j < |a[1..]| ensures key(a[1..][i]) != key(a[1..][j]) {
          assert key(a[i + 1]) != key(a[j + 1]);
        }
      }
      OccursOnce(a[1..], x, key);
    }
  }
}

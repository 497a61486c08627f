/** Python's string order and the two sorts the bot relies on: sorted() over the
    slot names of a board, and the stable list.sort(key=...) over events and
    members. */
module Sorting {

  /** Python's a < b on str: code point by code point, a proper prefix first. */
  predicate Less(a: string, b: string)
    decreases |a|
  {
    |b| > 0 && (|a| == 0 || a[0] < b[0] || (a[0] == b[0] && Less(a[1..], b[1..])))
  }

  lemma {:induction false} LessIrreflexive(a: string)
    ensures !Less(a, a)
    decreases |a|
  {
    if |a| > 0 {
      LessIrreflexive(a[1..]);
    }
  }

  lemma {:induction false} LessTransitive(a: string, b: string, c: string)
    requires Less(a, b) && Less(b, c)
    ensures Less(a, c)
    decreases |a|
  {
    if |a| > 0 && a[0] == b[0] && b[0] == c[0] {
      LessTransitive(a[1..], b[1..], c[1..]);
    }
  }

  lemma {:induction false} LessTotal(a: string, b: string)
    ensures a == b || Less(a, b) || Less(b, a)
    decreases |a|
  {
    if |a| > 0 && |b| > 0 && a[0] == b[0] {
      LessTotal(a[1..], b[1..]);
      if a[1..] == b[1..] {
        assert a == [a[0]] + a[1..] && b == [b[0]] + b[1..];
      }
    }
  }

  lemma LessAsymmetric(a: string, b: string)
    requires Less(a, b)
    ensures !Less(b, a)
  {
    if Less(b, a) {
      LessTransitive(a, b, a);
      LessIrreflexive(a);
    }
  }

  /** The order is lexicographic, not numeric: "Slot 10" sorts before "Slot 2". */
  lemma SlotTenBeforeSlotTwo()
    ensures Less("Slot 10", "Slot 2")
  {
    var a, b := "Slot 10", "Slot 2";
    assert a[..5] == b[..5] && a[5] < b[5];
    assert Less(a[5..], b[5..]);
    assert Less(a[4..], b[4..]) by { assert a[4..][1..] == a[5..] && b[4..][1..] == b[5..]; }
    assert Less(a[3..], b[3..]) by { assert a[3..][1..] == a[4..] && b[3..][1..] == b[4..]; }
    assert Less(a[2..], b[2..]) by { assert a[2..][1..] == a[3..] && b[2..][1..] == b[3..]; }
    assert Less(a[1..], b[1..]) by { assert a[1..][1..] == a[2..] && b[1..][1..] == b[2..]; }
  }

  // ---------------------------------------------------------------- sorted(): distinct strings

  /** Strictly increasing, so each string appears once. */
  predicate StrictlySorted(s: seq<string>) {
    forall i, j :: 0 <= i < j < |s| ==> Less(s[i], s[j])
  }

  lemma BelowSorted(s: seq<string>, k: string)
    requires StrictlySorted(s) && |s| > 0 && Less(k, s[0])
    ensures forall j :: 0 <= j < |s| ==> Less(k, s[j])
  {
    forall j | 0 < j < |s| ensures Less(k, s[j]) {
      LessTransitive(k, s[0], s[j]);
    }
  }

  /** Puts k at its place in a strictly sorted sequence that lacks it. */
  function InsertSorted(s: seq<string>, k: string): (r: seq<string>)
    requires StrictlySorted(s) && k !in s
    ensures |r| == |s| + 1 && StrictlySorted(r)
    ensures forall x :: x in r <==> x in s || x == k
  {
    if s == [] then [k]
    else if Less(k, s[0]) then
      BelowSorted(s, k);
      [k] + s
    else
      LessTotal(k, s[0]);
      var tail := InsertSorted(s[1..], k);
      assert forall j :: 0 <= j < |tail| ==> Less(s[0], tail[j]) by {
        forall j | 0 <= j < |tail| ensures Less(s[0], tail[j]) {
          if tail[j] != k {
            assert tail[j] in tail;
            assert tail[j] in s[1..];
            var i :| 0 <= i < |s[1..]| && s[1..][i] == tail[j];
            assert s[i + 1] == tail[j];
          }
        }
      }
      assert s == [s[0]] + s[1..];
      [s[0]] + tail
  }

  /** The keys of a dictionary in the order sorted() gives them. */
  method SortedKeys(keys: set<string>) returns (r: seq<string>)
    ensures StrictlySorted(r) && |r| == |keys|
    ensures forall k :: k in r <==> k in keys
  {
    r := [];
    var rest := keys;
    while rest != {}
      invariant StrictlySorted(r)
      invariant forall k :: k in keys <==> k in rest || k in r
      invariant forall k :: k in rest ==> k !in r
      invariant |r| + |rest| == |keys|
      decreases |rest|
    {
      var k :| k in rest;
      r := InsertSorted(r, k);
      rest := rest - {k};
    }
  }

  // ---------------------------------------------------------------- list.sort(key=...)

  /** s is ordered by key: no element has a smaller key than one before it. */
  predicate SortedBy<T(!new)>(s: seq<T>, key: T -> string) {
    forall i, j :: 0 <= i < j < |s| ==> !Less(key(s[j]), key(s[i]))
  }

  /** Puts x after every element whose key is not greater than its own. */
  function InsertBy<T(!new)>(x: T, s: seq<T>, key: T -> string): (r: seq<T>)
    ensures |r| == |s| + 1
  {
    if s == [] then [x]
    else if Less(key(x), key(s[0])) then [x] + s
    else [s[0]] + InsertBy(x, s[1..], key)
  }

  /** list.sort(key=key). Python's sort is stable, and so is an insertion sort that
      inserts each element after those with an equal key: both give this list. */
  function StableSort<T(!new)>(s: seq<T>, key: T -> string): (r: seq<T>)
    ensures |r| == |s|
  {
    if s == [] then [] else InsertBy(s[|s| - 1], StableSort(s[..|s| - 1], key), key)
  }

  /** The elements whose key is k, in order. */
  function WithKey<T(!new)>(s: seq<T>, key: T -> string, k: string): (r: seq<T>)
    ensures forall y :: y in r ==> y in s && key(y) == k
  {
    if s == [] then [] else (if key(s[0]) == k then [s[0]] else []) + WithKey(s[1..], key, k)
  }

  lemma WithKeyCons<T(!new)>(x: T, s: seq<T>, key: T -> string, k: string)
    ensures WithKey([x] + s, key, k) == (if key(x) == k then [x] else []) + WithKey(s, key, k)
  {
    assert ([x] + s)[1..] == s;
  }

  /** An element appended at the end comes last among those sharing its key. */
  lemma {:induction false} WithKeySnoc<T(!new)>(s: seq<T>, x: T, key: T -> string, k: string)
    ensures WithKey(s + [x], key, k) == WithKey(s, key, k) + (if key(x) == k then [x] else [])
  {
    if s == [] {
      assert [] + [x] == [x];
    } else {
      assert (s + [x])[1..] == s[1..] + [x];
      WithKeySnoc(s[1..], x, key, k);
    }
  }

  lemma WithKeyNone<T(!new)>(s: seq<T>, key: T -> string, k: string)
    requires forall y :: y in s ==> key(y) != k
    ensures WithKey(s, key, k) == []
  {
    if s != [] {
      WithKeyNone(s[1..], key, k);
    }
  }

  lemma {:induction false} InsertByMultiset<T(!new)>(x: T, s: seq<T>, key: T -> string)
    ensures multiset(InsertBy(x, s, key)) == multiset(s) + multiset{x}
    decreases |s|
  {
    if s != [] && !Less(key(x), key(s[0])) {
      InsertByMultiset(x, s[1..], key);
      assert s == [s[0]] + s[1..];
    }
  }

  lemma {:induction false} InsertBySorted<T(!new)>(x: T, s: seq<T>, key: T -> string)
    requires SortedBy(s, key)
    ensures SortedBy(InsertBy(x, s, key), key)
    decreases |s|
  {
    if s == [] {
    } else if Less(key(x), key(s[0])) {
      forall j | 0 <= j < |s| ensures !Less(key(s[j]), key(x)) {
        if Less(key(s[j]), key(x)) {
          LessTransitive(key(s[j]), key(x), key(s[0]));
          if j == 0 { LessIrreflexive(key(s[0])); }
        }
      }
    } else {
      var tail := InsertBy(x, s[1..], key);
      InsertBySorted(x, s[1..], key);
      InsertByMultiset(x, s[1..], key);
      forall j | 0 <= j < |tail| ensures !Less(key(tail[j]), key(s[0])) {
        assert tail[j] in multiset(tail);
        if tail[j] != x {
          assert tail[j] in s[1..];
          var i :| 0 <= i < |s[1..]| && s[1..][i] == tail[j];
          assert s[i + 1] == tail[j];
        }
      }
    }
  }

  lemma {:induction false} InsertByWithKey<T(!new)>(x: T, s: seq<T>, key: T -> string, k: string)
    requires SortedBy(s, key)
    ensures WithKey(InsertBy(x, s, key), key, k) == WithKey(s, key, k) + (if key(x) == k then [x] else [])
    decreases |s|
  {
    if s == [] {
      WithKeyCons(x, [], key, k);
      assert [x] + [] == [x];
    } else if Less(key(x), key(s[0])) {
      InsertFrontWithKey(x, s, key, k);
    } else {
      InsertByWithKey(x, s[1..], key, k);
      InsertAfterWithKey(x, s, key, k);
    }
  }

  /** Inserting past the first element keeps that element first among those with
      its key. */
  lemma InsertAfterWithKey<T(!new)>(x: T, s: seq<T>, key: T -> string, k: string)
    requires |s| > 0 && !Less(key(x), key(s[0]))
    requires WithKey(InsertBy(x, s[1..], key), key, k) == WithKey(s[1..], key, k) + (if key(x) == k then [x] else [])
    ensures WithKey(InsertBy(x, s, key), key, k) == WithKey(s, key, k) + (if key(x) == k then [x] else [])
  {
    var a := if key(s[0]) == k then [s[0]] else [];
    var t := if key(x) == k then [x] else [];
    var w := WithKey(s[1..], key, k);
    calc {
      WithKey(InsertBy(x, s, key), key, k);
    == { InsertByPast(x, s, key); }
      WithKey([s[0]] + InsertBy(x, s[1..], key), key, k);
    == { WithKeyCons(s[0], InsertBy(x, s[1..], key), key, k); }
      a + (w + t);
    ==
      (a + w) + t;
    == { WithKeyFirst(s, key, k); }
      WithKey(s, key, k) + t;
    }
  }

  lemma InsertByPast<T(!new)>(x: T, s: seq<T>, key: T -> string)
    requires |s| > 0 && !Less(key(x), key(s[0]))
    ensures InsertBy(x, s, key) == [s[0]] + InsertBy(x, s[1..], key)
  {
  }

  lemma WithKeyFirst<T(!new)>(s: seq<T>, key: T -> string, k: string)
    requires |s| > 0
    ensures WithKey(s, key, k) == (if key(s[0]) == k then [s[0]] else []) + WithKey(s[1..], key, k)
  {
    WithKeyCons(s[0], s[1..], key, k);
    assert s == [s[0]] + s[1..];
  }

  /** An element placed in front of a sorted sequence whose keys are all greater is
      the only one with its key. */
  lemma InsertFrontWithKey<T(!new)>(x: T, s: seq<T>, key: T -> string, k: string)
    requires SortedBy(s, key) && |s| > 0 && Less(key(x), key(s[0]))
    ensures WithKey([x] + s, key, k) == WithKey(s, key, k) + (if key(x) == k then [x] else [])
  {
    WithKeyCons(x, s, key, k);
    if key(x) == k {
      forall y | y in s ensures key(y) != k {
        BelowAll(x, s, key, y);
      }
      WithKeyNone(s, key, k);
    }
  }

  lemma BelowAll<T(!new)>(x: T, s: seq<T>, key: T -> string, y: T)
    requires SortedBy(s, key) && |s| > 0 && Less(key(x), key(s[0])) && y in s
    ensures key(y) != key(x)
  {
    var j :| 0 <= j < |s| && s[j] == y;
    LessTotal(key(s[0]), key(y));
    if j > 0 && Less(key(s[0]), key(y)) {
      LessTransitive(key(x), key(s[0]), key(y));
    }
    LessIrreflexive(key(x));
  }

  /** What list.sort(key=key) promises: ordered by key, a permutation of the input,
      and stable, since the elements sharing a key keep their relative order. */
  lemma {:induction false} StableSortCorrect<T(!new)>(s: seq<T>, key: T -> string)
    ensures SortedBy(StableSort(s, key), key)
    ensures multiset(StableSort(s, key)) == multiset(s)
    ensures forall k :: WithKey(StableSort(s, key), key, k) == WithKey(s, key, k)
    decreases |s|
  {
    if s != [] {
      var init, x := s[..|s| - 1], s[|s| - 1];
      StableSortCorrect(init, key);
      InsertBySorted(x, StableSort(init, key), key);
      InsertByMultiset(x, StableSort(init, key), key);
      assert s == init + [x];
      forall k ensures WithKey(StableSort(s, key), key, k) == WithKey(s, key, k) {
        InsertByWithKey(x, StableSort(init, key), key, k);
        WithKeySnoc(init, x, key, k);
      }
    }
  }
}

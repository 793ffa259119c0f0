/** A stable sort by a real-valued key: the behaviour of Python's
    `list.sort(key=...)` and of a pandas multi-key `sort_values`, both of
    which keep equal-key elements in their original order. Insertion sort
    serves as the reference definition. */
module Sorting {

  /** Non-decreasing in `key`. */
  ghost predicate SortedBy<T>(s: seq<T>, key: T -> real)
  {
    forall i, j :: 0 <= i < j < |s| ==> key(s[i]) <= key(s[j])
  }

  /** Puts `x` after every element whose key is not greater than its own. */
  function Insert<T>(t: seq<T>, x: T, key: T -> real): (r: seq<T>)
    requires SortedBy(t, key)
    ensures SortedBy(r, key)
    ensures multiset(r) == multiset(t) + multiset{x}
  {
    if t == [] then [x]
    else if key(x) < key(t[0]) then [x] + t
    else
      var rest := Insert(t[1..], x, key);
      assert t == [t[0]] + t[1..];
      InsertLowerBound(t, x, rest, key);
      ConsSorted(t[0], rest, key);
      [t[0]] + rest
  }

  /** Every element of an insertion into the tail of `t` is at least `t[0]`. */
  lemma InsertLowerBound<T>(t: seq<T>, x: T, rest: seq<T>, key: T -> real)
    requires SortedBy(t, key) && t != [] && key(t[0]) <= key(x)
    requires multiset(rest) == multiset(t[1..]) + multiset{x}
    ensures forall i :: 0 <= i < |rest| ==> key(t[0]) <= key(rest[i])
  {
    forall i | 0 <= i < |rest| ensures key(t[0]) <= key(rest[i]) {
      var y := rest[i];
      assert y in multiset(rest);
      if y != x {
        assert y in multiset(t[1..]);
        var m :| 0 <= m < |t[1..]| && t[1..][m] == y;
        assert t[m + 1] == y;
      }
    }
  }

  /** A sorted sequence stays sorted behind an element no greater than any of its own. */
  lemma ConsSorted<T>(h: T, s: seq<T>, key: T -> real)
    requires SortedBy(s, key)
    requires forall i :: 0 <= i < |s| ==> key(h) <= key(s[i])
    ensures SortedBy([h] + s, key)
  {
    var r := [h] + s;
    forall i, j | 0 <= i < j < |r| ensures key(r[i]) <= key(r[j]) {
      assert r[j] == s[j - 1];
      if i > 0 {
        assert r[i] == s[i - 1];
      }
    }
  }

  /** Sorts by `key`, inserting the elements one after another in input order. */
  function SortBy<T>(s: seq<T>, key: T -> real): (r: seq<T>)
    ensures SortedBy(r, key)
    ensures multiset(r) == multiset(s)
    ensures |r| == |s|
  {
    if s == [] then []
    else
      var n := |s| - 1;
      assert s == s[..n] + [s[n]];
      var r := Insert(SortBy(s[..n], key), s[n], key);
      assert |r| == |multiset(r)|;
      r
  }

  /** The elements of `s` whose key is `k`, in their order in `s`. */
  function WithKey<T>(s: seq<T>, key: T -> real, k: real): (r: seq<T>)
    ensures |r| <= |s|
  {
    if s == [] then []
    else if key(s[0]) == k then [s[0]] + WithKey(s[1..], key, k)
    else WithKey(s[1..], key, k)
  }

  /** The group of `k` holds exactly the elements whose key is `k`. */
  lemma {:induction false} WithKeyMembers<T>(s: seq<T>, key: T -> real, k: real)
    ensures forall y {:trigger y in WithKey(s, key, k)} :: y in WithKey(s, key, k) ==> y in s && key(y) == k
    ensures forall y {:trigger y in s} :: y in s && key(y) == k ==> y in WithKey(s, key, k)
  {
    if s != [] {
      WithKeyMembers(s[1..], key, k);
      assert forall y :: y in s <==> y == s[0] || y in s[1..];
    }
  }

  lemma {:induction false} WithKeyAppend<T>(a: seq<T>, b: seq<T>, key: T -> real, k: real)
    ensures WithKey(a + b, key, k) == WithKey(a, key, k) + WithKey(b, key, k)
  {
    if a == [] {
      assert a + b == b;
    } else {
      assert (a + b)[1..] == a[1..] + b;
      WithKeyAppend(a[1..], b, key, k);
    }
  }

  /** A sequence whose keys all exceed `k` has an empty group for `k`. */
  lemma {:induction false} EmptyGroup<T>(t: seq<T>, key: T -> real, k: real)
    requires forall i :: 0 <= i < |t| ==> k < key(t[i])
    ensures WithKey(t, key, k) == []
  {
    if t != [] {
      EmptyGroup(t[1..], key, k);
    }
  }

  /** Inserting `x` into a sorted sequence appends it to the group of its key. */
  lemma {:induction false} InsertWithKey<T>(t: seq<T>, x: T, key: T -> real, k: real)
    requires SortedBy(t, key)
    ensures WithKey(Insert(t, x, key), key, k) == WithKey(t, key, k) + (if key(x) == k then [x] else [])
  {
    if t == [] {
    } else if key(x) < key(t[0]) {
      assert ([x] + t)[1..] == t;
      if key(x) == k {
        EmptyGroup(t, key, k);
        assert WithKey([x] + t, key, k) == [x] + WithKey(t, key, k);
      }
    } else {
      var r := [t[0]] + Insert(t[1..], x, key);
      assert r[1..] == Insert(t[1..], x, key);
      InsertWithKey(t[1..], x, key, k);
    }
  }

  /** Stability: for every key value, the elements carrying it come out in
      the order they went in. */
  lemma {:induction false} SortByStable<T>(s: seq<T>, key: T -> real, k: real)
    ensures WithKey(SortBy(s, key), key, k) == WithKey(s, key, k)
  {
    if s != [] {
      var n := |s| - 1;
      var init, last := s[..n], s[n];
      var sorted := SortBy(init, key);
      SortByLast(s, key);
      SortByStable(init, key, k);
      InsertWithKey(sorted, last, key, k);
      SplitLast(s);
      WithKeyAppend(init, [last], key, k);
      WithKeySingle(last, key, k);
    }
  }

  /** `SortBy` inserts the last element into the sorted prefix. */
  lemma SortByLast<T>(s: seq<T>, key: T -> real)
    requires s != []
    ensures SortBy(s, key) == Insert(SortBy(s[..|s| - 1], key), s[|s| - 1], key)
  {
  }

  lemma SplitLast<T>(s: seq<T>)
    requires s != []
    ensures s == s[..|s| - 1] + [s[|s| - 1]]
  {
  }

  lemma WithKeySingle<T>(x: T, key: T -> real, k: real)
    ensures WithKey([x], key, k) == if key(x) == k then [x] else []
  {
    assert [x][1..] == [];
  }

  /** Taking one key group of a sequence sorted by another key keeps it sorted. */
  lemma {:induction false} GroupStaysSorted<T>(t: seq<T>, major: T -> real, minor: T -> real, k: real)
    requires SortedBy(t, minor)
    ensures SortedBy(WithKey(t, major, k), minor)
  {
    if t != [] {
      GroupStaysSorted(t[1..], major, minor, k);
      if major(t[0]) == k {
        GroupLowerBound(t, major, minor, k);
        ConsSorted(t[0], WithKey(t[1..], major, k), minor);
      }
    }
  }

  /** In a sequence sorted by `minor`, the head is no greater than any
      element of a key group of the tail. */
  lemma GroupLowerBound<T>(t: seq<T>, major: T -> real, minor: T -> real, k: real)
    requires SortedBy(t, minor) && t != []
    ensures forall i :: 0 <= i < |WithKey(t[1..], major, k)| ==> minor(t[0]) <= minor(WithKey(t[1..], major, k)[i])
  {
    var rest := WithKey(t[1..], major, k);
    WithKeyMembers(t[1..], major, k);
    forall i | 0 <= i < |rest| ensures minor(t[0]) <= minor(rest[i]) {
      var y := rest[i];
      assert y in rest;
      assert y in t[1..];
      var m :| 0 <= m < |t[1..]| && t[1..][m] == y;
      assert y == t[m + 1];
    }
  }

  /** If the group of `r[i]`'s key is sorted by `minor`, so are `r[i]` and any
      later element of the same group. */
  lemma {:induction false} GroupOrder<T>(r: seq<T>, major: T -> real, minor: T -> real, i: nat, j: nat)
    requires i < j < |r| && major(r[i]) == major(r[j])
    requires SortedBy(WithKey(r, major, major(r[i])), minor)
    ensures minor(r[i]) <= minor(r[j])
  {
    var k := major(r[i]);
    var rest := WithKey(r[1..], major, k);
    if i == 0 {
      WithKeyMembers(r[1..], major, k);
      assert r[j] in r[1..];
      assert r[j] in rest;
      var m :| 0 <= m < |rest| && rest[m] == r[j];
      assert WithKey(r, major, k) == [r[0]] + rest;
      var g := WithKey(r, major, k);
      assert g[0] == r[0] && g[m + 1] == r[j];
      assert minor(g[0]) <= minor(g[m + 1]);
    } else {
      assert r[1..][i - 1] == r[i] && r[1..][j - 1] == r[j];
      if major(r[0]) == k {
        assert WithKey(r, major, k)[1..] == rest;
      }
      GroupOrder(r[1..], major, minor, i - 1, j - 1);
    }
  }

  /** A stable sort by `minor` followed by a stable sort by `major` orders
      lexicographically by `(major, minor)`. */
  lemma ThenBySorted<T>(s: seq<T>, major: T -> real, minor: T -> real)
    ensures var r := SortBy(SortBy(s, minor), major);
      forall i, j :: 0 <= i < j < |r| ==>
        major(r[i]) < major(r[j]) || (major(r[i]) == major(r[j]) && minor(r[i]) <= minor(r[j]))
  {
    var t := SortBy(s, minor);
    var r := SortBy(t, major);
    forall i, j | 0 <= i < j < |r| && major(r[i]) == major(r[j])
      ensures minor(r[i]) <= minor(r[j])
    {
      var k := major(r[i]);
      SortByStable(t, major, k);
      GroupStaysSorted(t, major, minor, k);
      GroupOrder(r, major, minor, i, j);
    }
  }

  /** The first element of a sorted sequence has the least key. */
  lemma HeadIsLeast<T>(s: seq<T>, key: T -> real, y: T)
    requires SortedBy(s, key) && y in s
    ensures key(s[0]) <= key(y)
  {
    var m :| 0 <= m < |s| && s[m] == y;
    if m > 0 {
      assert key(s[0]) <= key(s[m]);
    }
  }

  /** Only the empty sequence has every key group empty. */
  lemma NoGroupsNoElements<T>(s: seq<T>, key: T -> real)
    requires forall k :: WithKey(s, key, k) == []
    ensures s == []
  {
    if s != [] {
      HeadGroup(s, key);
      assert false;
    }
  }

  /** The group of the first element's key is not empty. */
  lemma HeadGroup<T>(s: seq<T>, key: T -> real)
    requires s != []
    ensures WithKey(s, key, key(s[0])) != []
  {
  }

  /** A sorted sequence is determined by its key groups: two sorted
      sequences whose groups agree for every key are equal. So any stable
      sort of `s` (Python's Timsort among them) returns `SortBy(s, key)`. */
  lemma {:induction false} StableSortUnique<T>(a: seq<T>, b: seq<T>, key: T -> real)
    requires SortedBy(a, key) && SortedBy(b, key)
    requires forall k :: WithKey(a, key, k) == WithKey(b, key, k)
    ensures a == b
    decreases |a| + |b|
  {
    if a == [] {
      NoGroupsNoElements(b, key);
    } else if b == [] {
      NoGroupsNoElements(a, key);
    } else {
      var ka, kb := key(a[0]), key(b[0]);
      WithKeyMembers(a, key, kb);
      WithKeyMembers(b, key, kb);
      assert b[0] in WithKey(a, key, kb);
      HeadIsLeast(a, key, b[0]);
      WithKeyMembers(a, key, ka);
      WithKeyMembers(b, key, ka);
      assert a[0] in WithKey(b, key, ka);
      HeadIsLeast(b, key, a[0]);
      assert ka == kb;
      TailGroupsAgree(a, b, key);
      StableSortUnique(a[1..], b[1..], key);
      assert a == [a[0]] + a[1..] && b == [b[0]] + b[1..];
    }
  }

  /** Two sequences with the same key groups whose heads share a key also
      have the same head and the same key groups after it. */
  lemma TailGroupsAgree<T>(a: seq<T>, b: seq<T>, key: T -> real)
    requires a != [] && b != [] && key(a[0]) == key(b[0])
    requires forall k :: WithKey(a, key, k) == WithKey(b, key, k)
    ensures a[0] == b[0]
    ensures forall k :: WithKey(a[1..], key, k) == WithKey(b[1..], key, k)
  {
    var k0 := key(a[0]);
    assert WithKey(a, key, k0)[0] == a[0] && WithKey(b, key, k0)[0] == b[0];
    forall k ensures WithKey(a[1..], key, k) == WithKey(b[1..], key, k) {
      if k != k0 {
        assert WithKey(a, key, k) == WithKey(a[1..], key, k);
        assert WithKey(b, key, k) == WithKey(b[1..], key, k);
      } else {
        assert WithKey(a, key, k)[1..] == WithKey(a[1..], key, k);
        assert WithKey(b, key, k)[1..] == WithKey(b[1..], key, k);
      }
    }
  }

  /** Taking the group of one key and then of another gives the same
      elements in the same order as taking them the other way round. */
  lemma {:induction false} GroupsCommute<T>(s: seq<T>, k1: T -> real, k2: T -> real, a: real, b: real)
    ensures WithKey(WithKey(s, k1, a), k2, b) == WithKey(WithKey(s, k2, b), k1, a)
  {
    if s != [] {
      GroupsCommute(s[1..], k1, k2, a, b);
    }
  }
}

/** Map keys in a fixed order (StringMapKeys, Int32MapKeys and Uint64MapKeys of
    utils/utils.go): collected in the order the map iterates, then sorted. */
module MapKeys {

  ghost predicate StrictTotalOrder<K(!new)>(less: (K, K) -> bool) {
    && (forall x :: !less(x, x))
    && (forall x, y, z :: less(x, y) && less(y, z) ==> less(x, z))
    && (forall x, y :: x == y || less(x, y) || less(y, x))
  }

  ghost predicate Sorted<K>(s: seq<K>, less: (K, K) -> bool) {
    forall i, j :: 0 <= i < j < |s| ==> !less(s[j], s[i])
  }

  ghost predicate Increasing<K>(s: seq<K>, less: (K, K) -> bool) {
    forall i, j :: 0 <= i < j < |s| ==> less(s[i], s[j])
  }

  /** `keys` lists the keys of `m`, each once, in increasing order. */
  ghost predicate KeysInOrder<K(!new), V>(keys: seq<K>, m: map<K, V>, less: (K, K) -> bool) {
    Increasing(keys, less) && forall k :: k in keys <==> k in m
  }

  /** There is one such list: whatever order the map was iterated in, the result is the same. */
  lemma {:induction false} KeysInOrderUnique<K(!new)>(a: seq<K>, b: seq<K>, less: (K, K) -> bool)
    requires StrictTotalOrder(less)
    requires Increasing(a, less) && Increasing(b, less)
    requires forall k :: k in a <==> k in b
    ensures a == b
  {
    BothEmptyOrNeither(a, b);
    if a != [] {
      assert a[0] in b && b[0] in a;
      assert a[0] == b[0];
      forall k ensures k in a[1..] <==> k in b[1..] {
        TailMembers(a, less, k);
        TailMembers(b, less, k);
      }
      KeysInOrderUnique(a[1..], b[1..], less);
    }
  }

  lemma BothEmptyOrNeither<K>(a: seq<K>, b: seq<K>)
    requires forall k :: k in a <==> k in b
    ensures a == [] <==> b == []
  {
    assert a != [] ==> a[0] in b;
    assert b != [] ==> b[0] in a;
  }

  lemma TailMembers<K(!new)>(s: seq<K>, less: (K, K) -> bool, k: K)
    requires StrictTotalOrder(less) && s != [] && Increasing(s, less)
    ensures k in s[1..] <==> k in s && k != s[0]
  {
    if k in s[1..] {
      var i :| 0 <= i < |s[1..]| && s[1..][i] == k;
      assert less(s[0], s[i + 1]);
    }
  }

  method Insert<K(!new)>(s: seq<K>, x: K, less: (K, K) -> bool) returns (r: seq<K>)
    requires StrictTotalOrder(less) && Sorted(s, less)
    ensures Sorted(r, less)
    ensures multiset(r) == multiset(s) + multiset{x}
  {
    var i := 0;
    while i < |s| && !less(x, s[i])
      invariant 0 <= i <= |s|
      invariant forall j :: 0 <= j < i ==> !less(x, s[j])
    {
      i := i + 1;
    }
    r := s[..i] + [x] + s[i..];
    assert s == s[..i] + s[i..];
    InsertedInOrder(s, x, i, less);
  }

  lemma InsertedInOrder<K(!new)>(s: seq<K>, x: K, i: nat, less: (K, K) -> bool)
    requires StrictTotalOrder(less) && Sorted(s, less) && i <= |s|
    requires forall j :: 0 <= j < i ==> !less(x, s[j])
    requires i < |s| ==> less(x, s[i])
    ensures Sorted(s[..i] + [x] + s[i..], less)
  {
    forall j | i <= j < |s| ensures !less(s[j], x) {
      if j > i { assert !less(s[j], s[i]); }
    }
  }

  /** Sorts a list; the result is a sorted permutation of it. */
  method Sort<K(!new)>(s: seq<K>, less: (K, K) -> bool) returns (r: seq<K>)
    requires StrictTotalOrder(less)
    ensures Sorted(r, less)
    ensures multiset(r) == multiset(s)
  {
    r := [];
    for i := 0 to |s|
      invariant Sorted(r, less)
      invariant multiset(r) == multiset(s[..i])
    {
      r := Insert(r, s[i], less);
      assert s[..i + 1] == s[..i] + [s[i]];
    }
    assert s[..|s|] == s;
  }

  /** Lists the keys of `m` in increasing order. */
  method SortedKeys<K(!new), V>(m: map<K, V>, less: (K, K) -> bool) returns (keys: seq<K>)
    requires StrictTotalOrder(less)
    ensures KeysInOrder(keys, m, less)
  {
    var collected: seq<K> := [];
    var todo := m.Keys;
    while todo != {}
      invariant todo <= m.Keys
      invariant forall k :: multiset(collected)[k] == if k in m.Keys - todo then 1 else 0
      decreases todo
    {
      var k :| k in todo;
      collected := collected + [k];
      todo := todo - {k};
    }
    keys := Sort(collected, less);
    OnceEach(keys, m.Keys, less);
  }

  lemma CountedTwice<K>(s: seq<K>, i: nat, j: nat)
    requires i < j < |s|
    ensures s[i] == s[j] ==> multiset(s)[s[i]] >= 2
  {
    assert s == s[..i] + [s[i]] + s[i + 1..j] + [s[j]] + s[j + 1..];
  }

  lemma OnceEach<K(!new)>(s: seq<K>, keys: set<K>, less: (K, K) -> bool)
    requires StrictTotalOrder(less) && Sorted(s, less)
    requires forall k :: multiset(s)[k] == if k in keys then 1 else 0
    ensures Increasing(s, less)
    ensures forall k :: k in s <==> k in keys
  {
    forall k ensures k in s <==> k in keys {
      assert k in s <==> k in multiset(s);
    }
    forall i, j | 0 <= i < j < |s| ensures less(s[i], s[j]) {
      assert !less(s[j], s[i]);
      CountedTwice(s, i, j);
    }
  }

  /** Strings compare byte by byte, which for UTF-8 is character by character. */
  predicate StringLess(a: string, b: string) {
    b != [] && (a == [] || a[0] < b[0] || (a[0] == b[0] && StringLess(a[1..], b[1..])))
  }

  predicate SmallerAt(a: string, b: string, i: nat) {
    i < |a| && i < |b| && a[..i] == b[..i] && a[i] < b[i]
  }

  /** `a` is a proper prefix of `b`, or has the smaller character where they first differ. */
  ghost predicate ComesFirst(a: string, b: string) {
    a < b || exists i: nat :: SmallerAt(a, b, i)
  }

  lemma SmallerInTails(a: string, b: string, i: nat)
    requires a != [] && b != [] && a[0] == b[0]
    ensures SmallerAt(a, b, i + 1) <==> SmallerAt(a[1..], b[1..], i)
  {
    if i < |a| - 1 && i < |b| - 1 {
      assert a[..i + 1] == [a[0]] + a[1..][..i] && b[..i + 1] == [b[0]] + b[1..][..i];
      assert a[1..][..i] == a[..i + 1][1..] && b[1..][..i] == b[..i + 1][1..];
    }
  }

  lemma FirstInTails(a: string, b: string)
    requires a != [] && b != [] && a[0] == b[0]
    ensures ComesFirst(a, b) <==> ComesFirst(a[1..], b[1..])
  {
    assert a == [a[0]] + a[1..] && b == [b[0]] + b[1..];
    assert a < b <==> a[1..] < b[1..];
    if i: nat :| SmallerAt(a, b, i) {
      SmallerInTails(a, b, i - 1);
    }
    if i: nat :| SmallerAt(a[1..], b[1..], i) {
      SmallerInTails(a, b, i);
    }
  }

  lemma {:induction false} StringLessIff(a: string, b: string)
    ensures StringLess(a, b) <==> ComesFirst(a, b)
  {
    if a != [] && b != [] {
      if a[0] == b[0] {
        StringLessIff(a[1..], b[1..]);
        FirstInTails(a, b);
      } else {
        FirstOfDifferent(a, b);
      }
    }
  }

  lemma SmallerFurtherOn(a: string, b: string, i: nat)
    requires SmallerAt(a, b, i)
    ensures i > 0 ==> a[0] == b[0]
  {
    if i > 0 {
      assert a[..i][0] == b[..i][0];
    }
  }

  lemma FirstOfDifferent(a: string, b: string)
    requires a != [] && b != [] && a[0] != b[0]
    ensures ComesFirst(a, b) <==> a[0] < b[0]
  {
    assert a[0] < b[0] ==> SmallerAt(a, b, 0);
    forall i: nat | SmallerAt(a, b, i) ensures i == 0 {
      SmallerFurtherOn(a, b, i);
    }
  }

  lemma {:induction false} StringLessLaws(x: string, y: string, z: string)
    ensures !StringLess(x, x)
    ensures StringLess(x, y) && StringLess(y, z) ==> StringLess(x, z)
    ensures x == y || StringLess(x, y) || StringLess(y, x)
  {
    if x != [] && y != [] && z != [] {
      StringLessLaws(x[1..], y[1..], z[1..]);
      assert x == [x[0]] + x[1..] && y == [y[0]] + y[1..];
    } else if x != [] && y != [] {
      StringLessLaws(x[1..], y[1..], []);
      assert x == [x[0]] + x[1..] && y == [y[0]] + y[1..];
    } else if x != [] {
      StringLessLaws(x[1..], [], []);
    }
  }

  lemma StringLessIsStrictTotalOrder()
    ensures StrictTotalOrder(StringLess)
  {
    forall x, y, z
      ensures !StringLess(x, x)
      ensures StringLess(x, y) && StringLess(y, z) ==> StringLess(x, z)
      ensures x == y || StringLess(x, y) || StringLess(y, x)
    {
      StringLessLaws(x, y, z);
    }
  }

  method StringMapKeys<V>(m: map<string, V>) returns (keys: seq<string>)
    ensures forall i, j :: 0 <= i < j < |keys| ==> ComesFirst(keys[i], keys[j])
    ensures forall k :: k in keys <==> k in m
  {
    StringLessIsStrictTotalOrder();
    keys := SortedKeys(m, StringLess);
    forall i, j | 0 <= i < j < |keys| ensures ComesFirst(keys[i], keys[j]) {
      StringLessIff(keys[i], keys[j]);
    }
  }

  function IntLess(): (int, int) -> bool { (x: int, y: int) => x < y }

  /** Int32MapKeys and Uint64MapKeys are this, on the integers of their key type. */
  method IntMapKeys<V>(m: map<int, V>) returns (keys: seq<int>)
    ensures forall i, j :: 0 <= i < j < |keys| ==> keys[i] < keys[j]
    ensures forall k :: k in keys <==> k in m
  {
    keys := SortedKeys(m, IntLess());
    assert forall i, j :: 0 <= i < j < |keys| ==> IntLess()(keys[i], keys[j]);
  }
}

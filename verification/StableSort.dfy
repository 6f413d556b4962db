/** The built-in stable sort with a descending key, as a function, and what truncating its result loses: nothing. */
module StableSort {

  /** Puts `x` behind everything that is at least as large. */
  function Insert<T>(x: T, s: seq<T>, key: T -> int): seq<T> {
    if s == [] || key(s[0]) < key(x) then [x] + s else [s[0]] + Insert(x, s[1..], key)
  }

  function SortDesc<T>(s: seq<T>, key: T -> int): seq<T> {
    if s == [] then [] else Insert(s[|s| - 1], SortDesc(s[..|s| - 1], key), key)
  }

  predicate Descending<T>(s: seq<T>, key: T -> int) {
    forall i, j :: 0 <= i < j < |s| ==> key(s[i]) >= key(s[j])
  }

  /** The elements of one key, in order. */
  function OfKey<T>(s: seq<T>, key: T -> int, k: int): seq<T> {
    if s == [] then [] else (if key(s[0]) == k then [s[0]] else []) + OfKey(s[1..], key, k)
  }

  lemma {:induction false} InsertElements<T>(x: T, s: seq<T>, key: T -> int)
    ensures multiset(Insert(x, s, key)) == multiset(s) + multiset{x}
  {
    if s == [] || key(s[0]) < key(x) {
    } else {
      InsertElements(x, s[1..], key);
      assert s == [s[0]] + s[1..];
    }
  }

  lemma {:induction false} InsertDescending<T>(x: T, s: seq<T>, key: T -> int)
    requires Descending(s, key)
    ensures Descending(Insert(x, s, key), key)
    ensures Insert(x, s, key) != [] && (key(Insert(x, s, key)[0]) == key(x) || (s != [] && Insert(x, s, key)[0] == s[0]))
  {
    if s == [] || key(s[0]) < key(x) {
    } else {
      InsertDescending(x, s[1..], key);
      var r := Insert(x, s[1..], key);
      forall j | 0 <= j < |r| ensures key(s[0]) >= key(r[j]) {
        assert key(r[0]) >= key(r[j]);
      }
    }
  }

  lemma {:induction false} SortIsDescending<T>(s: seq<T>, key: T -> int)
    ensures Descending(SortDesc(s, key), key)
    ensures multiset(SortDesc(s, key)) == multiset(s)
  {
    if s != [] {
      var n := |s| - 1;
      SortIsDescending(s[..n], key);
      InsertDescending(s[n], SortDesc(s[..n], key), key);
      InsertElements(s[n], SortDesc(s[..n], key), key);
      assert s == s[..n] + [s[n]];
    }
  }

  lemma {:induction false} SortKeepsLength<T>(s: seq<T>, key: T -> int)
    ensures |SortDesc(s, key)| == |s|
  {
    SortIsDescending(s, key);
    assert |multiset(SortDesc(s, key))| == |multiset(s)|;
  }

  lemma {:induction false} OfKeyConcat<T>(a: seq<T>, b: seq<T>, key: T -> int, k: int)
    ensures OfKey(a + b, key, k) == OfKey(a, key, k) + OfKey(b, key, k)
  {
    if a == [] {
      assert a + b == b;
    } else {
      var rest := a[1..];
      OfKeyConcat(rest, b, key, k);
      OfKeyCons(a[0], rest, key, k);
      OfKeyCons(a[0], rest + b, key, k);
      assert a == [a[0]] + rest && a + b == [a[0]] + (rest + b);
    }
  }

  lemma {:induction false} OfKeyCons<T>(x: T, rest: seq<T>, key: T -> int, k: int)
    ensures OfKey([x] + rest, key, k) == (if key(x) == k then [x] else []) + OfKey(rest, key, k)
  {
    assert ([x] + rest)[1..] == rest;
  }

  lemma {:induction false} InsertOfKey<T>(x: T, s: seq<T>, key: T -> int, k: int)
    requires Descending(s, key)
    ensures OfKey(Insert(x, s, key), key, k) == OfKey(s, key, k) + OfKey([x], key, k)
  {
    if s == [] || key(s[0]) < key(x) {
      OfKeyConcat([x], s, key, k);
      if key(x) == k {
        NoneOfKey(s, key, k);
      }
    } else {
      InsertOfKey(x, s[1..], key, k);
    }
  }

  lemma {:induction false} NoneOfKey<T>(s: seq<T>, key: T -> int, k: int)
    requires forall i :: 0 <= i < |s| ==> key(s[i]) != k
    ensures OfKey(s, key, k) == []
  {
    if s != [] {
      NoneOfKey(s[1..], key, k);
    }
  }

  /** Equal keys keep their order. */
  lemma {:induction false} SortIsStable<T>(s: seq<T>, key: T -> int, k: int)
    ensures OfKey(SortDesc(s, key), key, k) == OfKey(s, key, k)
  {
    if s != [] {
      var n := |s| - 1;
      SortIsStable(s[..n], key, k);
      SortIsDescending(s[..n], key);
      InsertOfKey(s[n], SortDesc(s[..n], key), key, k);
      OfKeyConcat(s[..n], [s[n]], key, k);
      assert s == s[..n] + [s[n]];
    }
  }

  function Take<T>(n: nat, s: seq<T>): seq<T> {
    if |s| <= n then s else s[..n]
  }

  /** Whether an element makes the first `n` depends only on the first `n`. */
  lemma {:induction false} InsertTake<T>(n: nat, x: T, s: seq<T>, key: T -> int)
    ensures Take(n, Insert(x, s, key)) == Take(n, Insert(x, Take(n, s), key))
  {
    if n == 0 {
    } else if s != [] && key(s[0]) >= key(x) {
      InsertTake(n - 1, x, s[1..], key);
      assert Take(n, s) == [s[0]] + Take(n - 1, s[1..]);
      assert Take(n, s)[1..] == Take(n - 1, s[1..]);
      assert Take(n, Insert(x, s, key)) == [s[0]] + Take(n - 1, Insert(x, s[1..], key));
    } else if |s| > n {
      assert Take(n, s)[0] == s[0];
    }
  }

  lemma {:induction false} InsertLast<T>(x: T, s: seq<T>, key: T -> int)
    requires forall i :: 0 <= i < |s| ==> key(s[i]) >= key(x)
    ensures Insert(x, s, key) == s + [x]
  {
    if s != [] {
      InsertLast(x, s[1..], key);
      assert s == [s[0]] + s[1..];
    }
  }

  lemma {:induction false} SortSorted<T>(s: seq<T>, key: T -> int)
    requires Descending(s, key)
    ensures SortDesc(s, key) == s
  {
    if s != [] {
      var n := |s| - 1;
      SortSorted(s[..n], key);
      InsertLast(s[n], s[..n], key);
      assert s == s[..n] + [s[n]];
    }
  }

  /** Sorting and cutting a prefix early does not change the first `n` of the whole. */
  lemma {:induction false} CutEarly<T>(n: nat, a: seq<T>, b: seq<T>, key: T -> int)
    ensures Take(n, SortDesc(Take(n, SortDesc(a, key)) + b, key)) == Take(n, SortDesc(a + b, key))
    decreases |b|
  {
    var cut := Take(n, SortDesc(a, key));
    SortIsDescending(a, key);
    if b == [] {
      SortSorted(cut, key);
      assert cut + b == cut && a + b == a;
    } else {
      var m := |b| - 1;
      CutEarly(n, a, b[..m], key);
      CutEarlyNext(n, cut, a, b[..m], b[m], key);
      assert b == b[..m] + [b[m]];
    }
  }

  lemma {:induction false} CutEarlyNext<T>(n: nat, cut: seq<T>, a: seq<T>, b: seq<T>, x: T, key: T -> int)
    requires Take(n, SortDesc(cut + b, key)) == Take(n, SortDesc(a + b, key))
    ensures Take(n, SortDesc(cut + (b + [x]), key)) == Take(n, SortDesc(a + (b + [x]), key))
  {
    SortLast(cut, b, x, key);
    SortLast(a, b, x, key);
    InsertTake(n, x, SortDesc(cut + b, key), key);
    InsertTake(n, x, SortDesc(a + b, key), key);
  }

  lemma {:induction false} SortLast<T>(a: seq<T>, b: seq<T>, x: T, key: T -> int)
    ensures SortDesc(a + (b + [x]), key) == Insert(x, SortDesc(a + b, key), key)
  {
    var all := a + (b + [x]);
    assert all[..|all| - 1] == a + b && all[|all| - 1] == x;
  }
}

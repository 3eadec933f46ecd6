/**
 A stable sort into non-increasing key order, the behaviour of Python's
 `list.sort(key=..., reverse=True)`: elements with equal keys keep their
 original relative order.
 */
module StableSort {

  /** Keys never increase from left to right. */
  ghost predicate NonIncreasing<T>(s: seq<T>, key: T -> real) {
    forall i, j :: 0 <= i < j < |s| ==> key(s[i]) >= key(s[j])
  }

  /** The subsequence of `s` whose key is `k`, in the order of `s`. */
  function WithKey<T>(s: seq<T>, key: T -> real, k: real): (r: seq<T>)
    ensures |r| <= |s|
    decreases |s|
  {
    if |s| == 0 then []
    else (if key(s[0]) == k then [s[0]] else []) + WithKey(s[1..], key, k)
  }

  lemma {:induction false} WithKeyAppend<T>(a: seq<T>, b: seq<T>, key: T -> real, k: real)
    ensures WithKey(a + b, key, k) == WithKey(a, key, k) + WithKey(b, key, k)
    decreases |a|
  {
    if |a| == 0 {
      assert a + b == b;
    } else {
      var h := if key(a[0]) == k then [a[0]] else [];
      assert (a + b)[0] == a[0];
      assert (a + b)[1..] == a[1..] + b;
      assert WithKey(a + b, key, k) == h + WithKey(a[1..] + b, key, k);
      WithKeyAppend(a[1..], b, key, k);
      assert WithKey(a, key, k) == h + WithKey(a[1..], key, k);
    }
  }

  lemma {:induction false} WithKeyAbsent<T>(s: seq<T>, key: T -> real, k: real)
    requires forall i :: 0 <= i < |s| ==> key(s[i]) != k
    ensures WithKey(s, key, k) == []
    decreases |s|
  {
    if |s| != 0 {
      WithKeyAbsent(s[1..], key, k);
    }
  }

  /**
   Inserts `x` in front of the first element whose key is strictly smaller, so
   that it lands behind every element whose key equals its own.
   */
  function Insert<T(==)>(x: T, s: seq<T>, key: T -> real): (r: seq<T>)
    ensures multiset(r) == multiset(s) + multiset{x}
    decreases |s|
  {
    if |s| == 0 then [x]
    else if key(s[0]) < key(x) then [x] + s
    else
      assert s == [s[0]] + s[1..];
      [s[0]] + Insert(x, s[1..], key)
  }

  /** Inserting `x` under a bound that `x` and all of `s` respect stays under it. */
  lemma {:induction false} InsertBounded<T>(x: T, s: seq<T>, key: T -> real, b: real)
    requires key(x) <= b
    requires forall i :: 0 <= i < |s| ==> key(s[i]) <= b
    ensures forall i :: 0 <= i < |Insert(x, s, key)| ==> key(Insert(x, s, key)[i]) <= b
    decreases |s|
  {
    if |s| != 0 && key(s[0]) >= key(x) {
      InsertBounded(x, s[1..], key, b);
    }
  }

  /** Insertion keeps a sorted sequence sorted. */
  lemma {:induction false} InsertSorted<T>(x: T, s: seq<T>, key: T -> real)
    requires NonIncreasing(s, key)
    ensures NonIncreasing(Insert(x, s, key), key)
    decreases |s|
  {
    if |s| != 0 && key(s[0]) >= key(x) {
      var rest := Insert(x, s[1..], key);
      InsertSorted(x, s[1..], key);
      InsertBounded(x, s[1..], key, key(s[0]));
      var r := [s[0]] + rest;
      forall i, j | 0 <= i < j < |r| ensures key(r[i]) >= key(r[j]) {
        if i > 0 {
          assert r[i] == rest[i - 1] && r[j] == rest[j - 1];
        } else {
          assert r[j] == rest[j - 1];
        }
      }
    }
  }

  /** A suffix of a sorted sequence is sorted. */
  lemma TailNonIncreasing<T>(s: seq<T>, key: T -> real)
    requires |s| > 0 && NonIncreasing(s, key)
    ensures NonIncreasing(s[1..], key)
  {
    forall i, j | 0 <= i < j < |s[1..]| ensures key(s[1..][i]) >= key(s[1..][j]) {
      assert s[1..][i] == s[i + 1] && s[1..][j] == s[j + 1];
    }
  }

  /** A key larger than the head of a sorted sequence occurs nowhere in it. */
  lemma AboveHeadAbsent<T>(s: seq<T>, key: T -> real, k: real)
    requires |s| > 0 && NonIncreasing(s, key) && key(s[0]) < k
    ensures WithKey(s, key, k) == []
  {
    forall i | 0 <= i < |s| ensures key(s[i]) != k {
      if i > 0 {
        assert key(s[0]) >= key(s[i]);
      }
    }
    WithKeyAbsent(s, key, k);
  }

  /** On sorted input, `x` is appended to the subsequence of its own key and no other. */
  lemma {:induction false} InsertWithKey<T>(x: T, s: seq<T>, key: T -> real, k: real)
    requires NonIncreasing(s, key)
    ensures WithKey(Insert(x, s, key), key, k) == WithKey(s, key, k) + (if key(x) == k then [x] else [])
    decreases |s|
  {
    var r := Insert(x, s, key);
    var hx := if key(x) == k then [x] else [];
    if |s| == 0 {
      assert WithKey(r, key, k) == hx + WithKey([], key, k);
    } else if key(s[0]) < key(x) {
      assert r[0] == x && r[1..] == s;
      assert WithKey(r, key, k) == hx + WithKey(s, key, k);
      if key(x) == k {
        AboveHeadAbsent(s, key, k);
        assert hx + [] == [] + hx;
      } else {
        assert [] + WithKey(s, key, k) == WithKey(s, key, k) + [];
      }
    } else {
      var rest := Insert(x, s[1..], key);
      var h0 := if key(s[0]) == k then [s[0]] else [];
      assert r[0] == s[0] && r[1..] == rest;
      assert WithKey(r, key, k) == h0 + WithKey(rest, key, k);
      assert WithKey(s, key, k) == h0 + WithKey(s[1..], key, k);
      TailNonIncreasing(s, key);
      InsertWithKey(x, s[1..], key, k);
      var tail := WithKey(s[1..], key, k);
      assert WithKey(r, key, k) == h0 + (tail + hx);
      ConcatAssoc(h0, tail, hx);
    }
  }

  lemma ConcatAssoc<T>(a: seq<T>, b: seq<T>, c: seq<T>)
    ensures a + (b + c) == (a + b) + c
  {
  }

  /** Insertion sort, inserting the elements of `s` from first to last. */
  function SortDesc<T(==)>(s: seq<T>, key: T -> real): (r: seq<T>)
    ensures multiset(r) == multiset(s)
    ensures NonIncreasing(r, key)
    ensures forall k :: WithKey(r, key, k) == WithKey(s, key, k)
    decreases |s|
  {
    if |s| == 0 then []
    else
      var init := s[..|s| - 1];
      var x := s[|s| - 1];
      var sorted := SortDesc(init, key);
      assert s == init + [x];
      SortStep(init, x, sorted, key);
      InsertSorted(x, sorted, key);
      Insert(x, sorted, key)
  }

  /** Inserting the last element keeps every key's subsequence equal to the input's. */
  lemma SortStep<T>(init: seq<T>, x: T, sorted: seq<T>, key: T -> real)
    requires NonIncreasing(sorted, key)
    requires forall k :: WithKey(sorted, key, k) == WithKey(init, key, k)
    ensures forall k :: WithKey(Insert(x, sorted, key), key, k) == WithKey(init + [x], key, k)
  {
    forall k ensures WithKey(Insert(x, sorted, key), key, k) == WithKey(init + [x], key, k) {
      InsertWithKey(x, sorted, key, k);
      WithKeyAppend(init, [x], key, k);
      assert WithKey([x], key, k) == (if key(x) == k then [x] else []) + WithKey([], key, k);
    }
  }

  lemma {:induction false} WithKeyMembers<T>(s: seq<T>, key: T -> real, k: real)
    ensures forall i :: 0 <= i < |WithKey(s, key, k)| ==>
      key(WithKey(s, key, k)[i]) == k && WithKey(s, key, k)[i] in s
    decreases |s|
  {
    if |s| != 0 {
      WithKeyMembers(s[1..], key, k);
      var r := WithKey(s, key, k);
      var tail := WithKey(s[1..], key, k);
      forall i | 0 <= i < |r| ensures key(r[i]) == k && r[i] in s {
        if key(s[0]) != k || i > 0 {
          var j := if key(s[0]) == k then i - 1 else i;
          assert r[i] == tail[j];
          assert tail[j] in s[1..];
        }
      }
    }
  }

  /** The first element of a sorted sequence holds the largest key in it. */
  lemma HeadHoldsMaxKey<T>(s: seq<T>, key: T -> real, k: real)
    requires NonIncreasing(s, key)
    requires WithKey(s, key, k) != []
    ensures |s| > 0 && key(s[0]) >= k
  {
    WithKeyMembers(s, key, k);
    var y := WithKey(s, key, k)[0];
    var j :| 0 <= j < |s| && s[j] == y;
    assert key(s[j]) == k;
    if j > 0 {
      assert key(s[0]) >= key(s[j]);
    }
  }

  /**
   A stable non-increasing arrangement is unique: two sorted sequences with the
   same subsequence for every key are equal. So `SortDesc` is characterised by
   its contract.
   */
  lemma {:induction false} SortedArrangementUnique<T>(a: seq<T>, b: seq<T>, key: T -> real)
    requires NonIncreasing(a, key) && NonIncreasing(b, key)
    requires forall k :: WithKey(a, key, k) == WithKey(b, key, k)
    ensures a == b
    decreases |a|
  {
    if |a| != 0 {
      var ka := key(a[0]);
      assert WithKey(a, key, ka) != [];
      HeadHoldsMaxKey(b, key, ka);
      var kb := key(b[0]);
      assert WithKey(b, key, kb) != [];
      HeadHoldsMaxKey(a, key, kb);
      assert ka == kb;
      assert WithKey(a, key, ka)[0] == a[0];
      assert WithKey(b, key, kb)[0] == b[0];
      assert a[0] == b[0];
      forall k ensures WithKey(a[1..], key, k) == WithKey(b[1..], key, k) {
        var h := if key(a[0]) == k then [a[0]] else [];
        assert WithKey(a, key, k) == h + WithKey(a[1..], key, k);
        assert WithKey(b, key, k) == h + WithKey(b[1..], key, k);
        assert WithKey(a[1..], key, k) == (h + WithKey(a[1..], key, k))[|h|..];
        assert WithKey(b[1..], key, k) == (h + WithKey(b[1..], key, k))[|h|..];
      }
      TailNonIncreasing(a, key);
      TailNonIncreasing(b, key);
      SortedArrangementUnique(a[1..], b[1..], key);
      assert a == [a[0]] + a[1..] && b == [b[0]] + b[1..];
    }
  }
}

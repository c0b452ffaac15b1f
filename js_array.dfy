/** The `Array.prototype` methods the program relies on (ECMA-262, 2023 edition,
    section 23.1.3), stated over Dafny sequences: `slice(0, end)`, `findIndex`, `find`,
    a stable `sort` with a numeric comparator, and `splice(start, 1)`. */
module JsArray {
  import opened Wrappers

  /** No element occurs twice. */
  ghost predicate Distinct<T>(s: seq<T>) {
    forall i, j :: 0 <= i < j < |s| ==> s[i] != s[j]
  }

  // ---------------------------------------------------------------------------
  // Relative positions, slice and splice
  // ---------------------------------------------------------------------------

  /** How `slice` and `splice` turn a relative position into an index of an array of
      length `n`: a negative position counts back from the end, and the result is
      clamped to `0 .. n`. */
  function RelativeIndex(rel: int, n: nat): (k: nat)
    ensures k <= n
    ensures 0 <= rel <= n ==> k == rel
    ensures n < rel ==> k == n
    ensures rel < 0 && 0 <= n + rel ==> k == n + rel
    ensures n + rel < 0 ==> k == 0
  {
    if rel < 0 then (if n + rel < 0 then 0 else n + rel)
    else if rel < n then rel
    else n
  }

  /** `s.slice(0, end)`: a prefix of `s`. */
  function Take<T>(s: seq<T>, end: int): (r: seq<T>)
    ensures r <= s
    ensures 0 <= end ==> |r| == (if end <= |s| then end else |s|)
    ensures end < 0 ==> |r| == (if |s| + end <= 0 then 0 else |s| + end)
  {
    s[..RelativeIndex(end, |s|)]
  }

  /** A copy of `s` after `splice(start, 1)`: the element at the relative position
      `start` is removed when there is one. */
  function RemoveAt<T>(s: seq<T>, start: int): (r: seq<T>)
    ensures RelativeIndex(start, |s|) < |s| ==>
      |r| == |s| - 1 && multiset(r) + multiset{s[RelativeIndex(start, |s|)]} == multiset(s)
    ensures RelativeIndex(start, |s|) == |s| ==> r == s
    ensures forall j :: 0 <= j < |r| ==>
      r[j] == if j < RelativeIndex(start, |s|) then s[j] else s[j + 1]
  {
    var k := RelativeIndex(start, |s|);
    if k < |s| then
      assert s == s[..k] + [s[k]] + s[k + 1..];
      s[..k] + s[k + 1..]
    else s
  }

  /** Removing an element keeps the others distinct. */
  lemma {:induction false} RemoveAtKeepsDistinct<T>(s: seq<T>, start: int)
    requires Distinct(s)
    ensures Distinct(RemoveAt(s, start))
  {
    var r := RemoveAt(s, start);
    var k := RelativeIndex(start, |s|);
    forall i, j | 0 <= i < j < |r| ensures r[i] != r[j] {
      var i' := if i < k then i else i + 1;
      var j' := if j < k then j else j + 1;
      assert r[i] == s[i'] && r[j] == s[j'] && i' < j';
    }
  }

  // ---------------------------------------------------------------------------
  // findIndex and find, keyed by a string field compared with ===
  // ---------------------------------------------------------------------------

  /** `s.findIndex(x => key(x) === v)`: the first position whose key is `v`, or -1. */
  function FindIndex<T>(s: seq<T>, key: T -> string, v: string): (i: int)
    ensures -1 <= i < |s|
    ensures 0 <= i ==> key(s[i]) == v && forall j :: 0 <= j < i ==> key(s[j]) != v
    ensures i == -1 <==> forall j :: 0 <= j < |s| ==> key(s[j]) != v
  {
    if s == [] then -1
    else if key(s[0]) == v then 0
    else
      var k := FindIndex(s[1..], key, v);
      if k < 0 then -1 else k + 1
  }

  /** `s.find(x => key(x) === v)`: the first element whose key is `v`, or `undefined`. */
  function Find<T>(s: seq<T>, key: T -> string, v: string): (r: Option<T>)
    ensures r.Some? <==> exists j :: 0 <= j < |s| && key(s[j]) == v
    ensures r.Some? ==> key(r.value) == v && r.value in s
    ensures r.Some? ==> exists j :: 0 <= j < |s| && s[j] == r.value &&
                                    forall j' :: 0 <= j' < j ==> key(s[j']) != v
  {
    var i := FindIndex(s, key, v);
    if i < 0 then None else Some(s[i])
  }

  // ---------------------------------------------------------------------------
  // A stable sort with the comparator (a, b) => key(b) - key(a)
  // ---------------------------------------------------------------------------

  /** Ordered from the largest key to the smallest. */
  ghost predicate NonIncreasing<T>(s: seq<T>, key: T -> int) {
    forall i, j :: 0 <= i < j < |s| ==> key(s[i]) >= key(s[j])
  }

  /** The elements of `s` whose key is `k`, in their order in `s`. */
  function KeyClass<T>(s: seq<T>, key: T -> int, k: int): seq<T> {
    if s == [] then []
    else (if key(s[0]) == k then [s[0]] else []) + KeyClass(s[1..], key, k)
  }

  /** Puts `x` in front of the first element whose key is not larger than its own. */
  function Insert<T>(x: T, s: seq<T>, key: T -> int): (r: seq<T>)
    ensures multiset(r) == multiset(s) + multiset{x}
  {
    if s == [] || key(s[0]) <= key(x) then [x] + s
    else
      assert s == [s[0]] + s[1..];
      [s[0]] + Insert(x, s[1..], key)
  }

  /** `[...s].sort((a, b) => key(b) - key(a))`. `Array.prototype.sort` is stable
      (ECMA-262, section 23.1.3.30), and this comparator is consistent on integers, so
      the result is this insertion sort: each element goes in front of every later
      element with an equal key. */
  function SortDesc<T>(s: seq<T>, key: T -> int): (r: seq<T>)
    ensures multiset(r) == multiset(s) && |r| == |s|
    ensures NonIncreasing(r, key)
  {
    if s == [] then []
    else
      var rest := SortDesc(s[1..], key);
      InsertKeepsOrder(s[0], rest, key);
      assert s == [s[0]] + s[1..];
      Insert(s[0], rest, key)
  }

  /** One step of the sort: the head is inserted into the sorted rest. */
  lemma SortCons<T>(x: T, s: seq<T>, key: T -> int)
    ensures SortDesc([x] + s, key) == Insert(x, SortDesc(s, key), key)
  {
    assert ([x] + s)[1..] == s;
  }

  /** An element goes past every element with a strictly larger key. */
  lemma InsertPast<T>(x: T, y: T, s: seq<T>, key: T -> int)
    requires key(x) < key(y)
    ensures Insert(x, [y] + s, key) == [y] + Insert(x, s, key)
  {
    assert ([y] + s)[1..] == s;
  }

  /** An element goes in front when the next key is not larger. */
  lemma InsertFront<T>(x: T, s: seq<T>, key: T -> int)
    requires s == [] || key(s[0]) <= key(x)
    ensures Insert(x, s, key) == [x] + s
  {
  }

  /** Inserting into a sequence ordered from the largest key keeps it ordered. */
  lemma {:induction false} InsertKeepsOrder<T>(x: T, s: seq<T>, key: T -> int)
    requires NonIncreasing(s, key)
    ensures NonIncreasing(Insert(x, s, key), key)
  {
    if s == [] || key(s[0]) <= key(x) {
      forall j | 0 <= j < |s| ensures key(x) >= key(s[j]) {
        assert j == 0 || key(s[0]) >= key(s[j]);
      }
      ConsKeepsOrder(x, s, key);
    } else {
      var rest := Insert(x, s[1..], key);
      assert NonIncreasing(s[1..], key) by {
        forall i, j | 0 <= i < j < |s[1..]| ensures key(s[1..][i]) >= key(s[1..][j]) {
          assert s[1..][i] == s[i + 1] && s[1..][j] == s[j + 1];
        }
      }
      InsertKeepsOrder(x, s[1..], key);
      forall j | 0 <= j < |rest| ensures key(s[0]) >= key(rest[j]) {
        assert rest[j] in multiset(rest);
        assert rest[j] == x || rest[j] in multiset(s[1..]);
        if rest[j] != x {
          var m :| 0 <= m < |s[1..]| && s[1..][m] == rest[j];
          assert s[m + 1] == rest[j];
        }
      }
      ConsKeepsOrder(s[0], rest, key);
    }
  }

  /** An element with a key at least every key of an ordered sequence can go in front. */
  lemma ConsKeepsOrder<T>(y: T, r: seq<T>, key: T -> int)
    requires NonIncreasing(r, key)
    requires forall j :: 0 <= j < |r| ==> key(y) >= key(r[j])
    ensures NonIncreasing([y] + r, key)
  {
    var t := [y] + r;
    forall i, j | 0 <= i < j < |t| ensures key(t[i]) >= key(t[j]) {
      assert t[j] == r[j - 1];
      if i > 0 { assert t[i] == r[i - 1]; }
    }
  }

  lemma {:induction false} KeyClassAppend<T>(a: seq<T>, b: seq<T>, key: T -> int, k: int)
    ensures KeyClass(a + b, key, k) == KeyClass(a, key, k) + KeyClass(b, key, k)
  {
    if a == [] {
      assert a + b == b;
    } else {
      var head := if key(a[0]) == k then [a[0]] else [];
      var ka, kb := KeyClass(a[1..], key, k), KeyClass(b, key, k);
      assert a + b != [] && (a + b)[0] == a[0];
      assert (a + b)[1..] == a[1..] + b;
      assert KeyClass(a + b, key, k) == head + KeyClass(a[1..] + b, key, k);
      KeyClassAppend(a[1..], b, key, k);
      assert KeyClass(a, key, k) == head + ka;
      assert head + (ka + kb) == (head + ka) + kb;
    }
  }

  /** Inserting `x` adds it at the head of its key class and leaves the other classes alone. */
  lemma {:induction false} InsertKeyClass<T>(x: T, s: seq<T>, key: T -> int, k: int)
    ensures KeyClass(Insert(x, s, key), key, k) == (if key(x) == k then [x] else []) + KeyClass(s, key, k)
  {
    var hx := if key(x) == k then [x] else [];
    if s == [] || key(s[0]) <= key(x) {
      var r := [x] + s;
      assert r[0] == x && r[1..] == s;
      assert KeyClass(r, key, k) == hx + KeyClass(s, key, k);
    } else {
      var rest := Insert(x, s[1..], key);
      var r := [s[0]] + rest;
      var h0 := if key(s[0]) == k then [s[0]] else [];
      assert r[0] == s[0] && r[1..] == rest;
      assert KeyClass(r, key, k) == h0 + KeyClass(rest, key, k);
      InsertKeyClass(x, s[1..], key, k);
      var tail := KeyClass(s[1..], key, k);
      assert KeyClass(rest, key, k) == hx + tail;
      assert KeyClass(s, key, k) == h0 + tail;
      if key(x) == k {
        assert h0 == [];
        assert [] + (hx + tail) == hx + tail;
        assert [] + tail == tail;
      } else {
        assert hx == [];
        assert [] + tail == tail;
        assert [] + (h0 + tail) == h0 + tail;
      }
    }
  }

  /** Stability: the sort keeps the relative order of the elements of every key class. */
  lemma {:induction false} SortDescStable<T>(s: seq<T>, key: T -> int, k: int)
    ensures KeyClass(SortDesc(s, key), key, k) == KeyClass(s, key, k)
  {
    if s != [] {
      SortDescStable(s[1..], key, k);
      InsertKeyClass(s[0], SortDesc(s[1..], key), key, k);
    }
  }

  /** The key class of a prefix is a prefix of the key class. */
  lemma KeyClassOfPrefix<T>(s: seq<T>, m: nat, key: T -> int, k: int)
    requires m <= |s|
    ensures KeyClass(s[..m], key, k) <= KeyClass(s, key, k)
  {
    assert s == s[..m] + s[m..];
    KeyClassAppend(s[..m], s[m..], key, k);
  }

  /** Every element of `s` that a prefix of the sorted sequence leaves out has a key no
      larger than any element the prefix keeps. */
  lemma TopOfSorted<T>(s: seq<T>, key: T -> int, end: int)
    ensures var r := Take(SortDesc(s, key), end);
      forall x, i :: x in multiset(s) - multiset(r) && 0 <= i < |r| ==> key(x) <= key(r[i])
  {
    var sorted := SortDesc(s, key);
    var r := Take(sorted, end);
    var rest := sorted[|r|..];
    assert sorted == r + rest;
    assert multiset(s) - multiset(r) == multiset(rest) by {
      assert multiset(sorted) == multiset(r) + multiset(rest);
    }
    SuffixBelowPrefix(sorted, r, rest, key);
  }

  /** In a sequence ordered from the largest key, nothing after a cut has a larger key
      than anything before it. */
  lemma SuffixBelowPrefix<T>(s: seq<T>, r: seq<T>, rest: seq<T>, key: T -> int)
    requires s == r + rest && NonIncreasing(s, key)
    ensures forall x, i :: x in multiset(rest) && 0 <= i < |r| ==> key(x) <= key(r[i])
  {
    forall x, i | x in multiset(rest) && 0 <= i < |r| ensures key(x) <= key(r[i]) {
      var j :| 0 <= j < |rest| && rest[j] == x;
      assert s[|r| + j] == x && s[i] == r[i];
    }
  }

  // ---------------------------------------------------------------------------
  // Multiplicities
  // ---------------------------------------------------------------------------

  /** Two positions holding the same value make it occur at least twice. */
  lemma TwoPositionsCount<T>(s: seq<T>, i: nat, j: nat)
    requires i < j < |s| && s[i] == s[j]
    ensures multiset(s)[s[i]] >= 2
  {
    assert s == s[..j] + s[j..];
    assert s[i] in s[..j] && s[j] in s[j..];
  }

  /** A value occurring at least twice sits at two positions. */
  lemma {:induction false} CountTwoPositions<T>(s: seq<T>, x: T)
    requires multiset(s)[x] >= 2
    ensures exists p, q :: 0 <= p < q < |s| && s[p] == x && s[q] == x
  {
    assert s == [s[0]] + s[1..];
    if s[0] == x {
      assert x in multiset(s[1..]);
      var q :| 0 <= q < |s[1..]| && s[1..][q] == x;
      assert s[q + 1] == x;
    } else {
      CountTwoPositions(s[1..], x);
      var p, q :| 0 <= p < q < |s[1..]| && s[1..][p] == x && s[1..][q] == x;
      assert s[p + 1] == x && s[q + 1] == x;
    }
  }

  /** Positions `i < j` of `b` correspond to two different positions of any permutation `a`. */
  lemma PermutationPositions<T>(a: seq<T>, b: seq<T>, i: nat, j: nat) returns (p: nat, q: nat)
    requires multiset(a) == multiset(b) && i < j < |b|
    ensures p < |a| && q < |a| && p != q && a[p] == b[i] && a[q] == b[j]
  {
    if b[i] == b[j] {
      TwoPositionsCount(b, i, j);
      CountTwoPositions(a, b[i]);
      p, q :| 0 <= p < q < |a| && a[p] == b[i] && a[q] == b[i];
    } else {
      assert b[i] in multiset(a) && b[j] in multiset(a);
      p :| 0 <= p < |a| && a[p] == b[i];
      q :| 0 <= q < |a| && a[q] == b[j];
    }
  }
  /** A value with no two positions in `s` occurs at most once. */
  lemma {:induction false} AtMostOnce<T>(s: seq<T>, x: T)
    requires forall p, q :: 0 <= p < q < |s| && s[p] == x ==> s[q] != x
    ensures multiset(s)[x] <= 1
  {
    if s != [] {
      assert s == [s[0]] + s[1..];
      if s[0] == x {
        forall k | 0 <= k < |s[1..]| ensures s[1..][k] != x {
          assert s[1..][k] == s[k + 1];
        }
        assert x !in s[1..];
      } else {
        AtMostOnce(s[1..], x);
      }
    }
  }

  /** A sequence in which only positions `i` and `j` hold equal values holds that value
      twice and every other value at most once. */
  lemma OneRepeat<T>(s: seq<T>, i: nat, j: nat)
    requires i < j < |s| && s[i] == s[j]
    requires forall p, q :: 0 <= p < q < |s| && s[p] == s[q] ==> p == i && q == j
    ensures multiset(s)[s[i]] == 2
    ensures forall x :: x != s[i] ==> multiset(s)[x] <= 1
  {
    forall x | x != s[i] ensures multiset(s)[x] <= 1 {
      AtMostOnce(s, x);
    }
    var x := s[i];
    var a, b, c := s[..i], s[i + 1..j], s[j + 1..];
    assert s == a + [x] + b + [x] + c;
    forall k | 0 <= k < |a| ensures a[k] != x {
      assert a[k] == s[k];
    }
    forall k | 0 <= k < |b| ensures b[k] != x {
      assert b[k] == s[i + 1 + k];
    }
    forall k | 0 <= k < |c| ensures c[k] != x {
      assert c[k] == s[j + 1 + k];
    }
    assert x !in a && x !in b && x !in c;
  }

  // ---------------------------------------------------------------------------
  // Proof steps: sequence displays and regrouping. They model nothing of the
  // program; each one keeps a sequence identity out of a larger proof, where the
  // solver would otherwise weigh it against the recursive functions in scope.
  // ---------------------------------------------------------------------------

  /** Proof step: concatenation regrouped to the right. */
  lemma Regroup3<T>(a: seq<T>, b: seq<T>, c: seq<T>)
    ensures a + b + c == a + (b + c)
  {
  }

  /** Proof step: five pieces, the last four grouped. */
  lemma Regroup5<T>(a: seq<T>, b: seq<T>, c: seq<T>, d: seq<T>, e: seq<T>)
    ensures a + b + c + d + e == a + (b + c + d + e)
  {
  }

  /** Proof step: three elements consed one by one make the display of three. */
  lemma Cons3<T>(a: T, b: T, c: T)
    ensures [a] + ([b] + [c]) == [a, b, c]
  {
  }

  /** Proof step: four elements consed one by one make the display of four. */
  lemma Cons4<T>(a: T, b: T, c: T, d: T)
    ensures [a] + ([b] + ([c] + [d])) == [a, b, c, d]
  {
  }

  /** Proof step: eight elements consed one by one make the display of eight. */
  lemma Cons8<T>(a: T, b: T, c: T, d: T, e: T, f: T, g: T, h: T)
    ensures [a] + ([b] + ([c] + ([d] + ([e] + ([f] + ([g] + [h])))))) == [a, b, c, d, e, f, g, h]
  {
  }

  /** Proof step: three elements appended one by one make the display of three. */
  lemma Snoc3<T>(a: T, b: T, c: T)
    ensures [a] + [b] + [c] == [a, b, c]
  {
  }

}

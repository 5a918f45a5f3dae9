/** Sort keys, the stable sort behind Python's sorted()/list.sort(key=...) and
    JavaScript's Array.prototype.sort, and first-occurrence deduplication. */
module Ordering {

  /** Python's `<=` on strings: lexicographic by code point. */
  predicate StrLe(a: string, b: string)
    decreases |a|
  {
    if a == [] then true
    else if b == [] then false
    else if a[0] != b[0] then a[0] < b[0]
    else StrLe(a[1..], b[1..])
  }

  lemma {:induction false} StrLeTotal(a: string, b: string)
    ensures StrLe(a, b) || StrLe(b, a)
    decreases |a|
  {
    if a != [] && b != [] && a[0] == b[0] {
      StrLeTotal(a[1..], b[1..]);
    }
  }

  lemma {:induction false} StrLeAntisymmetric(a: string, b: string)
    requires StrLe(a, b) && StrLe(b, a)
    ensures a == b
    decreases |a|
  {
    if a != [] && b != [] {
      StrLeAntisymmetric(a[1..], b[1..]);
      assert a == [a[0]] + a[1..] && b == [b[0]] + b[1..];
    }
  }

  lemma {:induction false} StrLeTransitive(a: string, b: string, c: string)
    requires StrLe(a, b) && StrLe(b, c)
    ensures StrLe(a, c)
    decreases |a|
  {
    if a != [] && b != [] && c != [] && a[0] == b[0] && b[0] == c[0] {
      StrLeTransitive(a[1..], b[1..], c[1..]);
    }
  }

  /** One component of a sort key: Python compares tuples of ints and strings
      component by component. */
  datatype KeyPart = Num(n: int) | Text(s: string)

  type Key = seq<KeyPart>

  predicate PartLe(x: KeyPart, y: KeyPart) {
    match (x, y)
    case (Num(m), Num(n)) => m <= n
    case (Text(s), Text(t)) => StrLe(s, t)
    case (Num(_), Text(_)) => true
    case (Text(_), Num(_)) => false
  }

  /** Lexicographic order on keys. */
  predicate KeyLe(a: Key, b: Key)
    decreases |a|
  {
    if a == [] then true
    else if b == [] then false
    else if a[0] == b[0] then KeyLe(a[1..], b[1..])
    else PartLe(a[0], b[0])
  }

  lemma PartLeTotal(x: KeyPart, y: KeyPart)
    ensures PartLe(x, y) || PartLe(y, x)
  {
    if x.Text? && y.Text? { StrLeTotal(x.s, y.s); }
  }

  lemma PartLeAntisymmetric(x: KeyPart, y: KeyPart)
    requires PartLe(x, y) && PartLe(y, x)
    ensures x == y
  {
    if x.Text? && y.Text? { StrLeAntisymmetric(x.s, y.s); }
  }

  lemma PartLeTransitive(x: KeyPart, y: KeyPart, z: KeyPart)
    requires PartLe(x, y) && PartLe(y, z)
    ensures PartLe(x, z)
  {
    if x.Text? && y.Text? && z.Text? { StrLeTransitive(x.s, y.s, z.s); }
  }

  lemma {:induction false} KeyLeTotal(a: Key, b: Key)
    ensures KeyLe(a, b) || KeyLe(b, a)
    decreases |a|
  {
    if a != [] && b != [] {
      if a[0] == b[0] { KeyLeTotal(a[1..], b[1..]); } else { PartLeTotal(a[0], b[0]); }
    }
  }

  lemma {:induction false} KeyLeAntisymmetric(a: Key, b: Key)
    requires KeyLe(a, b) && KeyLe(b, a)
    ensures a == b
    decreases |a|
  {
    if a != [] && b != [] {
      if a[0] == b[0] {
        KeyLeAntisymmetric(a[1..], b[1..]);
        assert a == [a[0]] + a[1..] && b == [b[0]] + b[1..];
      } else {
        PartLeAntisymmetric(a[0], b[0]);
      }
    }
  }

  lemma {:induction false} KeyLeTransitive(a: Key, b: Key, c: Key)
    requires KeyLe(a, b) && KeyLe(b, c)
    ensures KeyLe(a, c)
    decreases |a|
  {
    if a != [] && b != [] && c != [] {
      if a[0] == b[0] && b[0] == c[0] {
        KeyLeTransitive(a[1..], b[1..], c[1..]);
      } else if a[0] == b[0] {
        assert PartLe(b[0], c[0]);
      } else if b[0] == c[0] {
        assert PartLe(a[0], b[0]);
      } else {
        PartLeTransitive(a[0], b[0], c[0]);
        if a[0] == c[0] { PartLeAntisymmetric(a[0], b[0]); }
      }
    }
  }

  predicate SortedBy<T>(s: seq<T>, key: T -> Key) {
    forall i, j | 0 <= i < j < |s| :: KeyLe(key(s[i]), key(s[j]))
  }

  /** Places x behind every element of s, scanning from the back past the
      elements whose key is strictly greater: the step of a stable insertion sort. */
  function Insert<T>(s: seq<T>, x: T, key: T -> Key): (r: seq<T>)
    ensures |r| == |s| + 1
  {
    if s == [] then [x]
    else if KeyLe(key(s[|s| - 1]), key(x)) then s + [x]
    else Insert(s[..|s| - 1], x, key) + [s[|s| - 1]]
  }

  /** The stable sort by key: equal keys keep their input order. */
  function SortBy<T>(s: seq<T>, key: T -> Key): (r: seq<T>)
    ensures |r| == |s|
  {
    if s == [] then [] else Insert(SortBy(s[..|s| - 1], key), s[|s| - 1], key)
  }

  lemma {:induction false} InsertPermutes<T>(s: seq<T>, x: T, key: T -> Key)
    ensures multiset(Insert(s, x, key)) == multiset(s) + multiset{x}
  {
    if s != [] && !KeyLe(key(s[|s| - 1]), key(x)) {
      InsertPermutes(s[..|s| - 1], x, key);
      assert s == s[..|s| - 1] + [s[|s| - 1]];
    }
  }

  lemma {:induction false} InsertSorted<T>(s: seq<T>, x: T, key: T -> Key)
    requires SortedBy(s, key)
    ensures SortedBy(Insert(s, x, key), key)
  {
    if s == [] {
    } else if KeyLe(key(s[|s| - 1]), key(x)) {
      var r := s + [x];
      forall i, j | 0 <= i < j < |r| ensures KeyLe(key(r[i]), key(r[j])) {
        if j == |s| && i < |s| - 1 { KeyLeTransitive(key(s[i]), key(s[|s| - 1]), key(x)); }
      }
    } else {
      var last := s[|s| - 1];
      var init := s[..|s| - 1];
      InsertSorted(init, x, key);
      InsertPermutes(init, x, key);
      KeyLeTotal(key(last), key(x));
      var ins := Insert(init, x, key);
      var r := ins + [last];
      forall i, j | 0 <= i < j < |r| ensures KeyLe(key(r[i]), key(r[j])) {
        if j == |ins| {
          assert r[i] in multiset(ins);
          assert r[i] in multiset(init) || r[i] == x;
          if r[i] != x {
            var k :| 0 <= k < |init| && init[k] == r[i];
          }
        }
      }
    }
  }

  lemma {:induction false} SortByPermutes<T>(s: seq<T>, key: T -> Key)
    ensures multiset(SortBy(s, key)) == multiset(s)
  {
    if s != [] {
      SortByPermutes(s[..|s| - 1], key);
      InsertPermutes(SortBy(s[..|s| - 1], key), s[|s| - 1], key);
      assert s == s[..|s| - 1] + [s[|s| - 1]];
    }
  }

  lemma {:induction false} SortBySorted<T>(s: seq<T>, key: T -> Key)
    ensures SortedBy(SortBy(s, key), key)
  {
    if s != [] {
      SortBySorted(s[..|s| - 1], key);
      InsertSorted(SortBy(s[..|s| - 1], key), s[|s| - 1], key);
    }
  }

  /** Two equal entries at different positions count twice in the multiset. */
  lemma TwoCopies<T>(r: seq<T>, i: nat, j: nat)
    requires i < j < |r| && r[i] == r[j]
    ensures multiset(r)[r[i]] >= 2
  {
    assert r == r[..i] + [r[i]] + r[i + 1..j] + [r[j]] + r[j + 1..];
  }

  /** The stable sort is a sorted permutation of its input. */
  lemma SortByCorrect<T>(s: seq<T>, key: T -> Key)
    ensures SortedBy(SortBy(s, key), key)
    ensures multiset(SortBy(s, key)) == multiset(s)
  {
    SortBySorted(s, key);
    SortByPermutes(s, key);
  }

  /** The elements of s whose key is k, in their order in s. */
  function WithKey<T>(s: seq<T>, key: T -> Key, k: Key): seq<T> {
    if s == [] then []
    else WithKey(s[..|s| - 1], key, k) + (if key(s[|s| - 1]) == k then [s[|s| - 1]] else [])
  }

  lemma {:induction false} WithKeyAppend<T>(s: seq<T>, x: T, key: T -> Key, k: Key)
    ensures WithKey(s + [x], key, k) == WithKey(s, key, k) + (if key(x) == k then [x] else [])
  {
    assert (s + [x])[..|s|] == s;
  }

  /** Insertion passes only elements whose key is strictly greater than x's,
      so among the elements of any one key x lands last. */
  lemma {:induction false} InsertWithKey<T>(s: seq<T>, x: T, key: T -> Key, k: Key)
    ensures WithKey(Insert(s, x, key), key, k) == WithKey(s, key, k) + (if key(x) == k then [x] else [])
  {
    if s == [] {
      assert WithKey([x], key, k) == WithKey([], key, k) + (if key(x) == k then [x] else []);
    } else if KeyLe(key(s[|s| - 1]), key(x)) {
      WithKeyAppend(s, x, key, k);
    } else {
      var init, last := s[..|s| - 1], s[|s| - 1];
      KeyLeTotal(key(x), key(x));
      assert key(last) != key(x);
      var ins := Insert(init, x, key);
      assert Insert(s, x, key) == ins + [last];
      InsertWithKey(init, x, key, k);
      WithKeyAppend(ins, last, key, k);
      WithKeyAppend(init, last, key, k);
      assert init + [last] == s;
      SwapEmpty(WithKey(init, key, k), if key(x) == k then [x] else [], if key(last) == k then [last] else []);
    }
  }

  /** Appending b and c in either order gives the same sequence when one of
      them is empty. */
  lemma SwapEmpty<T>(a: seq<T>, b: seq<T>, c: seq<T>)
    requires b == [] || c == []
    ensures a + b + c == a + c + b
  {
    if b == [] {
      assert a + b == a && a + c + b == a + c;
    } else {
      assert a + c == a && a + b + c == a + b;
    }
  }

  /** The sort is stable: for every key, the elements with that key come out
      in the order they went in. */
  lemma {:induction false} SortByStable<T>(s: seq<T>, key: T -> Key, k: Key)
    ensures WithKey(SortBy(s, key), key, k) == WithKey(s, key, k)
  {
    if s != [] {
      var init, last := s[..|s| - 1], s[|s| - 1];
      SortByStable(init, key, k);
      InsertWithKey(SortBy(init, key), last, key, k);
      WithKeyAppend(init, last, key, k);
      assert init + [last] == s;
    }
  }

  /** Two sorted arrangements of the same elements coincide when no two
      elements share a key: sorting a set yields one answer whatever order the
      set was listed in. */
  lemma {:induction false} SortedUnique<T>(a: seq<T>, b: seq<T>, key: T -> Key)
    requires SortedBy(a, key) && SortedBy(b, key)
    requires multiset(a) == multiset(b)
    requires forall i, j | 0 <= i < j < |a| :: key(a[i]) != key(a[j])
    ensures a == b
    decreases |a|
  {
    assert |a| == |multiset(a)| == |multiset(b)| == |b|;
    if a != [] {
      SortedHeadsEqual(a, b, key);
      SortedTail(a, key);
      SortedTail(b, key);
      TailsSameElements(a, b);
      DistinctTail(a, key);
      SortedUnique(a[1..], b[1..], key);
      assert a == [a[0]] + a[1..] && b == [b[0]] + b[1..];
    }
  }

  lemma TailsSameElements<T>(a: seq<T>, b: seq<T>)
    requires a != [] && b != [] && a[0] == b[0] && multiset(a) == multiset(b)
    ensures multiset(a[1..]) == multiset(b[1..])
  {
    assert a == [a[0]] + a[1..] && b == [b[0]] + b[1..];
    assert multiset(a[1..]) == multiset(a) - multiset{a[0]};
    assert multiset(b[1..]) == multiset(b) - multiset{b[0]};
  }

  lemma DistinctTail<T>(a: seq<T>, key: T -> Key)
    requires a != []
    requires forall i, j | 0 <= i < j < |a| :: key(a[i]) != key(a[j])
    ensures forall i, j | 0 <= i < j < |a[1..]| :: key(a[1..][i]) != key(a[1..][j])
  {
    var a' := a[1..];
    forall p, q | 0 <= p < q < |a'| ensures key(a'[p]) != key(a'[q]) {
      assert a'[p] == a[p + 1] && a'[q] == a[q + 1];
    }
  }

  lemma SortedTail<T>(a: seq<T>, key: T -> Key)
    requires a != [] && SortedBy(a, key)
    ensures SortedBy(a[1..], key)
  {
    var a' := a[1..];
    forall p, q | 0 <= p < q < |a'| ensures KeyLe(key(a'[p]), key(a'[q])) {
      assert a'[p] == a[p + 1] && a'[q] == a[q + 1];
    }
  }

  lemma SortedHeadsEqual<T>(a: seq<T>, b: seq<T>, key: T -> Key)
    requires a != [] && |a| == |b|
    requires SortedBy(a, key) && SortedBy(b, key)
    requires multiset(a) == multiset(b)
    requires forall i, j | 0 <= i < j < |a| :: key(a[i]) != key(a[j])
    ensures a[0] == b[0]
  {
    assert a[0] in multiset(b);
    var i :| 0 <= i < |b| && b[i] == a[0];
    assert b[0] in multiset(a);
    var j :| 0 <= j < |a| && a[j] == b[0];
    if a[0] != b[0] {
      assert KeyLe(key(a[0]), key(a[j]));
      assert KeyLe(key(b[0]), key(b[i]));
      KeyLeAntisymmetric(key(a[0]), key(a[j]));
      assert false;
    }
  }

  /** Sorting a list that is already in order leaves it as it is. */
  lemma {:induction false} SortBySortedIdentity<T>(s: seq<T>, key: T -> Key)
    requires SortedBy(s, key)
    ensures SortBy(s, key) == s
  {
    if s != [] {
      var init := s[..|s| - 1];
      assert SortedBy(init, key);
      SortBySortedIdentity(init, key);
      assert init + [s[|s| - 1]] == s;
    }
  }

  /** Stable insertion sort in place; `a` afterwards holds SortBy of what it held. */
  method SortInPlace<T>(a: array<T>, key: T -> Key)
    modifies a
    ensures a[..] == SortBy(old(a[..]), key)
  {
    ghost var input := a[..];
    var i := 0;
    while i < a.Length
      invariant 0 <= i <= a.Length
      invariant a[..i] == SortBy(input[..i], key)
      invariant a[i..] == input[i..]
    {
      SortStep(a, i, key, input);
      i := i + 1;
    }
    assert input[..a.Length] == input;
  }

  /** One round of the insertion sort: the sorted prefix grows by a[i]. */
  method SortStep<T>(a: array<T>, i: nat, key: T -> Key, ghost input: seq<T>)
    requires i < a.Length && |input| == a.Length
    requires a[..i] == SortBy(input[..i], key) && a[i..] == input[i..]
    modifies a
    ensures a[..i + 1] == SortBy(input[..i + 1], key) && a[i + 1..] == input[i + 1..]
  {
    InsertLast(a, i, key);
    assert input[..i + 1][..i] == input[..i];
    assert input[..i + 1][i] == input[i];
  }

  /** One pass of the insertion sort: shifts a[i] left past the larger keys of
      the prefix a[..i]. */
  method InsertLast<T>(a: array<T>, i: nat, key: T -> Key)
    requires i < a.Length
    modifies a
    ensures a[..i + 1] == Insert(old(a[..i]), old(a[i]), key)
    ensures a[i + 1..] == old(a[i + 1..])
  {
    ghost var t := a[..i];
    var x := a[i];
    var j := i;
    assert t[..j] == t && t[j..] == [];
    while j > 0 && !KeyLe(key(a[j - 1]), key(x))
      invariant 0 <= j <= i
      invariant forall k | 0 <= k < j :: a[k] == t[k]
      invariant forall k | j < k <= i :: a[k] == t[k - 1]
      invariant forall k | i < k < a.Length :: a[k] == old(a[k])
      invariant Insert(t, x, key) == Insert(t[..j], x, key) + t[j..]
    {
      InsertStep(t, j, x, key);
      a[j] := a[j - 1];
      j := j - 1;
    }
    a[j] := x;
    InsertStop(t, j, x, key);
    ShiftedIn(a[..i + 1], t, j, x);
    SameFrom(a[..], old(a[..]), i + 1);
  }

  /** Sequences of one length that agree from position n on have equal tails. */
  lemma SameFrom<T>(s: seq<T>, t: seq<T>, n: nat)
    requires n <= |s| == |t|
    requires forall k | n <= k < |s| :: s[k] == t[k]
    ensures s[n..] == t[n..]
  {
  }

  /** A sequence that agrees with t before j, holds x at j and t shifted by
      one after it is t with x put in at j. */
  lemma ShiftedIn<T>(s: seq<T>, t: seq<T>, j: nat, x: T)
    requires j <= |t| && |s| == |t| + 1 && s[j] == x
    requires forall k | 0 <= k < j :: s[k] == t[k]
    requires forall k | j < k < |s| :: s[k] == t[k - 1]
    ensures s == t[..j] + [x] + t[j..]
  {
  }

  lemma InsertStep<T>(t: seq<T>, j: nat, x: T, key: T -> Key)
    requires 0 < j <= |t| && !KeyLe(key(t[j - 1]), key(x))
    ensures Insert(t[..j], x, key) + t[j..] == Insert(t[..j - 1], x, key) + t[j - 1..]
  {
    assert t[..j][..j - 1] == t[..j - 1];
    assert t[j - 1..] == [t[j - 1]] + t[j..];
  }

  lemma InsertStop<T>(t: seq<T>, j: nat, x: T, key: T -> Key)
    requires j <= |t| && (j == 0 || KeyLe(key(t[j - 1]), key(x)))
    ensures Insert(t[..j], x, key) == t[..j] + [x]
  {
  }

  /** The keys of the elements of s. */
  function KeysOf<T, K(==)>(s: seq<T>, key: T -> K): set<K> {
    set i | 0 <= i < |s| :: key(s[i])
  }

  /** The elements of s whose key has not occurred earlier in s, in order. */
  function FirstByKey<T, K(==)>(s: seq<T>, key: T -> K): seq<T> {
    if s == [] then []
    else
      var init := s[..|s| - 1];
      FirstByKey(init, key) + (if key(s[|s| - 1]) in KeysOf(init, key) then [] else [s[|s| - 1]])
  }

  /** FirstByKey keeps only elements of its input. */
  lemma {:induction false} FirstByKeySubset<T, K>(s: seq<T>, key: T -> K, x: T)
    requires x in FirstByKey(s, key)
    ensures x in s
  {
    var init := s[..|s| - 1];
    if x in FirstByKey(init, key) {
      FirstByKeySubset(init, key, x);
      assert x in init;
    }
  }

  /** An input holding some key keeps at least one element. */
  lemma FirstByKeyNotEmpty<T, K>(s: seq<T>, key: T -> K, k: K)
    requires k in KeysOf(s, key)
    ensures FirstByKey(s, key) != []
  {
    FirstByKeyCorrect(s, key);
  }

  /** r lists s[idx[0]], s[idx[1]], ... at strictly increasing positions idx of s:
      r is a subsequence of s, in s's order. */
  ghost predicate Picks<T>(s: seq<T>, r: seq<T>, idx: seq<int>) {
    && |idx| == |r|
    && (forall k | 0 <= k < |idx| :: 0 <= idx[k] < |s| && s[idx[k]] == r[k])
    && (forall k, l | 0 <= k < l < |idx| :: idx[k] < idx[l])
  }

  /** Picks, where every picked position is the first of its key in s. */
  ghost predicate PicksFirsts<T, K>(s: seq<T>, r: seq<T>, idx: seq<int>, key: T -> K) {
    Picks(s, r, idx) && forall k | 0 <= k < |idx| :: key(s[idx[k]]) !in KeysOf(s[..idx[k]], key)
  }

  /** FirstByKey takes the first element of each key at its own position in s,
      so the kept elements stay in input order. */
  lemma {:induction false} FirstByKeyInOrder<T, K>(s: seq<T>, key: T -> K)
    ensures exists idx :: PicksFirsts(s, FirstByKey(s, key), idx, key)
  {
    if s == [] {
      assert PicksFirsts(s, FirstByKey(s, key), [], key);
    } else {
      var init := s[..|s| - 1];
      var last := s[|s| - 1];
      FirstByKeyInOrder(init, key);
      var f := FirstByKey(init, key);
      var idx :| PicksFirsts(init, f, idx, key);
      PicksExtend(s, f, idx, key);
      if key(last) !in KeysOf(init, key) {
        var idx' := idx + [|s| - 1];
        assert FirstByKey(s, key) == f + [last];
        assert PicksFirsts(s, f + [last], idx', key);
      } else {
        assert FirstByKey(s, key) == f;
      }
    }
  }

  /** Positions picked in s minus its last element are positions of s. */
  lemma PicksExtend<T, K>(s: seq<T>, f: seq<T>, idx: seq<int>, key: T -> K)
    requires s != [] && PicksFirsts(s[..|s| - 1], f, idx, key)
    ensures PicksFirsts(s, f, idx, key)
    ensures forall k | 0 <= k < |idx| :: idx[k] < |s| - 1
  {
    var init := s[..|s| - 1];
    forall k | 0 <= k < |idx|
      ensures s[idx[k]] == f[k] && s[..idx[k]] == init[..idx[k]]
    {
      assert s[idx[k]] == init[idx[k]];
    }
  }

  /** FirstByKey keeps one element for every key, no two with the same key, and
      each kept element is the first of its key in the input, in input order. */
  lemma {:induction false} FirstByKeyCorrect<T, K>(s: seq<T>, key: T -> K)
    ensures KeysOf(FirstByKey(s, key), key) == KeysOf(s, key)
    ensures forall i, j | 0 <= i < j < |FirstByKey(s, key)| ::
      key(FirstByKey(s, key)[i]) != key(FirstByKey(s, key)[j])
    ensures forall k | 0 <= k < |FirstByKey(s, key)| :: exists i | 0 <= i < |s| ::
      s[i] == FirstByKey(s, key)[k] && key(s[i]) !in KeysOf(s[..i], key)
    ensures exists idx :: PicksFirsts(s, FirstByKey(s, key), idx, key)
  {
    FirstByKeyInOrder(s, key);
    if s != [] {
      var init := s[..|s| - 1];
      var last := s[|s| - 1];
      FirstByKeyCorrect(init, key);
      var f := FirstByKey(init, key);
      var r := FirstByKey(s, key);
      assert KeysOf(s, key) == KeysOf(init, key) + {key(last)} by {
        forall k | k in KeysOf(s, key) ensures k in KeysOf(init, key) + {key(last)} {
          var i :| 0 <= i < |s| && key(s[i]) == k;
          if i < |s| - 1 { assert init[i] == s[i]; }
        }
      }
      assert s[..|s| - 1] == init;
      if key(last) in KeysOf(init, key) {
        assert r == f;
      } else {
        assert r == f + [last];
        assert KeysOf(r, key) == KeysOf(f, key) + {key(last)} by {
          forall k | k in KeysOf(r, key) ensures k in KeysOf(f, key) + {key(last)} {
            var i :| 0 <= i < |r| && key(r[i]) == k;
            if i < |f| { assert r[i] == f[i]; }
          }
          forall k | k in KeysOf(f, key) ensures k in KeysOf(r, key) {
            var i :| 0 <= i < |f| && key(f[i]) == k;
            assert r[i] == f[i];
          }
          assert r[|f|] == last;
        }
        forall i, j | 0 <= i < j < |r| ensures key(r[i]) != key(r[j]) {
          if j == |f| {
            assert key(r[i]) in KeysOf(f, key) by { assert r[i] == f[i]; }
          } else {
            assert r[i] == f[i] && r[j] == f[j];
          }
        }
      }
      forall k | 0 <= k < |r| ensures exists i | 0 <= i < |s| :: s[i] == r[k] && key(s[i]) !in KeysOf(s[..i], key) {
        if k < |f| {
          assert r[k] == f[k];
          var i :| 0 <= i < |init| && init[i] == f[k] && key(init[i]) !in KeysOf(init[..i], key);
          assert s[i] == init[i] && s[..i] == init[..i];
        } else {
          assert r[k] == last && s[|s| - 1] == last;
        }
      }
    }
  }
}

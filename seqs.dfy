/** Array helpers the source uses through `splice`, `filter` and `findIndex`. */
module Seqs {

  /** No element occurs twice. */
  predicate Distinct<T(==)>(s: seq<T>) {
    forall i, j :: 0 <= i < j < |s| ==> s[i] != s[j]
  }

  /** `s.splice(i, 1)` applied to a copy: the sequence without its element at `i`. */
  function Remove<T>(s: seq<T>, i: nat): (r: seq<T>)
    requires i < |s|
    ensures |r| == |s| - 1
  {
    s[..i] + s[i + 1..]
  }

  /** `s.splice(i, 0, x)` applied to a copy: `x` put in front of the element at `i`. */
  function Insert<T>(s: seq<T>, i: nat, x: T): (r: seq<T>)
    requires i <= |s|
    ensures |r| == |s| + 1
  {
    s[..i] + [x] + s[i..]
  }

  /** `s.filter(y => y !== x)`. */
  function RemoveAll<T(==,!new)>(s: seq<T>, x: T): (r: seq<T>)
    ensures x !in r
    ensures forall y :: y != x ==> multiset(r)[y] == multiset(s)[y]
  {
    if s == [] then []
    else
      assert s == [s[0]] + s[1..];
      if s[0] == x then RemoveAll(s[1..], x) else [s[0]] + RemoveAll(s[1..], x)
  }

  /** `RemoveAll` keeps exactly the elements other than `x`. */
  lemma {:induction false} RemoveAllMembers<T(!new)>(s: seq<T>, x: T)
    ensures forall y :: y in RemoveAll(s, x) <==> y in s && y != x
  {
    if s != [] {
      RemoveAllMembers(s[1..], x);
      assert s == [s[0]] + s[1..];
    }
  }

  lemma RemoveCount<T>(s: seq<T>, i: nat)
    requires i < |s|
    ensures multiset(Remove(s, i)) == multiset(s) - multiset{s[i]}
  {
    assert s == s[..i] + [s[i]] + s[i + 1..];
  }

  lemma InsertCount<T>(s: seq<T>, i: nat, x: T)
    requires i <= |s|
    ensures multiset(Insert(s, i, x)) == multiset(s) + multiset{x}
  {
    assert s == s[..i] + s[i..];
  }

  /** Removing at `i` and inserting at `j` of the shorter sequence moves one
      element: it lands at `j`, and taking it out again leaves the rest as it was. */
  lemma MoveAt<T>(s: seq<T>, i: nat, j: nat)
    requires i < |s| && j < |s|
    ensures Insert(Remove(s, i), j, s[i])[j] == s[i]
    ensures Remove(Insert(Remove(s, i), j, s[i]), j) == Remove(s, i)
    ensures multiset(Insert(Remove(s, i), j, s[i])) == multiset(s)
    ensures i == j ==> Insert(Remove(s, i), j, s[i]) == s
  {
    var t := Remove(s, i);
    InsertRemove(t, j, s[i]);
    RemoveCount(s, i);
    InsertCount(t, j, s[i]);
    if i == j {
      RemoveInsertSame(s, i);
    }
  }

  /** What is inserted at `j` stands at `j`, and removing it gives the sequence back. */
  lemma InsertRemove<T>(t: seq<T>, j: nat, x: T)
    requires j <= |t|
    ensures Insert(t, j, x)[j] == x && Remove(Insert(t, j, x), j) == t
  {
    assert Insert(t, j, x)[..j] == t[..j];
    assert Insert(t, j, x)[j + 1..] == t[j..];
  }

  /** Putting an element back where it was removed gives the sequence back. */
  lemma RemoveInsertSame<T>(s: seq<T>, i: nat)
    requires i < |s|
    ensures Insert(Remove(s, i), i, s[i]) == s
  {
    var t := Remove(s, i);
    assert t[..i] == s[..i] && t[i..] == s[i + 1..];
    assert s == s[..i] + [s[i]] + s[i + 1..];
  }

  lemma DistinctRemove<T>(s: seq<T>, i: nat)
    requires i < |s| && Distinct(s)
    ensures Distinct(Remove(s, i)) && s[i] !in Remove(s, i)
  {
  }

  /** On a sequence without repeats, removing every copy of `s[i]` is removing position `i`. */
  lemma {:induction false} RemoveAllDistinct<T(!new)>(s: seq<T>, i: nat)
    requires i < |s| && Distinct(s)
    ensures RemoveAll(s, s[i]) == Remove(s, i)
  {
    if i == 0 {
      RemoveAllAbsent(s[1..], s[0]);
    } else {
      RemoveAllDistinct(s[1..], i - 1);
      assert Remove(s, i) == [s[0]] + Remove(s[1..], i - 1);
    }
  }

  /** Taking the element at `i` out of a sequence without repeats and putting
      it back at the end: unless it was last, the order changes. */
  lemma MoveToEnd<T>(s: seq<T>, i: nat)
    requires i < |s| && Distinct(s)
    ensures Insert(Remove(s, i), |s| - 1, s[i]) == Remove(s, i) + [s[i]]
    ensures i + 1 < |s| ==> Remove(s, i) + [s[i]] != s
  {
    var rest := Remove(s, i);
    assert Insert(rest, |rest|, s[i]) == rest + [s[i]];
    if i + 1 < |s| {
      assert rest[i] == s[i + 1];
      assert (rest + [s[i]])[i] != s[i];
    }
  }

  lemma {:induction false} RemoveAllAbsent<T(!new)>(s: seq<T>, x: T)
    requires x !in s
    ensures RemoveAll(s, x) == s
  {
    if s != [] {
      RemoveAllAbsent(s[1..], x);
    }
  }

  /** `RemoveAll` keeps the order of what it keeps and never creates repeats. */
  lemma {:induction false} RemoveAllDistinctKept<T(!new)>(s: seq<T>, x: T)
    requires Distinct(s)
    ensures Distinct(RemoveAll(s, x))
    ensures forall y :: y in RemoveAll(s, x) <==> y in s && y != x
  {
    RemoveAllMembers(s, x);
    if s != [] {
      var r := RemoveAll(s[1..], x);
      RemoveAllDistinctKept(s[1..], x);
      if s[0] != x {
        assert s[0] !in s[1..];
        DistinctCons(s[0], r);
      }
    }
  }

  /** Concatenation regrouped to the right. */
  lemma Regroup<T>(a: seq<T>, b: seq<T>, c: seq<T>, d: seq<T>)
    ensures a + b + c + d == a + (b + (c + d))
  {
  }

  lemma DistinctCons<T>(x: T, s: seq<T>)
    requires Distinct(s) && x !in s
    ensures Distinct([x] + s)
  {
  }

  lemma DistinctInsert<T>(s: seq<T>, i: nat, x: T)
    requires i <= |s| && Distinct(s) && x !in s
    ensures Distinct(Insert(s, i, x))
  {
    var r := Insert(s, i, x);
    forall a, b | 0 <= a < b < |r| ensures r[a] != r[b] {
      if a < i && b < i {} else if a < i && b == i {} else if a < i {
        assert r[b] == s[b - 1];
      } else if a == i {
        assert r[b] == s[b - 1];
      } else {
        assert r[a] == s[a - 1] && r[b] == s[b - 1];
      }
    }
  }

  /** A sequence without repeats has every element once. */
  lemma DistinctCounts<T>(s: seq<T>)
    ensures Distinct(s) <==> forall x :: multiset(s)[x] <= 1
  {
    if Distinct(s) {
      forall x ensures multiset(s)[x] <= 1 {
        DistinctCount(s, x);
      }
    } else {
      var i, j :| 0 <= i < j < |s| && s[i] == s[j];
      assert s == s[..i] + [s[i]] + s[i + 1..j] + [s[j]] + s[j + 1..];
      assert multiset(s)[s[i]] >= 2;
    }
  }

  lemma {:induction false} DistinctCount<T>(s: seq<T>, x: T)
    requires Distinct(s)
    ensures multiset(s)[x] <= 1
  {
    if s != [] {
      DistinctCount(s[1..], x);
      assert s == [s[0]] + s[1..];
      assert s[0] !in s[1..];
    }
  }

  /** The distinct elements of `s` in the order of their first appearance, as a
      JavaScript `Set` built by adding the elements one after another keeps them. */
  function Dedup<T(==,!new)>(s: seq<T>): (r: seq<T>)
    ensures Distinct(r)
    ensures forall x :: x in r <==> x in s
  {
    if s == [] then []
    else
      var d := Dedup(s[..|s| - 1]);
      var x := s[|s| - 1];
      assert s == s[..|s| - 1] + [x];
      if x in d then d else d + [x]
  }

  /** Index of the first occurrence of `x`; `|s|` when absent. */
  function FirstIndex<T(==)>(s: seq<T>, x: T): (k: nat)
    ensures k <= |s| && (k < |s| <==> x in s)
    ensures k < |s| ==> s[k] == x
    ensures forall i :: 0 <= i < k ==> s[i] != x
  {
    if s == [] then 0 else if s[0] == x then 0 else 1 + FirstIndex(s[1..], x)
  }

  lemma FirstIndexPrefix<T>(s: seq<T>, x: T, n: nat)
    requires n <= |s| && x in s[..n]
    ensures FirstIndex(s[..n], x) == FirstIndex(s, x)
  {
    var k := FirstIndex(s[..n], x);
    assert s[k] == x;
    assert forall i :: 0 <= i < k ==> s[i] != x by {
      forall i | 0 <= i < k ensures s[i] != x { assert s[..n][i] == s[i]; }
    }
  }

  /** `Dedup` lists the elements in the order in which they first appear. */
  lemma {:induction false} DedupFirstAppearance<T(!new)>(s: seq<T>, i: nat, j: nat)
    requires i < j < |Dedup(s)|
    ensures FirstIndex(s, Dedup(s)[i]) < FirstIndex(s, Dedup(s)[j])
  {
    var n := |s| - 1;
    var p := s[..n];
    var d := Dedup(p);
    var x := s[n];
    assert s == p + [x];
    if j < |d| {
      DedupFirstAppearance(p, i, j);
      FirstIndexPrefix(s, d[i], n);
      FirstIndexPrefix(s, d[j], n);
    } else {
      // the last element is new: it first appears at n, after every element of p
      assert Dedup(s)[j] == x && x !in p;
      assert d[i] in p;
      FirstIndexPrefix(s, d[i], n);
      assert FirstIndex(s, x) == n;
    }
  }

  /** `xs` is `ys` with some elements left out and the others in their order. */
  predicate IsSubsequence<T(==)>(xs: seq<T>, ys: seq<T>)
    decreases |ys|
  {
    if xs == [] then true
    else if ys == [] then false
    else if xs[|xs| - 1] == ys[|ys| - 1] then IsSubsequence(xs[..|xs| - 1], ys[..|ys| - 1])
    else IsSubsequence(xs, ys[..|ys| - 1])
  }

  /** Leaving out the last element of a subsequence gives a subsequence. */
  lemma {:induction false} SubsequenceDropLast<T>(xs: seq<T>, ys: seq<T>)
    requires xs != [] && IsSubsequence(xs, ys)
    ensures IsSubsequence(xs[..|xs| - 1], ys)
    decreases |ys|, 0
  {
    var xs', ys' := xs[..|xs| - 1], ys[..|ys| - 1];
    if xs[|xs| - 1] == ys[|ys| - 1] {
      SubsequenceExtend(xs', ys', ys[|ys| - 1]);
    } else {
      SubsequenceDropLast(xs, ys');
      SubsequenceExtend(xs', ys', ys[|ys| - 1]);
    }
    assert ys' + [ys[|ys| - 1]] == ys;
  }

  /** A subsequence of `ys` is a subsequence of any extension of `ys`. */
  lemma {:induction false} SubsequenceExtend<T>(xs: seq<T>, ys: seq<T>, y: T)
    requires IsSubsequence(xs, ys)
    ensures IsSubsequence(xs, ys + [y])
    decreases |ys|, 1
  {
    assert (ys + [y])[..|ys|] == ys;
    if xs != [] && xs[|xs| - 1] == y {
      SubsequenceDropLast(xs, ys);
    }
  }

  /** Extending both sides by the same element keeps a subsequence. */
  lemma SubsequenceExtendBoth<T>(xs: seq<T>, ys: seq<T>, y: T)
    requires IsSubsequence(xs, ys)
    ensures IsSubsequence(xs + [y], ys + [y])
  {
    assert (xs + [y])[..|xs|] == xs && (ys + [y])[..|ys|] == ys;
  }

  /** A subsequence is never longer than the whole, and one as long as the
      whole is the whole. */
  lemma {:induction false} SubsequenceOfSameLength<T>(xs: seq<T>, ys: seq<T>)
    requires IsSubsequence(xs, ys)
    ensures |xs| <= |ys|
    ensures |xs| == |ys| ==> xs == ys
    decreases |ys|
  {
    if xs != [] && ys != [] {
      var m, n := |xs| - 1, |ys| - 1;
      if xs[m] == ys[n] {
        SubsequenceOfSameLength(xs[..m], ys[..n]);
        assert xs == xs[..m] + [xs[m]] && ys == ys[..n] + [ys[n]];
      } else {
        SubsequenceOfSameLength(xs, ys[..n]);
      }
    }
  }

  /** Filtering an extended sequence is filtering the prefix, then the new element. */
  lemma {:induction false} RemoveAllAppend<T(!new)>(s: seq<T>, y: T, x: T)
    ensures RemoveAll(s + [y], x) == RemoveAll(s, x) + (if y == x then [] else [y])
  {
    if s == [] {
      assert [y][1..] == [];
    } else {
      assert (s + [y])[1..] == s[1..] + [y];
      RemoveAllAppend(s[1..], y, x);
    }
  }
}

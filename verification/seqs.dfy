/** Sequence operations the table scripts lean on: order-preserving row
    selection (astropy/atpy `Table.where`), extrema (`ndarray.max/min`) and
    the sorted list of distinct values (`sorted(list(set(xs)))`). */
module Seqs {

  // ---------------------------------------------------------------------
  // Order-preserving selection
  // ---------------------------------------------------------------------

  /** `idx` picks the elements of `r` out of `s` at strictly increasing
      positions. */
  ghost predicate SubsequenceAt<T>(r: seq<T>, s: seq<T>, idx: seq<int>)
  {
    && |idx| == |r|
    && (forall i :: 0 <= i < |idx| ==> 0 <= idx[i] < |s| && r[i] == s[idx[i]])
    && (forall i, j :: 0 <= i < j < |idx| ==> idx[i] < idx[j])
  }

  /** `r` is `s` with some elements left out and the rest in their
      order: each element of `r` is matched, in turn, with the earliest
      remaining element of `s` equal to it. */
  ghost predicate IsSubsequence<T>(r: seq<T>, s: seq<T>)
    decreases |s|
  {
    |r| == 0
    || (|s| > 0 && if r[0] == s[0] then IsSubsequence(r[1..], s[1..]) else IsSubsequence(r, s[1..]))
  }

  /** The matching `IsSubsequence` makes is a choice of strictly
      increasing positions of `s`. */
  lemma {:induction false} SubsequenceHasPositions<T>(r: seq<T>, s: seq<T>) returns (idx: seq<int>)
    requires IsSubsequence(r, s)
    ensures SubsequenceAt(r, s, idx)
    decreases |s|
  {
    if |r| == 0 {
      idx := [];
    } else {
      var tail := if r[0] == s[0] then r[1..] else r;
      var rest := SubsequenceHasPositions(tail, s[1..]);
      var shifted := seq(|rest|, i requires 0 <= i < |rest| => rest[i] + 1);
      if r[0] == s[0] {
        idx := [0] + shifted;
        assert SubsequenceAt(r, s, idx);
      } else {
        idx := shifted;
        assert SubsequenceAt(r, s, idx);
      }
    }
  }

  /** Every position moved one place on. */
  function Shift(idx: seq<int>): (r: seq<int>)
    ensures |r| == |idx|
    ensures forall j :: 0 <= j < |idx| ==> r[j] == idx[j] + 1
    ensures forall i :: i + 1 in r <==> i in idx
  {
    var r := seq(|idx|, j requires 0 <= j < |idx| => idx[j] + 1);
    assert forall i :: i + 1 in r ==> i in idx by {
      forall i | i + 1 in r ensures i in idx {
        var j :| 0 <= j < |r| && r[j] == i + 1;
      }
    }
    r
  }

  /** Putting `x` in front of `s`, and in front of `rest` too when `keep`,
      shifts the positions `rest` was picked at by one and picks `x` at 0
      exactly when it is kept. */
  lemma ConsPositions<T>(x: T, keep: bool, s: seq<T>, rest: seq<T>, restIdx: seq<int>)
    returns (idx: seq<int>)
    requires SubsequenceAt(rest, s, restIdx)
    ensures SubsequenceAt((if keep then [x] else []) + rest, [x] + s, idx)
    ensures 0 in idx <==> keep
    ensures forall i :: 0 <= i < |s| ==> (i + 1 in idx <==> i in restIdx)
  {
    var shifted := Shift(restIdx);
    assert -1 !in restIdx;
    if keep {
      idx := KeptHead(x, s, rest, restIdx, shifted);
    } else {
      idx := shifted;
      DroppedHead(x, s, rest, restIdx, shifted);
    }
  }

  /** `ConsPositions` when the head is kept. */
  lemma KeptHead<T>(x: T, s: seq<T>, rest: seq<T>, restIdx: seq<int>, shifted: seq<int>)
    returns (idx: seq<int>)
    requires SubsequenceAt(rest, s, restIdx)
    requires |shifted| == |restIdx| && forall j :: 0 <= j < |restIdx| ==> shifted[j] == restIdx[j] + 1
    ensures idx == [0] + shifted
    ensures SubsequenceAt([x] + rest, [x] + s, idx)
  {
    idx := [0] + shifted;
    var r, t := [x] + rest, [x] + s;
    forall j | 0 <= j < |idx|
      ensures 0 <= idx[j] < |t| && r[j] == t[idx[j]]
    {
      if j > 0 {
        assert idx[j] == restIdx[j - 1] + 1 && r[j] == rest[j - 1];
      }
    }
    forall j, j' | 0 <= j < j' < |idx|
      ensures idx[j] < idx[j']
    {
      assert idx[j'] == restIdx[j' - 1] + 1;
      if j > 0 {
        assert idx[j] == restIdx[j - 1] + 1;
      }
    }
  }

  /** `ConsPositions` when the head is dropped. */
  lemma DroppedHead<T>(x: T, s: seq<T>, rest: seq<T>, restIdx: seq<int>, shifted: seq<int>)
    requires SubsequenceAt(rest, s, restIdx)
    requires |shifted| == |restIdx| && forall j :: 0 <= j < |restIdx| ==> shifted[j] == restIdx[j] + 1
    ensures SubsequenceAt(rest, [x] + s, shifted)
  {
    var t := [x] + s;
    forall j | 0 <= j < |shifted|
      ensures 0 <= shifted[j] < |t| && rest[j] == t[shifted[j]]
    {
      assert t[restIdx[j] + 1] == s[restIdx[j]];
    }
  }

  /** The rows of `s` satisfying `p`, in their original order: every row
      that passes, as often as it occurs in `s`, and no other row. The
      order is `FilterIsSubsequence`. */
  function Filter<T>(p: T -> bool, s: seq<T>): (r: seq<T>)
    ensures |r| <= |s|
    ensures forall i :: 0 <= i < |r| ==> r[i] in s && p(r[i])
    ensures forall i :: 0 <= i < |s| && p(s[i]) ==> s[i] in r
    ensures forall i {:trigger multiset(r)[s[i]]} :: 0 <= i < |s| ==> multiset(r)[s[i]] == if p(s[i]) then multiset(s)[s[i]] else 0
  {
    if |s| == 0 then
      []
    else
      var rest := Filter(p, s[1..]);
      var r := (if p(s[0]) then [s[0]] else []) + rest;
      FilterStep(p, s, rest);
      r
  }

  /** One step of `Filter`: what the selection from the tail of `s`
      promises carries over to the selection from `s`. */
  lemma FilterStep<T>(p: T -> bool, s: seq<T>, rest: seq<T>)
    requires |s| > 0
    requires forall i :: 0 <= i < |rest| ==> rest[i] in s[1..] && p(rest[i])
    requires forall i :: 0 <= i < |s| - 1 && p(s[1..][i]) ==> s[1..][i] in rest
    requires forall i {:trigger multiset(rest)[s[1..][i]]} :: 0 <= i < |s| - 1 ==>
      multiset(rest)[s[1..][i]] == if p(s[1..][i]) then multiset(s[1..])[s[1..][i]] else 0
    ensures
      var r := (if p(s[0]) then [s[0]] else []) + rest;
      && (forall i :: 0 <= i < |r| ==> r[i] in s && p(r[i]))
      && (forall i :: 0 <= i < |s| && p(s[i]) ==> s[i] in r)
      && (forall i {:trigger multiset(r)[s[i]]} :: 0 <= i < |s| ==>
            multiset(r)[s[i]] == if p(s[i]) then multiset(s)[s[i]] else 0)
  {
    FilterStepCount(p, s, rest);
    var r := (if p(s[0]) then [s[0]] else []) + rest;
    forall i | 0 <= i < |s| && p(s[i])
      ensures s[i] in r
    {
      if i > 0 {
        assert s[i] == s[1..][i - 1];
      }
    }
  }

  /** `Filter` keeps the rows it selects in their order in `s`. */
  lemma {:induction false} FilterIsSubsequence<T>(p: T -> bool, s: seq<T>)
    ensures IsSubsequence(Filter(p, s), s)
  {
    if |s| > 0 {
      FilterIsSubsequence(p, s[1..]);
      FilterStepSubsequence(p, s, Filter(p, s[1..]));
    }
  }

  /** One step of `Filter`'s order: keeping or dropping the head of `s`
      in front of a subsequence of its tail made of rows that pass gives a
      subsequence of `s`. */
  lemma FilterStepSubsequence<T>(p: T -> bool, s: seq<T>, rest: seq<T>)
    requires |s| > 0
    requires IsSubsequence(rest, s[1..])
    requires forall i :: 0 <= i < |rest| ==> p(rest[i])
    ensures IsSubsequence((if p(s[0]) then [s[0]] else []) + rest, s)
  {
    if p(s[0]) {
      var r := [s[0]] + rest;
      assert r[0] == s[0] && r[1..] == rest;
      assert IsSubsequence(r, s);
    } else {
      assert [] + rest == rest;
      if |rest| > 0 {
        assert p(rest[0]);
        assert rest[0] != s[0];
        assert IsSubsequence(rest, s);
      }
    }
  }

  /** One step of `Filter`'s count: keeping or dropping the head of `s`
      in front of a selection from its tail that has the right counts. */
  lemma FilterStepCount<T>(p: T -> bool, s: seq<T>, rest: seq<T>)
    requires |s| > 0
    requires forall i :: 0 <= i < |rest| ==> rest[i] in s[1..]
    requires forall i {:trigger multiset(rest)[s[1..][i]]} :: 0 <= i < |s| - 1 ==>
      multiset(rest)[s[1..][i]] == if p(s[1..][i]) then multiset(s[1..])[s[1..][i]] else 0
    ensures forall i {:trigger multiset((if p(s[0]) then [s[0]] else []) + rest)[s[i]]} :: 0 <= i < |s| ==>
      multiset((if p(s[0]) then [s[0]] else []) + rest)[s[i]] == if p(s[i]) then multiset(s)[s[i]] else 0
  {
    var r := (if p(s[0]) then [s[0]] else []) + rest;
    assert s == [s[0]] + s[1..];
    forall i | 0 <= i < |s|
      ensures multiset(r)[s[i]] == if p(s[i]) then multiset(s)[s[i]] else 0
    {
      var x := s[i];
      assert multiset(s)[x] == multiset([s[0]])[x] + multiset(s[1..])[x];
      assert multiset(r)[x] == multiset(if p(s[0]) then [s[0]] else [])[x] + multiset(rest)[x];
      if x in s[1..] {
        var j :| 0 <= j < |s[1..]| && s[1..][j] == x;
      } else {
        assert x !in rest;
      }
    }
  }

  /** Selection distributes over concatenation. */
  lemma {:induction false} FilterConcat<T>(p: T -> bool, a: seq<T>, b: seq<T>)
    ensures Filter(p, a + b) == Filter(p, a) + Filter(p, b)
  {
    if |a| > 0 {
      assert (a + b)[0] == a[0];
      assert (a + b)[1..] == a[1..] + b;
      FilterConcat(p, a[1..], b);
    } else {
      assert a + b == b;
    }
  }

  /** Selecting with a stronger predicate from an already selected table is
      the same as selecting with it from the whole table: the narrower sample
      is an ordered sub-table of the wider one. */
  lemma {:induction false} FilterNested<T>(p: T -> bool, q: T -> bool, s: seq<T>)
    requires forall x :: x in s && p(x) ==> q(x)
    ensures Filter(p, Filter(q, s)) == Filter(p, s)
  {
    if |s| > 0 {
      var head := if q(s[0]) then [s[0]] else [];
      FilterConcat(p, head, Filter(q, s[1..]));
      FilterNested(p, q, s[1..]);
    }
  }

  /** Two predicates that agree on every row select the same rows. */
  lemma {:induction false} FilterAgree<T>(p: T -> bool, q: T -> bool, s: seq<T>)
    requires forall x :: x in s ==> (p(x) <==> q(x))
    ensures Filter(p, s) == Filter(q, s)
  {
    if |s| > 0 {
      FilterAgree(p, q, s[1..]);
    }
  }

  /** A predicate that holds of every row keeps the table as it is. */
  lemma {:induction false} FilterKeepsAll<T>(p: T -> bool, s: seq<T>)
    requires forall x :: x in s ==> p(x)
    ensures Filter(p, s) == s
  {
    if |s| > 0 {
      FilterKeepsAll(p, s[1..]);
    }
  }

  /** Two selections commute: the order in which criteria are applied does
      not matter. */
  lemma {:induction false} FilterCommute<T>(p: T -> bool, q: T -> bool, s: seq<T>)
    ensures Filter(p, Filter(q, s)) == Filter(q, Filter(p, s))
  {
    if |s| > 0 {
      var hq := if q(s[0]) then [s[0]] else [];
      var hp := if p(s[0]) then [s[0]] else [];
      FilterConcat(p, hq, Filter(q, s[1..]));
      FilterConcat(q, hp, Filter(p, s[1..]));
      FilterCommute(p, q, s[1..]);
      if q(s[0]) {
        assert Filter(p, hq) == (if p(s[0]) then [s[0]] else []) + Filter(p, hq[1..]);
      }
      if p(s[0]) {
        assert Filter(q, hp) == (if q(s[0]) then [s[0]] else []) + Filter(q, hp[1..]);
      }
    }
  }

  /** Complementary selections split a table: their sizes add up to its
      size. */
  lemma {:induction false} FilterComplementCount<T>(p: T -> bool, q: T -> bool, s: seq<T>)
    requires forall x :: x in s ==> (q(x) <==> !p(x))
    ensures |Filter(p, s)| + |Filter(q, s)| == |s|
  {
    if |s| > 0 {
      assert s[0] in s;
      assert forall x :: x in s[1..] ==> x in s;
      FilterComplementCount(p, q, s[1..]);
    }
  }

  // ---------------------------------------------------------------------
  // Extrema
  // ---------------------------------------------------------------------

  function Max(s: seq<real>): (m: real)
    requires |s| > 0
    ensures m in s
    ensures forall x :: x in s ==> x <= m
  {
    if |s| == 1 then s[0]
    else
      var rest := Max(s[1..]);
      assert s == [s[0]] + s[1..];
      if s[0] >= rest then s[0] else rest
  }

  function Min(s: seq<real>): (m: real)
    requires |s| > 0
    ensures m in s
    ensures forall x :: x in s ==> m <= x
  {
    if |s| == 1 then s[0]
    else
      var rest := Min(s[1..]);
      assert s == [s[0]] + s[1..];
      if s[0] <= rest then s[0] else rest
  }

  // ---------------------------------------------------------------------
  // Sorted lists
  // ---------------------------------------------------------------------

  predicate StrictlyIncreasing(s: seq<real>)
  {
    forall i, j :: 0 <= i < j < |s| ==> s[i] < s[j]
  }

  predicate NonDecreasing(s: seq<real>)
  {
    forall i, j :: 0 <= i < j < |s| ==> s[i] <= s[j]
  }

  /** Adds `x` to a strictly increasing list unless it is already there. */
  function InsertDistinct(x: real, s: seq<real>): (r: seq<real>)
    requires StrictlyIncreasing(s)
    ensures StrictlyIncreasing(r)
    ensures forall y :: y in r <==> y in s || y == x
    ensures |r| <= |s| + 1
  {
    if |s| == 0 then [x]
    else if x < s[0] then [x] + s
    else if x == s[0] then s
    else
      var rest := InsertDistinct(x, s[1..]);
      assert s == [s[0]] + s[1..];
      forall y | y in rest ensures s[0] < y {
        if y != x {
          var j :| 0 <= j < |s[1..]| && s[1..][j] == y;
          assert s[j + 1] == y;
        }
      }
      var r := [s[0]] + rest;
      forall i, j | 0 <= i < j < |r| ensures r[i] < r[j] {
        assert r[j] == rest[j - 1] && rest[j - 1] in rest;
        if i > 0 {
          assert r[i] == rest[i - 1];
        }
      }
      r
  }

  /** `sorted(list(set(xs)))`: every value of `xs` once, in increasing order. */
  function SortedDistinct(xs: seq<real>): (r: seq<real>)
    ensures StrictlyIncreasing(r)
    ensures forall y :: y in r <==> y in xs
    ensures |r| <= |xs|
  {
    if |xs| == 0 then []
    else
      var prefix := xs[..|xs| - 1];
      assert forall y :: y in xs <==> y in prefix || y == xs[|xs| - 1];
      InsertDistinct(xs[|xs| - 1], SortedDistinct(prefix))
  }

  /** A strictly increasing list is determined by its set of values, so the
      sorted distinct timestamps are THE increasing enumeration of the set
      of observed values, whatever order the rows came in. */
  lemma {:induction false} StrictlyIncreasingUnique(a: seq<real>, b: seq<real>)
    requires StrictlyIncreasing(a) && StrictlyIncreasing(b)
    requires forall y :: y in a <==> y in b
    ensures a == b
  {
    assert |b| > 0 ==> b[0] in b;
    if |a| > 0 {
      assert a[0] in a;
      assert a[0] in b;
      assert |b| > 0;
      assert b[0] in a;
      var i :| 0 <= i < |b| && b[i] == a[0];
      var j :| 0 <= j < |a| && a[j] == b[0];
      assert a[0] == b[0] by {
        assert forall t :: 0 <= t < |b| ==> b[0] <= b[t];
        assert forall t :: 0 <= t < |a| ==> a[0] <= a[t];
      }
      forall y
        ensures y in a[1..] <==> y in b[1..]
      {
        if y in a[1..] {
          var k :| 1 <= k < |a| && a[k] == y;
          assert a[0] < y;
          assert y in b;
          var m :| 0 <= m < |b| && b[m] == y;
          assert m != 0;
        }
        if y in b[1..] {
          var k :| 1 <= k < |b| && b[k] == y;
          assert b[0] < y;
          assert y in a;
          var m :| 0 <= m < |a| && a[m] == y;
          assert m != 0;
        }
      }
      StrictlyIncreasingUnique(a[1..], b[1..]);
      assert a == [a[0]] + a[1..];
      assert b == [b[0]] + b[1..];
    }
  }

  /** Where `x` goes in a sorted list: after every smaller value. */
  function InsertPosition(x: real, s: seq<real>): (k: nat)
    requires NonDecreasing(s)
    ensures k <= |s|
    ensures forall i :: 0 <= i < k ==> s[i] < x
    ensures forall i :: k <= i < |s| ==> x <= s[i]
  {
    if |s| == 0 || x <= s[0] then 0
    else 1 + InsertPosition(x, s[1..])
  }

  /** Inserts `x` into a sorted list, keeping any equal value already there. */
  function InsertSorted(x: real, s: seq<real>): (r: seq<real>)
    requires NonDecreasing(s)
    ensures NonDecreasing(r)
    ensures multiset(r) == multiset(s) + multiset{x}
    ensures |r| == |s| + 1
  {
    var k := InsertPosition(x, s);
    assert s == s[..k] + s[k..];
    s[..k] + [x] + s[k..]
  }

  // ---------------------------------------------------------------------
  // Concatenation of lists (`list.extend` in a loop)
  // ---------------------------------------------------------------------

  /** The lists of `xss` one after another. */
  function Flatten<T>(xss: seq<seq<T>>): (r: seq<T>)
    ensures forall k :: 0 <= k < |xss| ==> forall t :: t in xss[k] ==> t in r
    ensures forall t :: t in r ==> exists k :: 0 <= k < |xss| && t in xss[k]
  {
    if |xss| == 0 then []
    else
      var rest := Flatten(xss[1..]);
      assert forall k :: 1 <= k < |xss| ==> xss[k] == xss[1..][k - 1];
      xss[0] + rest
  }

  /** Flattening distributes over concatenation. */
  lemma {:induction false} FlattenConcat<T>(a: seq<seq<T>>, b: seq<seq<T>>)
    ensures Flatten(a + b) == Flatten(a) + Flatten(b)
  {
    if |a| > 0 {
      assert (a + b)[0] == a[0];
      assert (a + b)[1..] == a[1..] + b;
      FlattenConcat(a[1..], b);
    } else {
      assert a + b == b;
    }
  }

  /** List `k` sits, whole and in place, right after the lists before it. */
  lemma FlattenBlock<T>(xss: seq<seq<T>>, k: int)
    requires 0 <= k < |xss|
    ensures
      var off := |Flatten(xss[..k])|;
      off + |xss[k]| <= |Flatten(xss)| && Flatten(xss)[off..off + |xss[k]|] == xss[k]
  {
    assert xss == xss[..k] + [xss[k]] + xss[k + 1..];
    FlattenConcat(xss[..k] + [xss[k]], xss[k + 1..]);
    FlattenConcat(xss[..k], [xss[k]]);
    assert [xss[k]][1..] == [];
    assert Flatten([xss[k]]) == xss[k] + [];
  }
}

/**
 * Value-level helpers shared by both form builders and the server: an
 * Option type and the JavaScript array operations the source uses
 * (`splice` to remove or insert one element, `filter`, `map`).
 */
module Common {

  datatype Option<T> = None | Some(value: T) {
    /** `x ?? d`, `x || d` for a value that is present exactly when it is truthy. */
    function GetOr(default: T): T {
      if Some? then value else default
    }
  }

  /**
   * `a.splice(i, 1)` on a copy, and equally `a.filter((_, k) => k !== i)`:
   * drops the element at index i; an index past the end removes nothing.
   */
  function RemoveAt<T>(s: seq<T>, i: nat): (r: seq<T>)
    ensures i < |s| ==> |r| == |s| - 1
    ensures i < |s| ==> forall k :: 0 <= k < i ==> r[k] == s[k]
    ensures i < |s| ==> forall k :: i <= k < |r| ==> r[k] == s[k + 1]
    ensures i >= |s| ==> r == s
  {
    if i < |s| then s[..i] + s[i + 1..] else s
  }

  /**
   * `a.splice(i, 0, x)`: inserts x so that it lands at index i; JavaScript
   * clamps an index past the end to the length, so x is then appended.
   */
  function InsertAt<T>(s: seq<T>, i: nat, x: T): (r: seq<T>)
    ensures |r| == |s| + 1
    ensures r[if i < |s| then i else |s|] == x
    ensures forall k :: 0 <= k < |s| && k < i ==> r[k] == s[k]
    ensures forall k :: i <= k < |s| ==> r[k + 1] == s[k]
  {
    if i < |s| then s[..i] + [x] + s[i..] else s + [x]
  }

  lemma {:induction false} RemoveAtMultiset<T>(s: seq<T>, i: nat)
    requires i < |s|
    ensures multiset(RemoveAt(s, i)) + multiset{s[i]} == multiset(s)
  {
    assert s == s[..i] + [s[i]] + s[i + 1..];
  }

  lemma {:induction false} InsertAtMultiset<T>(s: seq<T>, i: nat, x: T)
    ensures multiset(InsertAt(s, i, x)) == multiset(s) + multiset{x}
  {
    if i < |s| {
      assert s == s[..i] + s[i..];
    }
  }

  /** Removing what was just inserted gives the sequence back. */
  lemma {:induction false} RemoveInserted<T>(s: seq<T>, i: nat, x: T)
    ensures RemoveAt(InsertAt(s, i, x), if i < |s| then i else |s|) == s
  {
    var r := InsertAt(s, i, x);
    var j := if i < |s| then i else |s|;
    assert forall k :: 0 <= k < |s| ==> RemoveAt(r, j)[k] == s[k];
  }

  /**
   * Element j after moving the element at from to dest: x itself at the
   * clamped destination, its neighbours shifted by one between the two
   * places, everything else where it was.
   */
  lemma {:induction false} MoveShape<T>(s: seq<T>, from: nat, dest: nat, j: nat)
    requires from < |s| && j < |s|
    ensures var d := if dest < |s| - 1 then dest else |s| - 1;
            InsertAt(RemoveAt(s, from), dest, s[from])[j] ==
              if j == d then s[from]
              else if d < from && d < j <= from then s[j - 1]
              else if from <= d && from <= j < d then s[j + 1]
              else s[j]
  {
    var t := RemoveAt(s, from);
    var r := InsertAt(t, dest, s[from]);
    var d := if dest < |s| - 1 then dest else |s| - 1;
    assert |t| == |s| - 1;
    assert d == if dest < |t| then dest else |t|;
    if j < d {
      assert r[j] == t[j];
    } else if j > d {
      assert r[j] == t[j - 1];
    }
  }

  /**
   * `a.splice(from, 1)` followed by `a.splice(dest, 0, x)` on one array,
   * x being the element taken out: the elements between the two places
   * shift by one and x lands at dest, or last when dest is past the end.
   */
  method SpliceMove<T>(a: array<T>, from: nat, dest: nat)
    requires from < a.Length
    modifies a
    ensures a[..] == InsertAt(RemoveAt(old(a[..]), from), dest, old(a[from]))
  {
    ghost var s := a[..];
    var x := a[from];
    var d := if dest < a.Length - 1 then dest else a.Length - 1;
    if d < from {
      var k := from;
      while k > d
        invariant d <= k <= from
        invariant forall j :: 0 <= j < a.Length && (j <= k || j > from) ==> a[j] == s[j]
        invariant forall j :: k < j <= from ==> a[j] == s[j - 1]
        decreases k
      {
        a[k] := a[k - 1];
        k := k - 1;
      }
    } else {
      var k := from;
      while k < d
        invariant from <= k <= d
        invariant forall j :: 0 <= j < a.Length && (j < from || j >= k) ==> a[j] == s[j]
        invariant forall j :: from <= j < k ==> a[j] == s[j + 1]
      {
        a[k] := a[k + 1];
        k := k + 1;
      }
    }
    a[d] := x;
    var r := InsertAt(RemoveAt(s, from), dest, x);
    forall j | 0 <= j < a.Length
      ensures a[j] == r[j]
    {
      MoveShape(s, from, dest, j);
    }
    assert a[..] == r;
  }

  /** The same two splices on a fresh copy of s (`[...s]`), the copy being returned. */
  method SpliceMoveCopy<T>(s: seq<T>, from: nat, dest: nat) returns (r: seq<T>)
    requires from < |s|
    ensures r == InsertAt(RemoveAt(s, from), dest, s[from])
  {
    var a := new T[|s|](i requires 0 <= i < |s| => s[i]);
    assert a[..] == s;
    SpliceMove(a, from, dest);
    r := a[..];
  }

  /** `a.filter(p)`. */
  function Filter<T>(s: seq<T>, p: T -> bool): (r: seq<T>)
    ensures |r| <= |s|
    ensures forall k :: 0 <= k < |r| ==> p(r[k])
    ensures forall x :: x in r ==> x in s
    ensures forall x :: x in s && p(x) ==> x in r
  {
    if s == [] then []
    else if p(s[0]) then [s[0]] + Filter(s[1..], p)
    else Filter(s[1..], p)
  }

  /** Number of elements of s that satisfy p. */
  function Count<T>(s: seq<T>, p: T -> bool): nat {
    if s == [] then 0 else (if p(s[0]) then 1 else 0) + Count(s[1..], p)
  }

  /** a is obtained from b by deleting elements, keeping the order of the rest. */
  predicate IsSubsequence<T(==)>(a: seq<T>, b: seq<T>)
    decreases |b|
  {
    a == [] || (b != [] && ((a[0] == b[0] && IsSubsequence(a[1..], b[1..])) || IsSubsequence(a, b[1..])))
  }

  lemma {:induction false} SubsequenceRefl<T>(s: seq<T>)
    ensures IsSubsequence(s, s)
    decreases |s|
  {
    if s != [] {
      SubsequenceRefl(s[1..]);
    }
  }

  /** The filtered sequence keeps the order of the input, and its length is the count. */
  lemma {:induction false} FilterIsOrderedSelection<T>(s: seq<T>, p: T -> bool)
    ensures IsSubsequence(Filter(s, p), s)
    ensures |Filter(s, p)| == Count(s, p)
    decreases |s|
  {
    if s != [] {
      FilterIsOrderedSelection(s[1..], p);
      var r := Filter(s, p);
      if p(s[0]) {
        assert r[0] == s[0] && r[1..] == Filter(s[1..], p);
      } else {
        if r != [] {
          assert IsSubsequence(r, s[1..]);
        }
      }
    }
  }

  lemma {:induction false} FilterConcat<T>(a: seq<T>, b: seq<T>, p: T -> bool)
    ensures Filter(a + b, p) == Filter(a, p) + Filter(b, p)
    decreases |a|
  {
    if a != [] {
      var ab := a + b;
      assert ab[0] == a[0] && ab[1..] == a[1..] + b;
      FilterConcat(a[1..], b, p);
      if p(a[0]) {
        assert Filter(ab, p) == [a[0]] + Filter(a[1..] + b, p);
      } else {
        assert Filter(ab, p) == Filter(a[1..] + b, p);
      }
    } else {
      assert a + b == b;
    }
  }

  /** Keeping what satisfies p and keeping what fails it splits s without loss. */
  lemma {:induction false} FilterSplitsMultiset<T>(s: seq<T>, p: T -> bool)
    ensures multiset(Filter(s, p)) + multiset(Filter(s, x => !p(x))) == multiset(s)
    ensures |Filter(s, p)| + |Filter(s, x => !p(x))| == |s|
    decreases |s|
  {
    if s != [] {
      FilterSplitsMultiset(s[1..], p);
      assert s == [s[0]] + s[1..];
    }
  }

  lemma {:induction false} FilterAllKept<T>(s: seq<T>, p: T -> bool)
    requires forall k :: 0 <= k < |s| ==> p(s[k])
    ensures Filter(s, p) == s
    decreases |s|
  {
    if s != [] {
      FilterAllKept(s[1..], p);
    }
  }

  lemma {:induction false} FilterNoneKept<T>(s: seq<T>, p: T -> bool)
    requires forall k :: 0 <= k < |s| ==> !p(s[k])
    ensures Filter(s, p) == []
    decreases |s|
  {
    if s != [] {
      FilterNoneKept(s[1..], p);
    }
  }

  /** `a.map(f)`. */
  function MapSeq<T, U>(s: seq<T>, f: T -> U): (r: seq<U>)
    ensures |r| == |s|
    ensures forall k :: 0 <= k < |s| ==> r[k] == f(s[k])
  {
    if s == [] then [] else [f(s[0])] + MapSeq(s[1..], f)
  }

  lemma {:induction false} MapSeqConcat<T, U>(a: seq<T>, b: seq<T>, f: T -> U)
    ensures MapSeq(a + b, f) == MapSeq(a, f) + MapSeq(b, f)
  {
    var l, r := MapSeq(a + b, f), MapSeq(a, f) + MapSeq(b, f);
    assert |l| == |r|;
    forall k | 0 <= k < |l| ensures l[k] == r[k] {
      if k < |a| {
        assert (a + b)[k] == a[k];
      } else {
        assert (a + b)[k] == b[k - |a|];
      }
    }
  }

  /** Regrouping a concatenation around its middle part m. */
  lemma {:induction false} RegroupAround<T>(e: seq<T>, b: seq<T>, m: seq<T>, a: seq<T>, t: seq<T>)
    ensures e + (b + m + a) + t == (e + b) + m + (a + t)
    ensures e + (b + m + a) == (e + b) + m + a
  {
  }

  lemma {:induction false} RegroupPair<T>(e: seq<T>, b: seq<T>, a: seq<T>, t: seq<T>)
    ensures e + (b + a) + t == (e + b) + (a + t)
    ensures e + (b + a) == (e + b) + a
  {
  }

  /** Replacing the middle element of p + [x] + q is an index update at |p|. */
  lemma {:induction false} ReplaceMiddle<T>(p: seq<T>, x: T, y: T, q: seq<T>)
    ensures (p + [x] + q)[|p|] == x
    ensures p + [y] + q == (p + [x] + q)[|p| := y]
  {
  }

  /** An index update that f does not see leaves the mapped sequence alone. */
  lemma {:induction false} MapSeqUpdate<T, U>(s: seq<T>, k: nat, y: T, f: T -> U)
    requires k < |s| && f(y) == f(s[k])
    ensures MapSeq(s[k := y], f) == MapSeq(s, f)
  {
    assert forall j :: 0 <= j < |s| ==> MapSeq(s[k := y], f)[j] == MapSeq(s, f)[j];
  }

  /** Filtering and mapping a sequence extended by one element. */
  lemma {:induction false} FilterMapSnoc<T, U>(s: seq<T>, x: T, p: T -> bool, f: T -> U)
    ensures MapSeq(Filter(s + [x], p), f) == MapSeq(Filter(s, p), f) + (if p(x) then [f(x)] else [])
  {
    FilterConcat(s, [x], p);
    assert Filter([x], p) == if p(x) then [x] else [];
    MapSeqConcat(Filter(s, p), Filter([x], p), f);
  }

  /** Two complementary filters split a mapped sequence without loss. */
  lemma {:induction false} FilterMapSplit<T, U>(s: seq<T>, p: T -> bool, q: T -> bool, f: T -> U)
    requires forall x :: q(x) == !p(x)
    ensures |Filter(s, p)| + |Filter(s, q)| == |s|
    ensures multiset(MapSeq(Filter(s, p), f)) + multiset(MapSeq(Filter(s, q), f)) == multiset(MapSeq(s, f))
  {
    if s != [] {
      FilterMapSplit(s[1..], p, q, f);
      HeadTail(s);
      MapSeqConcat([s[0]], s[1..], f);
      if p(s[0]) {
        MapSeqConcat([s[0]], Filter(s[1..], p), f);
      } else {
        MapSeqConcat([s[0]], Filter(s[1..], q), f);
      }
    }
  }

  /** A prefix one longer is the prefix followed by the next element. */
  lemma {:induction false} TakeSnoc<T>(s: seq<T>, i: nat)
    requires i < |s|
    ensures s[..i + 1] == s[..i] + [s[i]]
  {
  }

  /** A non-empty sequence is its head followed by its tail. */
  lemma {:induction false} HeadTail<T>(l: seq<T>)
    requires l != []
    ensures l == [l[0]] + l[1..]
  {
  }

  /** Two sequences with a first element: equal exactly when the first elements and the rests are. */
  lemma {:induction false} ConsEqual<T>(x: T, s: seq<T>, y: T, t: seq<T>)
    requires [x] + s == [y] + t
    ensures x == y && s == t
  {
    assert ([x] + s)[0] == x && ([x] + s)[1..] == s;
    assert ([y] + t)[0] == y && ([y] + t)[1..] == t;
  }

  /** No value occurs twice. */
  predicate NoDuplicates<T(==)>(s: seq<T>) {
    forall i, j :: 0 <= i < j < |s| ==> s[i] != s[j]
  }

  /** A concatenation has no duplicates exactly when both parts have none and they share nothing. */
  lemma {:induction false} NoDuplicatesConcat<T>(a: seq<T>, b: seq<T>)
    ensures NoDuplicates(a + b) <==> NoDuplicates(a) && NoDuplicates(b) && forall x :: x in a ==> x !in b
  {
    var c := a + b;
    if NoDuplicates(c) {
      forall i, j | 0 <= i < j < |a| ensures a[i] != a[j] {
        assert c[i] == a[i] && c[j] == a[j];
      }
      forall i, j | 0 <= i < j < |b| ensures b[i] != b[j] {
        assert c[|a| + i] == b[i] && c[|a| + j] == b[j];
      }
      forall x | x in a ensures x !in b {
        var i :| 0 <= i < |a| && a[i] == x;
        forall j | 0 <= j < |b| ensures b[j] != x {
          assert c[i] == a[i] && c[|a| + j] == b[j];
        }
      }
    }
    if NoDuplicates(a) && NoDuplicates(b) && forall x :: x in a ==> x !in b {
      forall i, j | 0 <= i < j < |c| ensures c[i] != c[j] {
        if j < |a| {
          assert c[i] == a[i] && c[j] == a[j];
        } else if i >= |a| {
          assert c[i] == b[i - |a|] && c[j] == b[j - |a|];
        } else {
          assert c[i] == a[i] && c[j] == b[j - |a|];
          assert a[i] in a && b[j - |a|] in b;
        }
      }
    }
  }

  /** Sum of `|fields|`-style sizes over a sequence. */
  function SumOf<T>(s: seq<T>, size: T -> nat): nat {
    if s == [] then 0 else size(s[0]) + SumOf(s[1..], size)
  }

  lemma {:induction false} SumOfConcat<T>(a: seq<T>, b: seq<T>, size: T -> nat)
    ensures SumOf(a + b, size) == SumOf(a, size) + SumOf(b, size)
    decreases |a|
  {
    if a == [] {
      assert a + b == b;
    } else {
      assert (a + b)[1..] == a[1..] + b;
      SumOfConcat(a[1..], b, size);
    }
  }

  /** Mapping after a removal loses exactly the image of the removed element. */
  lemma {:induction false} MapRemoveAt<T, U>(s: seq<T>, i: nat, f: T -> U)
    requires i < |s|
    ensures multiset(MapSeq(RemoveAt(s, i), f)) + multiset{f(s[i])} == multiset(MapSeq(s, f))
  {
    var m := MapSeq(s, f);
    var l, r := MapSeq(RemoveAt(s, i), f), RemoveAt(m, i);
    assert |l| == |r|;
    forall k | 0 <= k < |l|
      ensures l[k] == r[k]
    {
      if k < i {
        assert r[k] == m[k];
      } else {
        assert r[k] == m[k + 1];
      }
    }
    assert l == r;
    RemoveAtMultiset(m, i);
  }

  /** Mapping after an insertion gains exactly the image of the inserted element. */
  lemma {:induction false} MapInsertAt<T, U>(s: seq<T>, i: nat, x: T, f: T -> U)
    ensures multiset(MapSeq(InsertAt(s, i, x), f)) == multiset(MapSeq(s, f)) + multiset{f(x)}
  {
    if i < |s| {
      assert s == s[..i] + s[i..];
      MapSeqConcat(s[..i] + [x], s[i..], f);
      MapSeqConcat(s[..i], [x], f);
      MapSeqConcat(s[..i], s[i..], f);
    } else {
      MapSeqConcat(s, [x], f);
    }
  }

  /** A value occurs at most once in a sequence without duplicates. */
  lemma {:induction false} NoDuplicatesOnce<T>(s: seq<T>, x: T)
    requires NoDuplicates(s)
    ensures multiset(s)[x] <= 1
    decreases |s|
  {
    if s != [] {
      assert s == [s[0]] + s[1..];
      NoDuplicatesConcat([s[0]], s[1..]);
      NoDuplicatesOnce(s[1..], x);
    }
  }
}

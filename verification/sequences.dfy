/** Sequence combinators the processor and the tool registry are built from, with their laws. */
module Sequences {

  /** The concatenation of `emit(i, s[i])` for i = 0 .. |s|-1: an index-aware flat-map. Index
      filters and the frame duplication of a slow-down are instances of it. */
  function Expand<T>(s: seq<T>, emit: (int, T) -> seq<T>): seq<T>
    decreases |s|
  {
    if |s| == 0 then [] else Expand(s[..|s| - 1], emit) + emit(|s| - 1, s[|s| - 1])
  }

  /** w(0) + ... + w(n-1). */
  function Sum(n: nat, w: int -> nat): nat {
    if n == 0 then 0 else Sum(n - 1, w) + w(n - 1)
  }

  /** When the chunk emitted at index i always has w(i) elements, the expansion has Sum(|s|, w). */
  lemma {:induction false} ExpandLength<T>(s: seq<T>, emit: (int, T) -> seq<T>, w: int -> nat)
    requires forall i, x :: 0 <= i < |s| ==> |emit(i, x)| == w(i)
    ensures |Expand(s, emit)| == Sum(|s|, w)
    decreases |s|
  {
    if |s| > 0 {
      ExpandLength(s[..|s| - 1], emit, w);
    }
  }

  /** The chunk of index i sits in the expansion right after the chunks of the indices before it. */
  lemma {:induction false} ExpandAt<T>(s: seq<T>, emit: (int, T) -> seq<T>, i: int, t: int)
    requires 0 <= i < |s| && 0 <= t < |emit(i, s[i])|
    ensures |Expand(s[..i], emit)| + t < |Expand(s, emit)|
    ensures Expand(s, emit)[|Expand(s[..i], emit)| + t] == emit(i, s[i])[t]
    decreases |s|
  {
    var last := |s| - 1;
    var front := s[..last];
    assert Expand(s, emit) == Expand(front, emit) + emit(last, s[last]);
    if i == last {
      assert s[..i] == front;
    } else {
      ExpandAt(front, emit, i, t);
      assert front[..i] == s[..i];
      assert front[i] == s[i];
    }
  }

  /** A sum of at most-one terms is at most the number of terms. */
  lemma {:induction false} SumAtMost(n: nat, w: int -> nat)
    requires forall i :: 0 <= i < n ==> w(i) <= 1
    ensures Sum(n, w) <= n
  {
    if n > 0 {
      SumAtMost(n - 1, w);
    }
  }

  /** A sum over a longer range that takes in a positive term is strictly larger. */
  lemma {:induction false} SumGrows(i: nat, j: nat, w: int -> nat)
    requires i < j && w(i) >= 1
    ensures Sum(i, w) < Sum(j, w)
  {
    if j > i + 1 {
      SumGrows(i, j - 1, w);
    }
  }

  /** `xs.filter((x, i) => xs.indexOf(x) === i && ok(x))`: the elements that pass `ok`, each kept
      at its first position only. */
  function KeepFirst(xs: seq<int>, ok: int -> bool): (r: seq<int>)
    ensures |r| <= |xs|
    ensures forall x :: x in r <==> x in xs && ok(x)
    ensures forall a, b :: 0 <= a < b < |r| ==> r[a] != r[b]
    decreases |xs|
  {
    if |xs| == 0 then []
    else
      var front := xs[..|xs| - 1];
      var x := xs[|xs| - 1];
      assert xs == front + [x];
      KeepFirst(front, ok) + (if ok(x) && x !in front then [x] else [])
  }

  /** Like `filter`, the deduplication keeps the surviving values in the order of their first
      occurrence in the input. */
  lemma {:induction false} KeepFirstKeepsOrder(xs: seq<int>, ok: int -> bool)
    ensures forall a, b :: 0 <= a < b < |KeepFirst(xs, ok)| ==>
      IndexOf(xs, KeepFirst(xs, ok)[a]) < IndexOf(xs, KeepFirst(xs, ok)[b])
    decreases |xs|
  {
    if |xs| > 0 {
      var front := xs[..|xs| - 1];
      var x := xs[|xs| - 1];
      assert xs == front + [x];
      var r' := KeepFirst(front, ok);
      KeepFirstKeepsOrder(front, ok);
      KeepFirstOrderStep(front, x, r');
      var r := KeepFirst(xs, ok);
      assert r == r' + (if ok(x) && x !in front then [x] else []);
      forall a, b | 0 <= a < b < |r|
        ensures IndexOf(xs, r[a]) < IndexOf(xs, r[b])
      {
        if b < |r'| {
          assert IndexOf(front, r'[a]) < IndexOf(front, r'[b]);
        } else {
          assert r[b] == x && x !in front;
        }
      }
    }
  }

  /** Appending one element leaves the first position of every earlier value where it was, and
      puts a new value last. */
  lemma KeepFirstOrderStep(front: seq<int>, x: int, r': seq<int>)
    requires forall y :: y in r' ==> y in front
    ensures forall a :: 0 <= a < |r'| ==> IndexOf(front + [x], r'[a]) == IndexOf(front, r'[a]) < |front|
    ensures x !in front ==> IndexOf(front + [x], x) == |front|
  {
    var xs := front + [x];
    forall a | 0 <= a < |r'|
      ensures IndexOf(xs, r'[a]) == IndexOf(front, r'[a]) < |front|
    {
      var j := IndexOf(front, r'[a]);
      assert xs[..j] == front[..j];
      IndexOfUnique(xs, r'[a], j);
    }
    if x !in front {
      assert xs[..|front|] == front;
      IndexOfUnique(xs, x, |front|);
    }
  }

  /** The first position of a value is the one position before which it does not occur. */
  lemma {:induction false} IndexOfUnique<T>(s: seq<T>, x: T, j: nat)
    requires j < |s| && s[j] == x && x !in s[..j]
    ensures IndexOf(s, x) == j
  {
    if s[0] != x {
      assert s[1..][..j - 1] == s[..j][1..];
      IndexOfUnique(s[1..], x, j - 1);
    }
  }

  /** Deduplicating a non-decreasing list leaves a strictly increasing one. */
  lemma {:induction false} KeepFirstIncreasing(xs: seq<int>, ok: int -> bool)
    requires forall a, b :: 0 <= a < b < |xs| ==> xs[a] <= xs[b]
    ensures forall a, b :: 0 <= a < b < |KeepFirst(xs, ok)| ==> KeepFirst(xs, ok)[a] < KeepFirst(xs, ok)[b]
    decreases |xs|
  {
    if |xs| > 0 {
      var front := xs[..|xs| - 1];
      var x := xs[|xs| - 1];
      KeepFirstIncreasing(front, ok);
      var r' := KeepFirst(front, ok);
      forall a | 0 <= a < |r'|
        ensures r'[a] < x || !(ok(x) && x !in front)
      {
        assert r'[a] in front;
        var j :| 0 <= j < |front| && front[j] == r'[a];
        assert xs[j] <= xs[|xs| - 1];
      }
    }
  }

  /** In a strictly increasing sequence of naturals, the element at position i is at least i. */
  lemma {:induction false} IncreasingFromZero(keys: seq<int>)
    requires forall a, b :: 0 <= a < b < |keys| ==> keys[a] < keys[b]
    requires forall a :: 0 <= a < |keys| ==> 0 <= keys[a]
    ensures forall i :: 0 <= i < |keys| ==> i <= keys[i]
  {
    if |keys| > 0 {
      var init := keys[..|keys| - 1];
      IncreasingFromZero(init);
      assert forall i :: 0 <= i < |init| ==> init[i] == keys[i];
      if |keys| > 1 {
        assert init[|keys| - 2] < keys[|keys| - 1];
      }
    }
  }

  /** A strictly increasing sequence of 0s and 1s has at most two elements. */
  lemma AtMostTwoBelowTwo(keys: seq<int>)
    requires forall a, b :: 0 <= a < b < |keys| ==> keys[a] < keys[b]
    requires forall k :: k in keys ==> 0 <= k < 2
    ensures |keys| <= 2
  {
    if |keys| > 0 {
      assert forall a :: 0 <= a < |keys| ==> keys[a] in keys;
      IncreasingFromZero(keys);
      assert keys[|keys| - 1] in keys;
    }
  }

  /** `lines.join(sep)`. */
  function Join<T>(lines: seq<seq<T>>, sep: T): seq<T> {
    if |lines| == 0 then []
    else if |lines| == 1 then lines[0]
    else lines[0] + [sep] + Join(lines[1..], sep)
  }

  /** `s.indexOf(x)` when x occurs in s. */
  function IndexOf<T(==)>(s: seq<T>, x: T): (i: nat)
    requires x in s
    ensures i < |s| && s[i] == x && x !in s[..i]
  {
    if s[0] == x then 0 else 1 + IndexOf(s[1..], x)
  }

  /** `s.split(sep)`. */
  function Split<T(==)>(s: seq<T>, sep: T): (r: seq<seq<T>>)
    ensures |r| >= 1
    decreases |s|
  {
    if sep !in s then [s]
    else
      var i := IndexOf(s, sep);
      [s[..i]] + Split(s[i + 1..], sep)
  }

  /** Splitting a join recovers the lines, when no line holds the separator. */
  lemma {:induction false} SplitJoin<T>(lines: seq<seq<T>>, sep: T)
    requires |lines| >= 1
    requires forall k :: 0 <= k < |lines| ==> sep !in lines[k]
    ensures Split(Join(lines, sep), sep) == lines
    decreases |lines|
  {
    if |lines| > 1 {
      var head := lines[0];
      var rest := Join(lines[1..], sep);
      var j := head + [sep] + rest;
      assert Join(lines, sep) == j;
      assert j[|head|] == sep;
      var i := IndexOf(j, sep);
      assert i == |head|;
      assert j[..i] == head;
      assert j[i + 1..] == rest;
      SplitJoin(lines[1..], sep);
      assert lines == [head] + lines[1..];
    }
  }

  /** A join ends with its last line: no separator trails it. */
  lemma {:induction false} JoinEndsWithLast<T>(lines: seq<seq<T>>, sep: T)
    requires |lines| >= 1
    ensures |lines[|lines| - 1]| <= |Join(lines, sep)|
    ensures Join(lines, sep)[|Join(lines, sep)| - |lines[|lines| - 1]|..] == lines[|lines| - 1]
    decreases |lines|
  {
    if |lines| > 1 {
      JoinEndsWithLast(lines[1..], sep);
    }
  }
}

/**
 Sequence operations the broadcaster performs on its registry and its wait-set:
 removal at an index (Go's `append(s[:i], s[i+1:]...)`), removal of the first
 entry equal to a given one, and the order-preserving "subsequence" relation
 that says an edited registry only lost entries.
 */
module Sequences {

  /** The set of entries of s. */
  function Elements<T>(s: seq<T>): set<T>
  {
    set x | x in s
  }

  /** s without its entry at index i. */
  function RemoveAt<T>(s: seq<T>, i: nat): (r: seq<T>)
    requires i < |s|
    ensures |r| == |s| - 1
    ensures forall j :: 0 <= j < |r| ==> r[j] == if j < i then s[j] else s[j + 1]
  {
    s[..i] + s[i + 1..]
  }

  /** Removing at an index takes exactly one copy of that entry out. */
  lemma RemoveAtMultiset<T>(s: seq<T>, i: nat)
    requires i < |s|
    ensures multiset(RemoveAt(s, i)) == multiset(s) - multiset{s[i]}
  {
    assert s == s[..i] + [s[i]] + s[i + 1..];
  }

  /** Index of the first entry of s equal to x, or |s| when there is none. */
  function FirstIndex<T(==)>(s: seq<T>, x: T): (i: nat)
    ensures i <= |s|
    ensures i < |s| ==> s[i] == x
    ensures forall j :: 0 <= j < i ==> s[j] != x
  {
    if s == [] then 0
    else if s[0] == x then 0
    else 1 + FirstIndex(s[1..], x)
  }

  /** An index with x there and nowhere before it is the first index of x; so is |s| when x is absent. */
  lemma {:induction false} FirstIndexOnly<T>(s: seq<T>, x: T, j: nat)
    requires j <= |s| && (j < |s| ==> s[j] == x) && forall k :: 0 <= k < j ==> s[k] != x
    ensures j == FirstIndex(s, x)
  {
    if s != [] && s[0] != x {
      FirstIndexOnly(s[1..], x, j - 1);
    }
  }

  /** s without its first entry equal to x; s itself when x does not occur. */
  function RemoveFirst<T(==)>(s: seq<T>, x: T): (r: seq<T>)
    ensures x in s ==> |r| == |s| - 1
    ensures x !in s ==> r == s
  {
    var i := FirstIndex(s, x);
    if i < |s| then RemoveAt(s, i) else s
  }

  /** Removing the first match takes one copy of x out, if there is one. */
  lemma RemoveFirstMultiset<T>(s: seq<T>, x: T)
    ensures multiset(RemoveFirst(s, x)) == multiset(s) - multiset{x}
  {
    var i := FirstIndex(s, x);
    if i < |s| {
      RemoveAtMultiset(s, i);
    } else {
      assert x !in multiset(s);
    }
  }

  /**
   When s holds the entries of todo and of done, the first entry of todo is in
   s, and removing it leaves the rest of todo and done.
   */
  lemma TakeFirst<T>(s: seq<T>, todo: seq<T>, done: seq<T>)
    requires todo != [] && multiset(s) == multiset(todo) + multiset(done)
    ensures todo[0] in s
    ensures multiset(RemoveFirst(s, todo[0])) == multiset(todo[1..]) + multiset(done)
  {
    assert todo == [todo[0]] + todo[1..];
    assert todo[0] in multiset(s);
    RemoveFirstMultiset(s, todo[0]);
  }

  /** s after removing the first match of each entry of xs, from left to right. */
  function RemoveEach<T(==)>(s: seq<T>, xs: seq<T>): (r: seq<T>)
    ensures |r| <= |s|
    decreases |xs|
  {
    if xs == [] then s
    else RemoveFirst(RemoveEach(s, xs[..|xs| - 1]), xs[|xs| - 1])
  }

  /** Removing each of xs takes one copy of every entry of xs out, as far as there is one. */
  lemma {:induction false} RemoveEachMultiset<T>(s: seq<T>, xs: seq<T>)
    ensures multiset(RemoveEach(s, xs)) == multiset(s) - multiset(xs)
    decreases |xs|
  {
    if xs != [] {
      var init, last := xs[..|xs| - 1], xs[|xs| - 1];
      assert xs == init + [last];
      RemoveEachMultiset(s, init);
      RemoveFirstMultiset(RemoveEach(s, init), last);
    }
  }

  /** a is b with some entries deleted and the rest in their original order. */
  ghost predicate IsSubsequence<T>(a: seq<T>, b: seq<T>)
    decreases |b|
  {
    if a == [] then true
    else if b == [] then false
    else if a[0] == b[0] then IsSubsequence(a[1..], b[1..])
    else IsSubsequence(a, b[1..])
  }

  lemma {:induction false} SubsequenceRefl<T>(s: seq<T>)
    ensures IsSubsequence(s, s)
    decreases |s|
  {
    if s != [] {
      SubsequenceRefl(s[1..]);
    }
  }

  /** Dropping the head of a subsequence keeps it a subsequence. */
  lemma {:induction false} SubsequenceDropHead<T>(a: seq<T>, b: seq<T>)
    requires a != [] && IsSubsequence(a, b)
    ensures IsSubsequence(a[1..], b)
    decreases |b|
  {
    if a[0] == b[0] {
      if a[1..] != [] && a[1] == b[0] {
        SubsequenceDropHead(a[1..], b[1..]);
        assert a[1..][1..] == a[2..];
      }
    } else {
      SubsequenceDropHead(a, b[1..]);
      if a[1..] != [] && a[1] == b[0] {
        SubsequenceDropHead(a[1..], b[1..]);
        assert a[1..][1..] == a[2..];
      }
    }
  }

  lemma {:induction false} SubsequenceCons<T>(a: seq<T>, b: seq<T>, y: T)
    requires IsSubsequence(a, b)
    ensures IsSubsequence(a, [y] + b)
  {
    assert ([y] + b)[1..] == b;
    if a != [] && a[0] == y {
      SubsequenceDropHead(a, b);
    }
  }

  lemma {:induction false} SubsequenceTrans<T>(a: seq<T>, b: seq<T>, c: seq<T>)
    requires IsSubsequence(a, b) && IsSubsequence(b, c)
    ensures IsSubsequence(a, c)
    decreases |c|
  {
    if a != [] {
      if b[0] == c[0] {
        if a[0] == b[0] {
          SubsequenceTrans(a[1..], b[1..], c[1..]);
        } else {
          SubsequenceTrans(a, b[1..], c[1..]);
        }
      } else {
        SubsequenceTrans(a, b, c[1..]);
        if a[0] == c[0] {
          SubsequenceDropHead(a, c[1..]);
        }
      }
    }
  }

  /** A subsequence of b is a subsequence of b extended at the end. */
  lemma {:induction false} SubsequenceExtend<T>(a: seq<T>, b: seq<T>, y: T)
    requires IsSubsequence(a, b)
    ensures IsSubsequence(a, b + [y])
    decreases |b|
  {
    if a != [] {
      assert (b + [y])[1..] == b[1..] + [y];
      if a[0] == b[0] {
        SubsequenceExtend(a[1..], b[1..], y);
      } else {
        SubsequenceExtend(a, b[1..], y);
      }
    }
  }

  /** Extending both sides with the same entry keeps a subsequence. */
  lemma {:induction false} SubsequenceSnoc<T>(a: seq<T>, b: seq<T>, x: T)
    requires IsSubsequence(a, b)
    ensures IsSubsequence(a + [x], b + [x])
    decreases |b|
  {
    if b != [] {
      assert (b + [x])[1..] == b[1..] + [x];
      if a != [] && a[0] == b[0] {
        assert (a + [x])[1..] == a[1..] + [x];
        SubsequenceSnoc(a[1..], b[1..], x);
      } else if a != [] {
        SubsequenceSnoc(a, b[1..], x);
      } else if b[0] != x {
        SubsequenceSnoc(a, b[1..], x);
      }
    }
  }

  /** Removing one entry keeps the other entries in order. */
  lemma {:induction false} RemoveAtSubsequence<T>(s: seq<T>, i: nat)
    requires i < |s|
    ensures IsSubsequence(RemoveAt(s, i), s)
    decreases i
  {
    var r := RemoveAt(s, i);
    if i == 0 {
      assert r == s[1..];
      SubsequenceRefl(s[1..]);
      SubsequenceCons(s[1..], s[1..], s[0]);
      assert [s[0]] + s[1..] == s;
    } else {
      RemoveAtSubsequence(s[1..], i - 1);
      assert r[1..] == RemoveAt(s[1..], i - 1);
    }
  }

  /** Removing the first match of x keeps the other entries in order. */
  lemma RemoveFirstSubsequence<T>(s: seq<T>, x: T)
    ensures IsSubsequence(RemoveFirst(s, x), s)
  {
    if x in s {
      RemoveAtSubsequence(s, FirstIndex(s, x));
    } else {
      SubsequenceRefl(s);
    }
  }

  /** However many entries are removed, the rest keep their relative order. */
  lemma {:induction false} RemoveEachSubsequence<T>(s: seq<T>, xs: seq<T>)
    ensures IsSubsequence(RemoveEach(s, xs), s)
    decreases |xs|
  {
    if xs == [] {
      SubsequenceRefl(s);
    } else {
      var init := xs[..|xs| - 1];
      RemoveEachSubsequence(s, init);
      RemoveFirstSubsequence(RemoveEach(s, init), xs[|xs| - 1]);
      SubsequenceTrans(RemoveEach(s, xs), RemoveEach(s, init), s);
    }
  }

  /** Removing xs + [x] is removing xs, then the first match of x. */
  lemma RemoveEachSnoc<T>(s: seq<T>, xs: seq<T>, x: T)
    ensures RemoveEach(s, xs + [x]) == RemoveFirst(RemoveEach(s, xs), x)
  {
    assert (xs + [x])[..|xs|] == xs;
  }

  /** Moving a walk over s past index j moves s[j] from the part ahead to the part behind. */
  lemma Advance<T>(s: seq<T>, j: nat)
    requires j < |s|
    ensures s[..j + 1] == s[..j] + [s[j]]
    ensures Elements(s[..j + 1]) == Elements(s[..j]) + {s[j]}
    ensures s[j..] != [] && s[j..][0] == s[j] && s[j..][1..] == s[j + 1..]
  {
    assert s[..j + 1] == s[..j] + [s[j]];
  }
}

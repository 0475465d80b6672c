/** Order-preserving selection from a sequence (`Array.prototype.filter`)
    and the subsequence relation that characterises it. */
module Seqs {

  /** `a` can be obtained from `b` by deleting elements, keeping order. */
  predicate IsSubsequence<T(==)>(a: seq<T>, b: seq<T>)
    decreases |b|
  {
    if |a| == 0 then true
    else if |b| == 0 then false
    else (a[0] == b[0] && IsSubsequence(a[1..], b[1..])) || IsSubsequence(a, b[1..])
  }

  /** The elements of `s` that satisfy `p`, in their original order. */
  function Select<T>(s: seq<T>, p: T -> bool): (r: seq<T>)
    ensures |r| <= |s|
    ensures forall i :: 0 <= i < |r| ==> p(r[i])
    decreases |s|
  {
    if |s| == 0 then []
    else (if p(s[0]) then [s[0]] else []) + Select(s[1..], p)
  }

  /** Selection distributes over concatenation, so it never reorders. */
  lemma {:induction false} SelectAppend<T>(a: seq<T>, b: seq<T>, p: T -> bool)
    ensures Select(a + b, p) == Select(a, p) + Select(b, p)
    decreases |a|
  {
    if |a| > 0 {
      assert (a + b)[1..] == a[1..] + b;
      SelectAppend(a[1..], b, p);
    } else {
      assert a + b == b;
    }
  }

  /** Selecting from a sequence extended by one element extends the
      selection by that element exactly when it satisfies `p`. */
  lemma SelectSnoc<T>(s: seq<T>, x: T, p: T -> bool)
    ensures Select(s + [x], p) == Select(s, p) + (if p(x) then [x] else [])
  {
    SelectAppend(s, [x], p);
    assert Select([x], p) == (if p(x) then [x] else []) + Select([x][1..], p);
  }

  /** Each value occurs in the selection exactly as often as in the input
      when it satisfies `p`, and not at all otherwise. */
  lemma {:induction false} SelectCounts<T>(s: seq<T>, p: T -> bool)
    ensures forall x :: multiset(Select(s, p))[x] == if p(x) then multiset(s)[x] else 0
    decreases |s|
  {
    if |s| > 0 {
      SelectCounts(s[1..], p);
      assert s == [s[0]] + s[1..];
    }
  }

  lemma {:induction false} SelectIsSubsequence<T>(s: seq<T>, p: T -> bool)
    ensures IsSubsequence(Select(s, p), s)
    decreases |s|
  {
    if |s| > 0 {
      SelectIsSubsequence(s[1..], p);
      var r := Select(s, p);
      if p(s[0]) {
        assert r[0] == s[0] && r[1..] == Select(s[1..], p);
      } else {
        assert r == Select(s[1..], p);
        SubsequenceDropHead(r, s);
      }
    }
  }

  /** Every sequence is a subsequence of itself. */
  lemma {:induction false} SubsequenceReflexive<T>(s: seq<T>)
    ensures IsSubsequence(s, s)
    decreases |s|
  {
    if |s| > 0 {
      SubsequenceReflexive(s[1..]);
    }
  }

  /** A subsequence of the tail is a subsequence of the whole. */
  lemma SubsequenceDropHead<T>(a: seq<T>, b: seq<T>)
    requires |b| > 0 && IsSubsequence(a, b[1..])
    ensures IsSubsequence(a, b)
  {
  }

  /** A subsequence uses each value at most as often as the sequence. */
  lemma {:induction false} SubsequenceCounts<T>(a: seq<T>, b: seq<T>)
    requires IsSubsequence(a, b)
    ensures multiset(a) <= multiset(b)
    decreases |b|
  {
    if |a| > 0 {
      assert b == [b[0]] + b[1..];
      if a[0] == b[0] && IsSubsequence(a[1..], b[1..]) {
        SubsequenceCounts(a[1..], b[1..]);
        assert a == [a[0]] + a[1..];
      } else {
        SubsequenceCounts(a, b[1..]);
      }
    }
  }

  /** Selecting with a predicate that holds throughout changes nothing. */
  lemma {:induction false} SelectAll<T>(s: seq<T>, p: T -> bool)
    requires forall i :: 0 <= i < |s| ==> p(s[i])
    ensures Select(s, p) == s
    decreases |s|
  {
    if |s| > 0 {
      SelectAll(s[1..], p);
    }
  }

  /** Selecting twice with the same predicate is selecting once. */
  lemma SelectIdempotent<T>(s: seq<T>, p: T -> bool)
    ensures Select(Select(s, p), p) == Select(s, p)
  {
    SelectAll(Select(s, p), p);
  }

  /** A value's count in a non-empty sequence: one for the head if it is
      that value, plus its count in the tail. */
  lemma CountHead<T>(s: seq<T>, y: T)
    requires |s| > 0
    ensures multiset(s)[y] == (if s[0] == y then 1 else 0) + multiset(s[1..])[y]
  {
    assert s == [s[0]] + s[1..];
  }

  /** The selection is the ONLY subsequence of `s` whose elements all satisfy
      `p` and which keeps every occurrence of every such value. */
  lemma {:induction false} SelectUnique<T>(s: seq<T>, p: T -> bool, r: seq<T>)
    requires IsSubsequence(r, s)
    requires forall i :: 0 <= i < |r| ==> p(r[i])
    requires forall x :: p(x) ==> multiset(r)[x] == multiset(s)[x]
    ensures r == Select(s, p)
    decreases |s|
  {
    if |s| == 0 {
    } else if |r| == 0 {
      CountHead(s, s[0]);
      if p(s[0]) {
        assert false;
      } else {
        forall y | p(y) ensures multiset(r)[y] == multiset(s[1..])[y] {
          CountHead(s, y);
        }
        SelectUnique(s[1..], p, r);
      }
    } else if r[0] == s[0] && IsSubsequence(r[1..], s[1..]) {
      forall y | p(y) ensures multiset(r[1..])[y] == multiset(s[1..])[y] {
        CountHead(r, y);
        CountHead(s, y);
      }
      SelectUnique(s[1..], p, r[1..]);
    } else {
      SubsequenceCounts(r, s[1..]);
      CountHead(s, s[0]);
      if p(s[0]) {
        assert false;
      } else {
        forall y | p(y) ensures multiset(r)[y] == multiset(s[1..])[y] {
          CountHead(s, y);
        }
        SelectUnique(s[1..], p, r);
      }
    }
  }
}

/** Sequence operations with the meaning of the JavaScript array methods the
    pages use: `filter` and `slice(-n)`. */
module Sequences {

  /** `r` can be obtained from `s` by deleting elements, keeping the order of
      the rest. */
  predicate IsSubsequence<T(==)>(r: seq<T>, s: seq<T>)
    decreases |s|
  {
    if r == [] then true
    else if s == [] then false
    else (r[0] == s[0] && IsSubsequence(r[1..], s[1..])) || IsSubsequence(r, s[1..])
  }

  /** No element occurs twice. */
  predicate Distinct<T(==)>(s: seq<T>)
  {
    forall i, j :: 0 <= i < j < |s| ==> s[i] != s[j]
  }

  /** `s.filter(keep)`: the elements of `s` that `keep` accepts, in their
      original order, each as often as it occurs in `s`. */
  function Filter<T(==)>(s: seq<T>, keep: T -> bool): (r: seq<T>)
    ensures IsSubsequence(r, s)
    ensures forall x :: x in r ==> x in s && keep(x)
    ensures forall i :: 0 <= i < |s| && keep(s[i]) ==> s[i] in r
    ensures |r| <= |s|
  {
    if s == [] then []
    else
      var rest := Filter(s[1..], keep);
      if keep(s[0]) then
        assert ([s[0]] + rest)[1..] == rest;
        [s[0]] + rest
      else
        rest
  }

  /** Filtering keeps every accepted element as often as it occurs and drops
      every rejected one entirely. */
  lemma {:induction false} FilterCount<T>(s: seq<T>, keep: T -> bool, x: T)
    ensures multiset(Filter(s, keep))[x] == if keep(x) then multiset(s)[x] else 0
  {
    if s != [] {
      FilterCount(s[1..], keep, x);
      assert s == [s[0]] + s[1..];
      if keep(s[0]) {
        assert Filter(s, keep) == [s[0]] + Filter(s[1..], keep);
      }
    }
  }

  /** Filtering with a predicate that accepts every element changes nothing. */
  lemma {:induction false} FilterKeepsAll<T>(s: seq<T>, keep: T -> bool)
    requires forall x :: x in s ==> keep(x)
    ensures Filter(s, keep) == s
  {
    if s != [] {
      FilterKeepsAll(s[1..], keep);
    }
  }

  /** Every element of a subsequence occurs in the sequence. */
  lemma {:induction false} SubsequenceMembers<T>(r: seq<T>, s: seq<T>)
    requires IsSubsequence(r, s)
    ensures forall x :: x in r ==> x in s
    decreases |s|
  {
    if r != [] && s != [] {
      if r[0] == s[0] && IsSubsequence(r[1..], s[1..]) {
        SubsequenceMembers(r[1..], s[1..]);
        forall x | x in r ensures x in s {
          if x != r[0] { assert x in r[1..]; assert x in s[1..]; }
        }
      } else {
        SubsequenceMembers(r, s[1..]);
      }
    }
  }

  /** Every sequence is a subsequence of itself. */
  lemma {:induction false} SubsequenceReflexive<T>(s: seq<T>)
    ensures IsSubsequence(s, s)
  {
    if s != [] {
      SubsequenceReflexive(s[1..]);
    }
  }

  /** A subsequence of a subsequence of `c` is a subsequence of `c`. */
  lemma {:induction false} SubsequenceTransitive<T>(a: seq<T>, b: seq<T>, c: seq<T>)
    requires IsSubsequence(a, b) && IsSubsequence(b, c)
    ensures IsSubsequence(a, c)
    decreases |c|
  {
    if a != [] {
      if IsSubsequence(b, c[1..]) {
        SubsequenceTransitive(a, b, c[1..]);
      } else if a[0] == b[0] && IsSubsequence(a[1..], b[1..]) {
        SubsequenceTransitive(a[1..], b[1..], c[1..]);
      } else {
        SubsequenceTransitive(a, b[1..], c[1..]);
      }
    }
  }

  /** A subsequence of a sequence without duplicates has no duplicates either. */
  lemma {:induction false} SubsequenceOfDistinct<T>(r: seq<T>, s: seq<T>)
    requires IsSubsequence(r, s) && Distinct(s)
    ensures Distinct(r)
    decreases |s|
  {
    if r != [] && s != [] {
      assert Distinct(s[1..]);
      if r[0] == s[0] && IsSubsequence(r[1..], s[1..]) {
        SubsequenceOfDistinct(r[1..], s[1..]);
        SubsequenceMembers(r[1..], s[1..]);
        forall j | 0 < j < |r| ensures r[0] != r[j] {
          assert r[j] == r[1..][j - 1];
          assert r[j] in s[1..];
        }
        forall i, j | 0 <= i < j < |r| ensures r[i] != r[j] {
          if i > 0 { assert r[i] == r[1..][i - 1] && r[j] == r[1..][j - 1]; }
        }
      } else {
        SubsequenceOfDistinct(r, s[1..]);
      }
    }
  }

  /** `s.slice(-n)` for a positive `n`: the whole of `s` when it is no longer
      than `n`, otherwise its last `n` elements. (For `n = 0` this gives `[]`,
      while `slice(-0)` is `slice(0)`, the whole list.) */
  function LastN<T>(s: seq<T>, n: nat): (r: seq<T>)
    ensures |r| == if |s| <= n then |s| else n
  {
    if |s| <= n then s else LastN(s[1..], n)
  }

  /** What `LastN` keeps is the suffix of `s` of its length. */
  lemma {:induction false} LastNIsSuffix<T>(s: seq<T>, n: nat)
    ensures LastN(s, n) == s[|s| - |LastN(s, n)|..]
  {
    if |s| > n {
      LastNIsSuffix(s[1..], n);
      assert s[1..][|s| - 1 - n..] == s[|s| - n..];
    }
  }

  /** When `s` is long enough, `LastN` keeps exactly its last `n` elements. */
  lemma LastNWindow<T>(s: seq<T>, n: nat)
    requires n <= |s|
    ensures LastN(s, n) == s[|s| - n..|s|]
  {
    LastNIsSuffix(s, n);
    assert s[|s| - n..] == s[|s| - n..|s|];
  }

  lemma DropLast<T>(s: seq<T>)
    requires s != []
    ensures s == s[..|s| - 1] + [s[|s| - 1]]
  {
  }

  lemma TakeDrop<T>(s: seq<T>, d: int)
    requires 0 <= d <= |s|
    ensures s[..d] + s[d..] == s
  {
  }

  /** Cutting `a + b` inside `a`. */
  lemma AppendTakeDrop<T>(a: seq<T>, b: seq<T>, d: int)
    requires 0 <= d <= |a|
    ensures (a + b)[..d] == a[..d] && (a + b)[d..] == a[d..] + b
  {
  }

  lemma AppendAssoc<T>(x: seq<T>, y: seq<T>, z: seq<T>)
    ensures (x + y) + z == x + (y + z)
  {
  }

  /** A sequence is its part before `i`, between `i` and `j`, and after `j`. */
  lemma SplitAround<T>(s: seq<T>, i: int, j: int)
    requires 0 <= i <= j <= |s|
    ensures s == s[..i] + (s[i..j] + s[j..])
  {
  }

  /** The middle part of a three-part concatenation, taken back out. */
  lemma MiddleSlice<T>(x: seq<T>, y: seq<T>, z: seq<T>)
    ensures (x + (y + z))[|x|..|x| + |y|] == y
  {
  }

  /** A sequence with no members is empty. */
  lemma NothingInIsEmpty<T>(s: seq<T>)
    requires forall x :: x !in s
    ensures s == []
  {
    if s != [] {
      HeadIsMember(s);
    }
  }

  lemma HeadIsMember<T>(s: seq<T>)
    requires s != []
    ensures s[0] in s
  {
  }
}

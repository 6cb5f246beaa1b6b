/** Order-keeping deletion from sequences: the shape of every `filter` in the application. */
module Seqs {

  /** `sub` is obtained from `s` by deleting elements; the order of what is left is kept. */
  ghost predicate IsSubseq<T>(sub: seq<T>, s: seq<T>)
    decreases |s|
  {
    sub == [] ||
    (s != [] && ((sub[0] == s[0] && IsSubseq(sub[1..], s[1..])) || IsSubseq(sub, s[1..])))
  }

  lemma {:induction false} SubseqRefl<T>(s: seq<T>)
    ensures IsSubseq(s, s)
    decreases |s|
  {
    if s != [] {
      SubseqRefl(s[1..]);
    }
  }

  lemma {:induction false} SubseqLength<T>(sub: seq<T>, s: seq<T>)
    requires IsSubseq(sub, s)
    ensures |sub| <= |s|
    decreases |s|
  {
    if sub != [] {
      if sub[0] == s[0] && IsSubseq(sub[1..], s[1..]) {
        SubseqLength(sub[1..], s[1..]);
      } else {
        SubseqLength(sub, s[1..]);
      }
    }
  }

  /** Deleting from the two halves of a sequence deletes from the whole. */
  lemma {:induction false} SubseqConcat<T>(a1: seq<T>, s1: seq<T>, a2: seq<T>, s2: seq<T>)
    requires IsSubseq(a1, s1) && IsSubseq(a2, s2)
    ensures IsSubseq(a1 + a2, s1 + s2)
    decreases |s1|
  {
    if s1 == [] {
      assert a1 == [];
      assert a1 + a2 == a2 && s1 + s2 == s2;
    } else if a1 == [] {
      SubseqConcat(a1, s1[1..], a2, s2);
      assert a1 + a2 == a2;
      assert (s1 + s2)[1..] == s1[1..] + s2;
    } else if a1[0] == s1[0] && IsSubseq(a1[1..], s1[1..]) {
      SubseqConcat(a1[1..], s1[1..], a2, s2);
      assert (a1 + a2)[1..] == a1[1..] + a2;
      assert (s1 + s2)[1..] == s1[1..] + s2;
    } else {
      SubseqConcat(a1, s1[1..], a2, s2);
      assert (s1 + s2)[1..] == s1[1..] + s2;
    }
  }

  /** Anything placed in front keeps a subsequence a subsequence. */
  lemma {:induction false} SubseqPrepend<T>(a: seq<T>, x: seq<T>, y: seq<T>)
    requires IsSubseq(x, y)
    ensures IsSubseq(x, a + y)
  {
    SubseqConcat([], a, x, y);
    assert [] + x == x;
  }

  /** A kept first element in front of a subsequence. */
  lemma {:induction false} SubseqCons<T>(x: T, r: seq<T>, t: seq<T>)
    requires IsSubseq(r, t)
    ensures IsSubseq([x] + r, [x] + t)
  {
    assert ([x] + r)[1..] == r && ([x] + t)[1..] == t;
  }

  /** Deleting `s[p..p + m]` in front of a subsequence of `s[p + m..]`. */
  lemma {:induction false} SubseqSkip<T>(s: seq<T>, p: nat, m: nat, r: seq<T>)
    requires p + m <= |s| && IsSubseq(r, s[p + m..])
    ensures IsSubseq(r, s[p..])
  {
    SubseqPrepend(s[p..p + m], r, s[p + m..]);
    assert s[p..p + m] + s[p + m..] == s[p..];
  }

  /** Keeping `s[p]` in front of a subsequence of `s[p + 1..]`. */
  lemma {:induction false} SubseqKeep<T>(s: seq<T>, p: nat, r: seq<T>)
    requires p < |s| && IsSubseq(r, s[p + 1..])
    ensures IsSubseq([s[p]] + r, s[p..])
  {
    SubseqCons(s[p], r, s[p + 1..]);
    assert s[p..] == [s[p]] + s[p + 1..];
  }

  /** Keeping `x`, deleting all of `y` and deleting from `t` deletes from `x + y + t`. */
  lemma {:induction false} SubseqKeepSkip<T>(x: seq<T>, y: seq<T>, t: seq<T>, r: seq<T>)
    requires IsSubseq(r, t)
    ensures IsSubseq(x + r, x + y + t)
  {
    SubseqPrepend(y, r, t);
    SubseqRefl(x);
    SubseqConcat(x, x, r, y + t);
    assert x + (y + t) == x + y + t;
  }

  /** Keeping `s[i..j]`, deleting `s[j..k]` and deleting from `s[k..]` deletes from `s`. */
  lemma {:induction false} SubseqSliceThen<T>(s: seq<T>, i: nat, j: nat, k: nat, r: seq<T>)
    requires i <= j <= k <= |s| && IsSubseq(r, s[k..])
    ensures IsSubseq(s[i..j] + r, s)
  {
    SubseqKeepSkip(s[i..j], s[j..k], s[k..], r);
    assert s[i..j] + s[j..k] + s[k..] == s[i..];
    SubseqPrepend(s[..i], s[i..j] + r, s[i..]);
    assert s[..i] + s[i..] == s;
  }

  /** Two rounds of deletion are one round of deletion. */
  lemma {:induction false} SubseqTrans<T>(a: seq<T>, b: seq<T>, c: seq<T>)
    requires IsSubseq(a, b) && IsSubseq(b, c)
    ensures IsSubseq(a, c)
    decreases |c|
  {
    if a != [] {
      if b[0] == c[0] && IsSubseq(b[1..], c[1..]) {
        if a[0] == b[0] && IsSubseq(a[1..], b[1..]) {
          SubseqTrans(a[1..], b[1..], c[1..]);
        } else {
          SubseqTrans(a, b[1..], c[1..]);
        }
      } else {
        SubseqTrans(a, b, c[1..]);
      }
    }
  }

  /** JavaScript's `s.filter(keep)`: the elements that pass, in their original order. */
  function Filter<T(==)>(s: seq<T>, keep: T -> bool): (r: seq<T>)
    ensures forall i :: 0 <= i < |r| ==> r[i] in s && keep(r[i])
    ensures forall i :: 0 <= i < |s| && keep(s[i]) ==> s[i] in r
    ensures IsSubseq(r, s)
    ensures |r| <= |s|
    ensures (forall i :: 0 <= i < |s| ==> keep(s[i])) ==> r == s
    decreases |s|
  {
    if s == [] then []
    else
      var rest := Filter(s[1..], keep);
      assert s == [s[0]] + s[1..];
      if keep(s[0]) then [s[0]] + rest else rest
  }

  /** Filtering a list with a known head. */
  lemma FilterCons<T>(x: T, s: seq<T>, keep: T -> bool)
    ensures Filter([x] + s, keep) == if keep(x) then [x] + Filter(s, keep) else Filter(s, keep)
  {
    assert ([x] + s)[1..] == s;
  }

  /** Two tests that agree everywhere filter alike. */
  lemma {:induction false} FilterExt<T>(s: seq<T>, p: T -> bool, q: T -> bool)
    requires forall x :: p(x) == q(x)
    ensures Filter(s, p) == Filter(s, q)
    decreases |s|
  {
    if s != [] {
      FilterExt(s[1..], p, q);
    }
  }

  /** Two filters applied one after the other commute. */
  lemma {:induction false} FilterCommute<T>(s: seq<T>, p: T -> bool, q: T -> bool)
    ensures Filter(Filter(s, p), q) == Filter(Filter(s, q), p)
    decreases |s|
  {
    if s != [] {
      var x, t := s[0], s[1..];
      assert s == [x] + t;
      FilterCommute(t, p, q);
      FilterCons(x, t, p);
      FilterCons(x, t, q);
      if p(x) {
        FilterCons(x, Filter(t, p), q);
      }
      if q(x) {
        FilterCons(x, Filter(t, q), p);
      }
    }
  }

  /** The elements of a sequence. */
  function Elements<T>(s: seq<T>): set<T> {
    set x | x in s
  }

  /** A sequence without repeated elements has as many distinct elements as entries. */
  lemma {:induction false} DistinctCard<T>(s: seq<T>)
    requires forall i, j :: 0 <= i < j < |s| ==> s[i] != s[j]
    ensures |Elements(s)| == |s|
    decreases |s|
  {
    if s != [] {
      var rest := s[1..];
      DistinctCard(rest);
      assert Elements(s) == Elements(rest) + {s[0]};
      assert s[0] !in rest by {
        forall j | 0 <= j < |rest|
          ensures rest[j] != s[0]
        {
          assert rest[j] == s[j + 1];
        }
      }
    }
  }
}

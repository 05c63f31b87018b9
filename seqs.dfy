/** Sequence combinators standing in for the iterator adaptors the parser chains together
    (`filter`, `filter_map`, `map`, `collect_tuple`) and for string concatenation. */
module Seqs {
  import opened Wrappers

  /** `r` is `s` with some elements left out, the rest in their original order. */
  ghost predicate IsSubsequence<T>(r: seq<T>, s: seq<T>)
    decreases |s|
  {
    r == [] || (s != [] && ((r[0] == s[0] && IsSubsequence(r[1..], s[1..])) || IsSubsequence(r, s[1..])))
  }

  /** `iter.filter(p)`: exactly the elements satisfying `p`, in their original order. */
  function Filter<T>(s: seq<T>, p: T -> bool): (r: seq<T>)
    ensures |r| <= |s|
    ensures forall k :: 0 <= k < |r| ==> p(r[k]) && r[k] in s
    ensures forall x :: x in s && p(x) ==> x in r
    ensures IsSubsequence(r, s)
  {
    if s == [] then []
    else
      var rest := Filter(s[1..], p);
      if p(s[0]) then
        assert ([s[0]] + rest)[1..] == rest;
        [s[0]] + rest
      else
        rest
  }

  /** Filtering distributes over concatenation: everything kept from `a` comes before
      everything kept from `b`, so the relative order of the kept elements never changes.
      This is the order `filter` keeps for the match listings and the statistics blocks. */
  lemma {:induction false} FilterAppend<T>(a: seq<T>, b: seq<T>, p: T -> bool)
    ensures Filter(a + b, p) == Filter(a, p) + Filter(b, p)
  {
    if a == [] {
      assert a + b == b;
    } else {
      assert (a + b)[1..] == a[1..] + b;
      FilterAppend(a[1..], b, p);
    }
  }

  /** The head of a filter is the first element that satisfies the predicate, and the
      filter is empty exactly when no element does. */
  lemma {:induction false} FilterHead<T>(s: seq<T>, p: T -> bool)
    ensures Filter(s, p) == [] <==> forall j :: 0 <= j < |s| ==> !p(s[j])
    ensures Filter(s, p) != [] ==>
      exists i :: 0 <= i < |s| && s[i] == Filter(s, p)[0] && p(s[i]) &&
        forall j :: 0 <= j < i ==> !p(s[j])
  {
    if s != [] {
      FilterHead(s[1..], p);
      if !p(s[0]) && Filter(s, p) != [] {
        var i :| 0 <= i < |s[1..]| && s[1..][i] == Filter(s[1..], p)[0] && p(s[1..][i]) &&
          forall j :: 0 <= j < i ==> !p(s[1..][j]);
        assert s[i + 1] == Filter(s, p)[0];
        assert forall j :: 0 <= j < i + 1 ==> !p(s[j]) by {
          forall j | 0 <= j < i + 1 ensures !p(s[j]) {
            if j > 0 { assert s[j] == s[1..][j - 1]; }
          }
        }
      }
      if Filter(s, p) == [] {
        forall j | 0 <= j < |s| ensures !p(s[j]) {
          if j > 0 { assert s[j] == s[1..][j - 1]; }
        }
      }
    }
  }

  /** `iter.filter_map(f)`: the values `f` yields, in order, skipping `None`. */
  function FilterMap<T, U>(s: seq<T>, f: T -> Option<U>): (r: seq<U>)
    ensures |r| <= |s|
    ensures (forall j :: 0 <= j < |s| ==> f(s[j]).None?) <==> r == []
  {
    if s == [] then []
    else
      var rest := FilterMap(s[1..], f);
      assert forall j :: 1 <= j < |s| ==> s[j] == s[1..][j - 1];
      match f(s[0])
      case Some(v) => [v] + rest
      case None => rest
  }

  /** `filter_map` distributes over concatenation: the values yielded for `a` come before
      those yielded for `b`, each kept in its own order, so the i-th item is the value of
      the i-th element that `f` maps to `Some`. */
  lemma {:induction false} FilterMapAppend<T, U>(a: seq<T>, b: seq<T>, f: T -> Option<U>)
    ensures FilterMap(a + b, f) == FilterMap(a, f) + FilterMap(b, f)
  {
    if a == [] {
      assert a + b == b;
    } else {
      assert (a + b)[0] == a[0] && (a + b)[1..] == a[1..] + b;
      FilterMapAppend(a[1..], b, f);
    }
  }

  /** The head of a `filter_map` is the value of the first element `f` maps to `Some`,
      which is what `find_map` returns. */
  lemma {:induction false} FilterMapHead<T, U>(s: seq<T>, f: T -> Option<U>)
    ensures FilterMap(s, f) != [] ==>
      exists i :: 0 <= i < |s| && f(s[i]) == Some(FilterMap(s, f)[0]) &&
        forall j :: 0 <= j < i ==> f(s[j]).None?
  {
    if s != [] {
      FilterMapHead(s[1..], f);
      if f(s[0]).None? && FilterMap(s, f) != [] {
        var i :| 0 <= i < |s[1..]| && f(s[1..][i]) == Some(FilterMap(s[1..], f)[0]) &&
          forall j :: 0 <= j < i ==> f(s[1..][j]).None?;
        assert s[i + 1] == s[1..][i];
        forall j | 0 <= j < i + 1 ensures f(s[j]).None? {
          if j > 0 { assert s[j] == s[1..][j - 1]; }
        }
      }
    }
  }

  /** `iter.map(f)`. */
  function Map<T, U>(s: seq<T>, f: T -> U): (r: seq<U>)
    ensures |r| == |s|
    ensures forall k :: 0 <= k < |s| ==> r[k] == f(s[k])
  {
    seq(|s|, k requires 0 <= k < |s| => f(s[k]))
  }

  /** Itertools' `collect_tuple` into a pair: `Some` exactly when there are two items. */
  function CollectPair<T>(s: seq<T>): (r: Option<(T, T)>)
    ensures r.Some? <==> |s| == 2
    ensures r.Some? ==> r.value.0 == s[0] && r.value.1 == s[1]
  {
    if |s| == 2 then Some((s[0], s[1])) else None
  }

  /** Concatenation of a sequence of sequences, in order. */
  function Concat<T>(ss: seq<seq<T>>): seq<T>
  {
    if ss == [] then [] else ss[0] + Concat(ss[1..])
  }

  lemma {:induction false} ConcatAppend<T>(a: seq<seq<T>>, b: seq<seq<T>>)
    ensures Concat(a + b) == Concat(a) + Concat(b)
  {
    if a == [] {
      assert a + b == b;
    } else {
      assert (a + b)[1..] == a[1..] + b;
      ConcatAppend(a[1..], b);
    }
  }
  /** The concatenation of the first j pieces is a prefix of the whole concatenation. */
  lemma ConcatPrefix<T>(ss: seq<seq<T>>, j: nat)
    requires j <= |ss|
    ensures |Concat(ss[..j])| <= |Concat(ss)| && Concat(ss)[..|Concat(ss[..j])|] == Concat(ss[..j])
  {
    assert ss == ss[..j] + ss[j..];
    ConcatAppend(ss[..j], ss[j..]);
  }

}

/** `Array.prototype.filter` and the facts about it that the stores and exports rely on. */
module Seqs {

  /** The elements of `s` that satisfy `p`, in their original order. */
  function Filter<T>(s: seq<T>, p: T -> bool): (r: seq<T>)
    ensures |r| <= |s|
    ensures forall k :: 0 <= k < |r| ==> p(r[k])
    decreases |s|
  {
    if |s| == 0 then []
    else (if p(s[0]) then [s[0]] else []) + Filter(s[1..], p)
  }

  /** Filtering distributes over concatenation: the relative order of survivors is kept. */
  lemma {:induction false} FilterConcat<T>(a: seq<T>, b: seq<T>, p: T -> bool)
    ensures Filter(a + b, p) == Filter(a, p) + Filter(b, p)
    decreases |a|
  {
    if |a| == 0 {
      assert a + b == b;
    } else {
      assert (a + b)[0] == a[0];
      assert (a + b)[1..] == a[1..] + b;
      FilterConcat(a[1..], b, p);
    }
  }

  /** Filtering a sequence whose elements all pass changes nothing. */
  lemma {:induction false} FilterKeepsAll<T>(s: seq<T>, p: T -> bool)
    requires forall k :: 0 <= k < |s| ==> p(s[k])
    ensures Filter(s, p) == s
    decreases |s|
  {
    if |s| > 0 {
      FilterKeepsAll(s[1..], p);
    }
  }

  /** Filtering a sequence whose elements all fail gives nothing. */
  lemma {:induction false} FilterDropsAll<T>(s: seq<T>, p: T -> bool)
    requires forall k :: 0 <= k < |s| ==> !p(s[k])
    ensures Filter(s, p) == []
    decreases |s|
  {
    if |s| > 0 {
      FilterDropsAll(s[1..], p);
    }
  }

  /** Position in `Filter(s, p)` of the element at index `j` of `s`: the survivors before it. */
  function Rank<T>(s: seq<T>, p: T -> bool, j: nat): (r: nat)
    requires j < |s|
    ensures p(s[j]) ==> r < |Filter(s, p)| && Filter(s, p)[r] == s[j]
  {
    if p(s[j]) then FilterAt(s, p, j); |Filter(s[..j], p)|
    else |Filter(s[..j], p)|
  }

  /** The filter keeps exactly the elements of `s` that satisfy `p`. */
  lemma {:induction false} FilterMembers<T>(s: seq<T>, p: T -> bool)
    ensures forall x :: x in Filter(s, p) <==> x in s && p(x)
    decreases |s|
  {
    if |s| > 0 {
      FilterMembers(s[1..], p);
      assert s == [s[0]] + s[1..];
    }
  }

  lemma FilterAt<T>(s: seq<T>, p: T -> bool, j: nat)
    requires j < |s| && p(s[j])
    ensures |Filter(s[..j], p)| < |Filter(s, p)|
    ensures Filter(s, p)[|Filter(s[..j], p)|] == s[j]
  {
    assert s == s[..j] + s[j..];
    FilterConcat(s[..j], s[j..], p);
    assert s[j..][0] == s[j];
  }

  /** Every element of the filtered sequence comes from some index of `s` with that rank. */
  lemma {:induction false} FilterOrigin<T>(s: seq<T>, p: T -> bool, k: nat) returns (j: nat)
    requires k < |Filter(s, p)|
    ensures j < |s| && p(s[j]) && Rank(s, p, j) == k
    decreases |s|
  {
    if p(s[0]) && k == 0 {
      j := 0;
      assert s[..0] == [];
    } else {
      var k' := if p(s[0]) then k - 1 else k;
      var j' := FilterOrigin(s[1..], p, k');
      j := j' + 1;
      assert s[..j] == [s[0]] + s[1..][..j'];
      FilterConcat([s[0]], s[1..][..j'], p);
    }
  }

  /** Survivors keep their relative order: a kept element ranks below every later index. */
  lemma RankIncreases<T>(s: seq<T>, p: T -> bool, i: nat, j: nat)
    requires i < j < |s| && p(s[i])
    ensures Rank(s, p, i) < Rank(s, p, j)
  {
    assert s[..j] == s[..i] + s[i..j];
    FilterConcat(s[..i], s[i..j], p);
    assert s[i..j] == [s[i]] + s[i + 1..j];
    FilterConcat([s[i]], s[i + 1..j], p);
  }

  /** Filtering first by a weaker condition changes nothing about a stronger filter. */
  lemma {:induction false} FilterOfFilter<T>(s: seq<T>, weaker: T -> bool, stronger: T -> bool)
    requires forall k :: 0 <= k < |s| && stronger(s[k]) ==> weaker(s[k])
    ensures Filter(Filter(s, weaker), stronger) == Filter(s, stronger)
    decreases |s|
  {
    if |s| > 0 {
      FilterOfFilter(s[1..], weaker, stronger);
      var head := if weaker(s[0]) then [s[0]] else [];
      FilterConcat(head, Filter(s[1..], weaker), stronger);
      if !weaker(s[0]) {
        assert head == [];
      } else {
        assert Filter(head, stronger) == if stronger(s[0]) then [s[0]] else [];
      }
    }
  }

  /** `Array.prototype.map`: `f` applied to each element, in position. */
  function Map<T, U>(s: seq<T>, f: T -> U): (r: seq<U>)
    ensures |r| == |s| && forall k :: 0 <= k < |s| ==> r[k] == f(s[k])
  {
    seq(|s|, k requires 0 <= k < |s| => f(s[k]))
  }

  /** Mapping distributes over concatenation. */
  lemma MapConcat<T, U>(a: seq<T>, b: seq<T>, f: T -> U)
    ensures Map(a + b, f) == Map(a, f) + Map(b, f)
  {
    forall k | 0 <= k < |a + b| ensures Map(a + b, f)[k] == (Map(a, f) + Map(b, f))[k] {
      if k < |a| {
        assert (a + b)[k] == a[k];
      } else {
        assert (a + b)[k] == b[k - |a|];
      }
    }
  }
}

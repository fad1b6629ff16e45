/** Sequence helpers shared by the in-memory registry (`Array.prototype.find`)
    and the SQL table model (`WHERE`, `ORDER BY ... DESC`, `DELETE ... WHERE`). */
module Collections {
  import opened Wrappers

  /** Index of the first element satisfying `p`, as `find`/`getFirstAsync` scan. */
  function FindFirst<T>(s: seq<T>, p: T -> bool): (r: Option<nat>)
    ensures r.Some? ==> r.value < |s| && p(s[r.value])
    ensures r.Some? ==> forall j :: 0 <= j < r.value ==> !p(s[j])
    ensures r.None? <==> forall j :: 0 <= j < |s| ==> !p(s[j])
  {
    if |s| == 0 then None
    else if p(s[0]) then Some(0)
    else match FindFirst(s[1..], p)
      case None => None
      case Some(k) => Some(k + 1)
  }

  /** `FindFirst` returns the first index satisfying `p`, whichever it is. */
  lemma FindFirstAt<T>(s: seq<T>, p: T -> bool, i: nat)
    requires i < |s| && p(s[i])
    requires forall j :: 0 <= j < i ==> !p(s[j])
    ensures FindFirst(s, p) == Some(i)
  {
    var r := FindFirst(s, p);
    assert r.Some?;
    assert r.value >= i;
  }

  /** The elements satisfying `p`, in their original order. */
  function Filter<T>(s: seq<T>, p: T -> bool): (r: seq<T>)
    ensures |r| <= |s|
    ensures forall i :: 0 <= i < |r| ==> r[i] in s && p(r[i])
    ensures forall i :: 0 <= i < |s| && p(s[i]) ==> s[i] in r
  {
    if |s| == 0 then []
    else if p(s[0]) then [s[0]] + Filter(s[1..], p)
    else Filter(s[1..], p)
  }

  function Reverse<T>(s: seq<T>): (r: seq<T>)
    ensures |r| == |s|
    ensures forall i :: 0 <= i < |s| ==> r[i] == s[|s| - 1 - i]
    ensures forall i :: 0 <= i < |s| ==> s[i] in r
    ensures forall i :: 0 <= i < |r| ==> r[i] in s
  {
    if |s| == 0 then [] else Reverse(s[1..]) + [s[0]]
  }

  /** `key` strictly increases along `s`. */
  ghost predicate StrictlyIncreasing<T>(s: seq<T>, key: T -> int)
  {
    forall i, j :: 0 <= i < j < |s| ==> key(s[i]) < key(s[j])
  }

  /** `key` strictly decreases along `s`. */
  ghost predicate StrictlyDecreasing<T>(s: seq<T>, key: T -> int)
  {
    forall i, j :: 0 <= i < j < |s| ==> key(s[i]) > key(s[j])
  }

  /** Filtering keeps a subsequence, so an increasing key stays increasing. */
  lemma {:induction false} FilterKeepsIncreasing<T>(s: seq<T>, p: T -> bool, key: T -> int)
    requires StrictlyIncreasing(s, key)
    ensures StrictlyIncreasing(Filter(s, p), key)
  {
    if |s| > 0 {
      var tail := s[1..];
      FilterKeepsIncreasing(tail, p, key);
      if p(s[0]) {
        assert forall i :: 0 <= i < |tail| ==> key(s[0]) < key(tail[i]) by {
          forall i | 0 <= i < |tail| ensures key(s[0]) < key(tail[i]) {
            assert tail[i] == s[i + 1];
          }
        }
        FilterKeepsLowerBound(tail, p, key, key(s[0]));
        ConsKeepsIncreasing(s[0], Filter(tail, p), key);
        assert Filter(s, p) == [s[0]] + Filter(tail, p);
      }
    }
  }

  /** A lower bound on every key survives filtering. */
  lemma FilterKeepsLowerBound<T>(s: seq<T>, p: T -> bool, key: T -> int, bound: int)
    requires forall i :: 0 <= i < |s| ==> bound < key(s[i])
    ensures forall i :: 0 <= i < |Filter(s, p)| ==> bound < key(Filter(s, p)[i])
  {
    var r := Filter(s, p);
    forall i | 0 <= i < |r| ensures bound < key(r[i]) {
      assert r[i] in s;
    }
  }

  lemma ConsKeepsIncreasing<T>(x: T, s: seq<T>, key: T -> int)
    requires StrictlyIncreasing(s, key)
    requires forall i :: 0 <= i < |s| ==> key(x) < key(s[i])
    ensures StrictlyIncreasing([x] + s, key)
  {
    var t := [x] + s;
    forall i, j | 0 <= i < j < |t| ensures key(t[i]) < key(t[j]) {
      assert t[j] == s[j - 1];
      if i > 0 {
        assert t[i] == s[i - 1];
      }
    }
  }

  lemma AppendKeepsIncreasing<T>(s: seq<T>, x: T, key: T -> int)
    requires StrictlyIncreasing(s, key)
    requires forall i :: 0 <= i < |s| ==> key(s[i]) < key(x)
    ensures StrictlyIncreasing(s + [x], key)
  {
    var t := s + [x];
    forall i, j | 0 <= i < j < |t| ensures key(t[i]) < key(t[j]) {
      assert t[i] == s[i];
      if j < |s| {
        assert t[j] == s[j];
      }
    }
  }

  lemma ReverseOfIncreasingDecreases<T>(s: seq<T>, key: T -> int)
    requires StrictlyIncreasing(s, key)
    ensures StrictlyDecreasing(Reverse(s), key)
  {
  }

  /** Filtering with a predicate every element meets changes nothing. */
  lemma {:induction false} FilterKeepsAll<T>(s: seq<T>, p: T -> bool)
    requires forall j :: 0 <= j < |s| ==> p(s[j])
    ensures Filter(s, p) == s
  {
    if |s| > 0 {
      FilterKeepsAll(s[1..], p);
    }
  }

  /** Filtering distributes over concatenation. */
  lemma {:induction false} FilterConcat<T>(a: seq<T>, b: seq<T>, p: T -> bool)
    ensures Filter(a + b, p) == Filter(a, p) + Filter(b, p)
  {
    if |a| == 0 {
      assert a + b == b;
    } else {
      assert (a + b)[1..] == a[1..] + b;
      FilterConcat(a[1..], b, p);
    }
  }

  /** Filtering drops exactly the one element that fails `p`. */
  lemma FilterDropsOne<T>(s: seq<T>, p: T -> bool, k: nat)
    requires k < |s| && !p(s[k])
    requires forall j :: 0 <= j < |s| && j != k ==> p(s[j])
    ensures Filter(s, p) == s[..k] + s[k + 1..]
    ensures |Filter(s, p)| == |s| - 1
  {
    var before, after := s[..k], s[k + 1..];
    assert s == before + ([s[k]] + after);
    FilterConcat(before, [s[k]] + after, p);
    FilterConcat([s[k]], after, p);
    assert Filter([s[k]], p) == Filter([s[k]][1..], p);
    assert [s[k]][1..] == [];
    forall j | 0 <= j < |before| ensures p(before[j]) {
      assert before[j] == s[j];
    }
    forall j | 0 <= j < |after| ensures p(after[j]) {
      assert after[j] == s[k + 1 + j];
    }
    FilterKeepsAll(before, p);
    FilterKeepsAll(after, p);
  }

  /** Appending an element that passes `p` appends it to the filtered sequence. */
  lemma {:induction false} FilterAppend<T>(s: seq<T>, x: T, p: T -> bool)
    ensures Filter(s + [x], p) == Filter(s, p) + (if p(x) then [x] else [])
  {
    if |s| == 0 {
      assert s + [x] == [x];
      assert [x][1..] == [];
    } else {
      assert (s + [x])[1..] == s[1..] + [x];
      FilterAppend(s[1..], x, p);
    }
  }
}

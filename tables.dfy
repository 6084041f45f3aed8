/** The array methods the stores and the importer are written with
    (`findIndex`, `find`, `filter`, `some`) and a JavaScript `Set` of strings,
    which keeps its elements in insertion order. */
module Tables {
  import opened Wrappers

  /** `s.findIndex(p)`: the first index whose element satisfies p, or -1. */
  function FindIndex<T>(s: seq<T>, p: T -> bool): (r: int)
    ensures -1 <= r < |s|
    ensures r == -1 <==> forall i :: 0 <= i < |s| ==> !p(s[i])
    ensures r >= 0 ==> p(s[r]) && forall i :: 0 <= i < r ==> !p(s[i])
  {
    if s == [] then -1
    else if p(s[0]) then 0
    else
      var k := FindIndex(s[1..], p);
      if k == -1 then -1 else k + 1
  }

  /** `s.find(p)`: the first element that satisfies p, if any. */
  function Find<T>(s: seq<T>, p: T -> bool): (r: Option<T>)
    ensures r.None? <==> forall i :: 0 <= i < |s| ==> !p(s[i])
    ensures r.Some? ==> exists i :: 0 <= i < |s| && s[i] == r.value && p(s[i]) && forall j :: 0 <= j < i ==> !p(s[j])
  {
    var k := FindIndex(s, p);
    if k == -1 then None else Some(s[k])
  }

  /** `s.some(p)`. */
  predicate Any<T>(s: seq<T>, p: T -> bool) {
    exists i :: 0 <= i < |s| && p(s[i])
  }

  /** `s.filter(p)`: the elements that satisfy p, in their order in s. */
  function Filter<T>(s: seq<T>, p: T -> bool): (r: seq<T>)
    ensures |r| <= |s|
  {
    if s == [] then []
    else if p(s[0]) then [s[0]] + Filter(s[1..], p)
    else Filter(s[1..], p)
  }

  /** The filter keeps exactly the elements that satisfy p. */
  lemma {:induction false} FilterMembers<T>(s: seq<T>, p: T -> bool)
    ensures forall i :: 0 <= i < |Filter(s, p)| ==> Filter(s, p)[i] in s && p(Filter(s, p)[i])
    ensures forall i :: 0 <= i < |s| && p(s[i]) ==> s[i] in Filter(s, p)
  {
    if s != [] {
      FilterMembers(s[1..], p);
      var rest := Filter(s[1..], p);
      forall i | 0 <= i < |Filter(s, p)| ensures Filter(s, p)[i] in s && p(Filter(s, p)[i]) {
        if p(s[0]) && i > 0 {
          assert Filter(s, p)[i] == rest[i - 1];
        }
      }
      forall i | 0 < i < |s| && p(s[i]) ensures s[i] in Filter(s, p) {
        assert s[i] == s[1..][i - 1];
      }
    }
  }

  /** Filtering distributes over concatenation, so it keeps stored order. */
  lemma {:induction false} FilterAppend<T>(a: seq<T>, b: seq<T>, p: T -> bool)
    ensures Filter(a + b, p) == Filter(a, p) + Filter(b, p)
  {
    if a == [] {
      assert a + b == b;
    } else {
      assert (a + b)[1..] == a[1..] + b;
      FilterAppend(a[1..], b, p);
    }
  }

  /** A filter that no element fails leaves the sequence unchanged. */
  lemma {:induction false} FilterKeepsAll<T>(s: seq<T>, p: T -> bool)
    requires forall i :: 0 <= i < |s| ==> p(s[i])
    ensures Filter(s, p) == s
  {
    if s != [] {
      FilterKeepsAll(s[1..], p);
    }
  }

  /** A filter that every element fails gives the empty sequence. */
  lemma {:induction false} FilterNone<T>(s: seq<T>, p: T -> bool)
    requires forall i :: 0 <= i < |s| ==> !p(s[i])
    ensures Filter(s, p) == []
  {
    if s != [] {
      FilterNone(s[1..], p);
    }
  }

  /** Filtering twice by the same test is filtering once. */
  lemma FilterIdempotent<T>(s: seq<T>, p: T -> bool)
    ensures Filter(Filter(s, p), p) == Filter(s, p)
  {
    FilterMembers(s, p);
    FilterKeepsAll(Filter(s, p), p);
  }

  /** Filtering one sequence by a predicate and by its negation splits it:
      the two parts have no element in common and their lengths add up. */
  lemma {:induction false} FilterPartition<T>(s: seq<T>, p: T -> bool)
    ensures |Filter(s, p)| + |Filter(s, Not(p))| == |s|
    ensures forall i :: 0 <= i < |Filter(s, p)| ==> Filter(s, p)[i] !in Filter(s, Not(p))
  {
    if s != [] {
      FilterPartition(s[1..], p);
    }
    FilterMembers(s, p);
    FilterMembers(s, Not(p));
  }

  /** The negation of a test. */
  function Not<T>(p: T -> bool): T -> bool {
    x => !p(x)
  }

  /** a's elements occur in b in the same order, possibly with others
      between them. */
  predicate Subsequence<T(==)>(a: seq<T>, b: seq<T>)
    decreases |b|
  {
    if a == [] then true
    else if b == [] then false
    else (a[0] == b[0] && Subsequence(a[1..], b[1..])) || Subsequence(a, b[1..])
  }

  /** A filter keeps the order of the elements it keeps. */
  lemma {:induction false} FilterSubsequence<T>(s: seq<T>, p: T -> bool)
    ensures Subsequence(Filter(s, p), s)
  {
    if s != [] {
      FilterSubsequence(s[1..], p);
      if !p(s[0]) && Filter(s[1..], p) != [] {
        SubsequenceSkip(Filter(s[1..], p), s[1..], s[0]);
      }
    }
  }

  lemma {:induction false} SubsequenceSkip<T>(a: seq<T>, b: seq<T>, x: T)
    requires Subsequence(a, b)
    ensures Subsequence(a, [x] + b)
  {
    assert ([x] + b)[1..] == b;
  }

  /** Number of elements that satisfy p. */
  function CountWhere<T>(s: seq<T>, p: T -> bool): (n: nat)
    ensures n <= |s|
  {
    if s == [] then 0 else (if p(s[0]) then 1 else 0) + CountWhere(s[1..], p)
  }

  lemma {:induction false} FilterLength<T>(s: seq<T>, p: T -> bool)
    ensures |Filter(s, p)| == CountWhere(s, p)
  {
    if s != [] {
      FilterLength(s[1..], p);
    }
  }

  lemma {:induction false} CountWhereAppend<T>(a: seq<T>, b: seq<T>, p: T -> bool)
    ensures CountWhere(a + b, p) == CountWhere(a, p) + CountWhere(b, p)
  {
    if a == [] {
      assert a + b == b;
    } else {
      assert (a + b)[1..] == a[1..] + b;
      CountWhereAppend(a[1..], b, p);
    }
  }

  /** `s.splice(i, 1)` on a sequence value. */
  function RemoveAt<T>(s: seq<T>, i: nat): (r: seq<T>)
    requires i < |s|
    ensures |r| == |s| - 1
    ensures forall j :: 0 <= j < i ==> r[j] == s[j]
    ensures forall j :: i <= j < |r| ==> r[j] == s[j + 1]
  {
    s[..i] + s[i + 1..]
  }

  /** The elements of a sequence are pairwise distinct. */
  predicate Distinct<T(==)>(s: seq<T>) {
    forall i, j :: 0 <= i < j < |s| ==> s[i] != s[j]
  }

  /** `set.add(x)` on a JavaScript Set held as the sequence of its elements
      in insertion order. */
  function SetAdd<T(==)>(u: seq<T>, x: T): seq<T> {
    if x in u then u else u + [x]
  }

  /** Adding keeps the elements distinct and in place, and adds exactly x. */
  lemma SetAddShape<T>(u: seq<T>, x: T)
    requires Distinct(u)
    ensures Distinct(SetAdd(u, x))
    ensures |u| <= |SetAdd(u, x)| && SetAdd(u, x)[..|u|] == u
    ensures x in SetAdd(u, x)
    ensures forall i :: 0 <= i < |SetAdd(u, x)| ==> SetAdd(u, x)[i] in u || SetAdd(u, x)[i] == x
    ensures |SetAdd(u, x)| == if x in u then |u| else |u| + 1
  {
  }

  /** Adding each element of xs in turn to a Set that starts as u. */
  function AddAll<T(==)>(u: seq<T>, xs: seq<T>): seq<T>
    decreases |xs|
  {
    if xs == [] then u else AddAll(SetAdd(u, xs[0]), xs[1..])
  }

  /** The result keeps u as a prefix, holds every element of xs, and holds
      nothing else. */
  lemma {:induction false} AddAllMembers<T>(u: seq<T>, xs: seq<T>)
    ensures |u| <= |AddAll(u, xs)| && AddAll(u, xs)[..|u|] == u
    ensures forall i :: 0 <= i < |xs| ==> xs[i] in AddAll(u, xs)
    ensures forall i :: 0 <= i < |AddAll(u, xs)| ==> AddAll(u, xs)[i] in u || AddAll(u, xs)[i] in xs
    decreases |xs|
  {
    if xs != [] {
      var v := SetAdd(u, xs[0]);
      AddAllMembers(v, xs[1..]);
      var r := AddAll(v, xs[1..]);
      assert r[..|u|] == u by {
        assert r[..|v|] == v;
        assert v[..|u|] == u;
      }
      assert xs[0] in r by {
        var k :| 0 <= k < |v| && v[k] == xs[0];
        assert r[..|v|][k] == xs[0];
      }
      forall i | 1 <= i < |xs| ensures xs[i] in r {
        assert xs[i] == xs[1..][i - 1];
      }
      forall i | 0 <= i < |r| ensures r[i] in u || r[i] in xs {
        if r[i] in v && r[i] !in u {
          assert r[i] == xs[0];
        } else if r[i] in xs[1..] {
          var k :| 0 <= k < |xs[1..]| && xs[1..][k] == r[i];
          assert xs[k + 1] == r[i];
        }
      }
    }
  }

  /** Starting from distinct elements, the result has no repeated element. */
  lemma {:induction false} AddAllDistinct<T>(u: seq<T>, xs: seq<T>)
    requires Distinct(u)
    ensures Distinct(AddAll(u, xs))
    decreases |xs|
  {
    if xs != [] {
      SetAddShape(u, xs[0]);
      AddAllDistinct(SetAdd(u, xs[0]), xs[1..]);
    }
  }

  /** Adding a concatenation is adding its two parts in turn. */
  lemma {:induction false} AddAllAppend<T>(u: seq<T>, a: seq<T>, b: seq<T>)
    ensures AddAll(u, a + b) == AddAll(AddAll(u, a), b)
    decreases |a|
  {
    if a == [] {
      assert a + b == b;
    } else {
      assert (a + b)[0] == a[0] && (a + b)[1..] == a[1..] + b;
      AddAllAppend(SetAdd(u, a[0]), a[1..], b);
    }
  }

  lemma AppendAssoc<T>(a: seq<T>, b: seq<T>, c: seq<T>)
    ensures a + (b + c) == (a + b) + c
  {
  }

  /** `xs.map(f)` where f throws on an element it cannot map: the mapped
      elements, or the first element f cannot map. */
  function MapAll<A, B>(xs: seq<A>, f: A -> Option<B>): Result<seq<B>, A>
    decreases |xs|
  {
    if xs == [] then Ok([])
    else
      match MapAll(xs[..|xs| - 1], f)
      case Err(e) => Err(e)
      case Ok(prefix) =>
        match f(xs[|xs| - 1])
        case None => Err(xs[|xs| - 1])
        case Some(y) => Ok(prefix + [y])
  }

  /** Element i is the first one f cannot map. */
  predicate FirstNone<A, B>(xs: seq<A>, f: A -> Option<B>, i: int) {
    && 0 <= i < |xs| && f(xs[i]).None?
    && forall j :: 0 <= j < i ==> f(xs[j]).Some?
  }

  /** The map succeeds exactly when f maps every element, and then holds
      their images in order; otherwise it fails with the first element f
      cannot map. */
  lemma {:induction false} MapAllExact<A, B>(xs: seq<A>, f: A -> Option<B>)
    ensures MapAll(xs, f).Ok? <==> forall i :: 0 <= i < |xs| ==> f(xs[i]).Some?
    ensures MapAll(xs, f).Ok? ==>
      && |MapAll(xs, f).value| == |xs|
      && forall i :: 0 <= i < |xs| ==> f(xs[i]) == Some(MapAll(xs, f).value[i])
    ensures MapAll(xs, f).Err? ==> exists i :: FirstNone(xs, f, i) && MapAll(xs, f).error == xs[i]
    decreases |xs|
  {
    if xs != [] {
      var n := |xs| - 1;
      var init := xs[..n];
      MapAllExact(init, f);
      assert forall i :: 0 <= i < n ==> init[i] == xs[i];
      match MapAll(init, f)
      case Err(e) =>
        var i :| FirstNone(init, f, i) && e == init[i];
        assert FirstNone(xs, f, i);
      case Ok(prefix) =>
        if f(xs[n]).None? {
          assert FirstNone(xs, f, n);
        } else {
          var all := prefix + [f(xs[n]).value];
          assert MapAll(xs, f) == Ok(all);
          forall i | 0 <= i < |xs| ensures f(xs[i]) == Some(all[i]) {
            if i < n {
              assert all[i] == prefix[i];
            }
          }
        }
    }
  }

  /** Once a prefix fails, the whole map fails the same way. */
  lemma {:induction false} MapAllErrSticky<A, B>(xs: seq<A>, f: A -> Option<B>, k: nat)
    requires k <= |xs|
    requires MapAll(xs[..k], f).Err?
    ensures MapAll(xs, f) == MapAll(xs[..k], f)
    decreases |xs| - k
  {
    if k < |xs| {
      assert xs[..k + 1][..k] == xs[..k];
      MapAllErrSticky(xs, f, k + 1);
    } else {
      assert xs[..k] == xs;
    }
  }
}

/** Python's stable `sorted(xs, key=...)` and how it commutes with selecting a group. */
module Sorting {

  ghost predicate TotalPreorder<T(!new)>(le: (T, T) -> bool) {
    && (forall x, y :: le(x, y) || le(y, x))
    && (forall x, y, z :: le(x, y) && le(y, z) ==> le(x, z))
  }

  ghost predicate SortedBy<T>(le: (T, T) -> bool, s: seq<T>) {
    forall i, j | 0 <= i < j < |s| :: le(s[i], s[j])
  }

  /** Puts `x` before the first element that does not sort strictly ahead of it. */
  function Insert<T>(le: (T, T) -> bool, x: T, s: seq<T>): (r: seq<T>) {
    if s == [] || le(x, s[0]) then [x] + s else [s[0]] + Insert(le, x, s[1..])
  }

  /** A stable sort: elements that tie keep their order. */
  function Sort<T>(le: (T, T) -> bool, s: seq<T>): (r: seq<T>) {
    if s == [] then [] else Insert(le, s[0], Sort(le, s[1..]))
  }

  lemma {:induction false} InsertKeepsElements<T>(le: (T, T) -> bool, x: T, s: seq<T>)
    ensures multiset(Insert(le, x, s)) == multiset{x} + multiset(s)
    ensures |Insert(le, x, s)| == |s| + 1
  {
    if s != [] && !le(x, s[0]) {
      InsertKeepsElements(le, x, s[1..]);
      assert s == [s[0]] + s[1..];
    }
  }

  lemma {:induction false} InsertKeepsSorted<T(!new)>(le: (T, T) -> bool, x: T, s: seq<T>)
    requires TotalPreorder(le) && SortedBy(le, s)
    ensures SortedBy(le, Insert(le, x, s))
  {
    if s != [] && !le(x, s[0]) {
      var rest := Insert(le, x, s[1..]);
      InsertKeepsSorted(le, x, s[1..]);
      InsertKeepsElements(le, x, s[1..]);
      forall j | 0 <= j < |rest| ensures le(s[0], rest[j]) {
        assert rest[j] in multiset(rest);
        assert rest[j] == x || rest[j] in s[1..];
      }
    } else if s != [] {
      assert le(s[0], s[0]);
    }
  }

  lemma {:induction false} SortIsSortedPermutation<T(!new)>(le: (T, T) -> bool, s: seq<T>)
    requires TotalPreorder(le)
    ensures SortedBy(le, Sort(le, s))
    ensures multiset(Sort(le, s)) == multiset(s)
    ensures |Sort(le, s)| == |s|
    ensures forall x :: x in Sort(le, s) <==> x in s
  {
    if s != [] {
      SortIsSortedPermutation(le, s[1..]);
      InsertKeepsSorted(le, s[0], Sort(le, s[1..]));
      InsertKeepsElements(le, s[0], Sort(le, s[1..]));
      assert s == [s[0]] + s[1..];
    }
    forall x ensures x in Sort(le, s) <==> x in s {
      assert x in Sort(le, s) <==> x in multiset(Sort(le, s));
      assert x in s <==> x in multiset(s);
    }
  }

  lemma {:induction false} InsertPosition<T>(le: (T, T) -> bool, x: T, s: seq<T>) returns (p: nat)
    ensures p <= |s| && Insert(le, x, s) == s[..p] + [x] + s[p..]
    ensures forall k | 0 <= k < p :: !le(x, s[k])
    ensures p < |s| ==> le(x, s[p])
  {
    if s == [] || le(x, s[0]) {
      p := 0;
    } else {
      var q := InsertPosition(le, x, s[1..]);
      p := q + 1;
      assert s[..p] == [s[0]] + s[1..][..q] && s[p..] == s[1..][q..];
    }
  }

  /** `r` lists all of `s`, each element once: place k holds the one from position `at[k]`. */
  ghost predicate Rearranges<T>(s: seq<T>, at: seq<nat>, r: seq<T>) {
    && |at| == |r| == |s|
    && (forall k | 0 <= k < |at| :: at[k] < |s| && r[k] == s[at[k]])
    && (forall k, l | 0 <= k < l < |at| :: at[k] != at[l])
  }

  /** In order, elements that tie by their positions. */
  ghost predicate StablyOrdered<T>(le: (T, T) -> bool, s: seq<T>, at: seq<nat>)
    requires forall k | 0 <= k < |at| :: at[k] < |s|
  {
    forall k, l | 0 <= k < l < |at| :: le(s[at[k]], s[at[l]]) && (le(s[at[l]], s[at[k]]) ==> at[k] < at[l])
  }

  /** Positions one further on, with position 0 put in at place `p`. */
  ghost function WithFirst(at: seq<nat>, p: nat): (r: seq<nat>)
    requires p <= |at|
    ensures |r| == |at| + 1
    ensures forall k | 0 <= k < |r| :: r[k] == if k < p then at[k] + 1 else if k == p then 0 else at[k - 1] + 1
  {
    seq(|at| + 1, k requires 0 <= k < |at| + 1 =>
      if k < p then at[k] + 1 else if k == p then 0 else at[k - 1] + 1)
  }

  lemma {:induction false} FirstPutIn<T>(s: seq<T>, at: seq<nat>, sorted: seq<T>, p: nat)
    requires s != [] && Rearranges(s[1..], at, sorted) && p <= |sorted|
    ensures Rearranges(s, WithFirst(at, p), sorted[..p] + [s[0]] + sorted[p..])
  {
    var now, r := WithFirst(at, p), sorted[..p] + [s[0]] + sorted[p..];
    forall k | 0 <= k < |now| ensures now[k] < |s| && r[k] == s[now[k]] {
      if k < p { assert s[1..][at[k]] == s[at[k] + 1]; }
      if p < k { assert s[1..][at[k - 1]] == s[at[k - 1] + 1]; }
    }
  }

  lemma {:induction false} FirstKeepsOrder<T>(le: (T, T) -> bool, s: seq<T>, at: seq<nat>, p: nat)
    requires s != [] && p <= |at| && forall k | 0 <= k < |at| :: at[k] < |s[1..]|
    requires StablyOrdered(le, s[1..], at)
    requires forall k | 0 <= k < p :: le(s[1..][at[k]], s[0]) && !le(s[0], s[1..][at[k]])
    requires forall k | p <= k < |at| :: le(s[0], s[1..][at[k]])
    ensures StablyOrdered(le, s, WithFirst(at, p))
  {
    var now := WithFirst(at, p);
    forall k, l | 0 <= k < l < |now|
      ensures le(s[now[k]], s[now[l]]) && (le(s[now[l]], s[now[k]]) ==> now[k] < now[l])
    {
      var i, j := if k < p then k else k - 1, if l < p then l else l - 1;
      assert k != p ==> s[now[k]] == s[1..][at[i]];
      assert l != p ==> s[now[l]] == s[1..][at[j]];
      if k != p && l != p {
        assert le(s[1..][at[i]], s[1..][at[j]]) && (le(s[1..][at[j]], s[1..][at[i]]) ==> at[i] < at[j]);
      }
    }
  }

  /** The sort is stable: a rearrangement in order, in which elements that tie keep their order. */
  lemma {:induction false} SortIsStable<T(!new)>(le: (T, T) -> bool, s: seq<T>) returns (at: seq<nat>)
    requires TotalPreorder(le)
    ensures Rearranges(s, at, Sort(le, s)) && StablyOrdered(le, s, at)
  {
    if s == [] {
      at := [];
    } else {
      var sorted := Sort(le, s[1..]);
      var before := SortIsStable(le, s[1..]);
      var p := InsertPosition(le, s[0], sorted);
      SortIsSortedPermutation(le, s[1..]);
      hide StablyOrdered;
      forall k | p <= k < |sorted| ensures le(s[0], sorted[k]) {
        assert k == p || le(sorted[p], sorted[k]);
      }
      FirstPutIn(s, before, sorted, p);
      FirstKeepsOrder(le, s, before, p);
      at := WithFirst(before, p);
    }
  }

  function Filter<T>(p: T -> bool, s: seq<T>): (r: seq<T>) {
    if s == [] then []
    else if p(s[0]) then [s[0]] + Filter(p, s[1..])
    else Filter(p, s[1..])
  }

  lemma {:induction false} FilterMember<T>(p: T -> bool, s: seq<T>, x: T)
    ensures x in Filter(p, s) <==> x in s && p(x)
  {
    if s != [] {
      FilterMember(p, s[1..], x);
      assert s == [s[0]] + s[1..];
    }
  }

  lemma {:induction false} FilterConcat<T>(p: T -> bool, a: seq<T>, b: seq<T>)
    ensures Filter(p, a + b) == Filter(p, a) + Filter(p, b)
  {
    if a == [] {
      assert a + b == b;
    } else {
      assert (a + b)[1..] == a[1..] + b;
      FilterConcat(p, a[1..], b);
    }
  }

  lemma {:induction false} FilterAppend<T>(p: T -> bool, s: seq<T>, x: T)
    ensures Filter(p, s + [x]) == Filter(p, s) + if p(x) then [x] else []
  {
    FilterConcat(p, s, [x]);
    assert Filter(p, [x]) == if p(x) then [x] else [];
  }

  /** Inserting commutes with filtering, so a stable sort of the whole table
      restricted to one group is the stable sort of that group. */
  lemma {:induction false} FilterInsert<T(!new)>(p: T -> bool, le: (T, T) -> bool, x: T, s: seq<T>)
    requires TotalPreorder(le) && SortedBy(le, s)
    ensures Filter(p, Insert(le, x, s)) == if p(x) then Insert(le, x, Filter(p, s)) else Filter(p, s)
  {
    var f := Filter(p, s);
    if s == [] || le(x, s[0]) {
      assert ([x] + s)[1..] == s;
      if f != [] {
        FilterMember(p, s, f[0]);
        assert le(x, f[0]);
      }
    } else {
      FilterInsert(p, le, x, s[1..]);
      var rest := Insert(le, x, s[1..]);
      assert ([s[0]] + rest)[1..] == rest;
      if p(s[0]) {
        assert f[1..] == Filter(p, s[1..]);
      }
    }
  }

  lemma {:induction false} FilterSort<T(!new)>(p: T -> bool, le: (T, T) -> bool, s: seq<T>)
    requires TotalPreorder(le)
    ensures Filter(p, Sort(le, s)) == Sort(le, Filter(p, s))
  {
    if s != [] {
      var tail := s[1..];
      FilterSort(p, le, tail);
      SortIsSortedPermutation(le, tail);
      FilterInsert(p, le, s[0], Sort(le, tail));
      if p(s[0]) {
        assert Filter(p, s)[1..] == Filter(p, tail);
      }
    }
  }

  /** `r` is what is left of `s` when only the elements at the positions `at` are kept. */
  ghost predicate Selects<T>(s: seq<T>, at: seq<nat>, r: seq<T>) {
    && |at| == |r|
    && (forall k | 0 <= k < |at| :: at[k] < |s| && r[k] == s[at[k]])
    && (forall k, l | 0 <= k < l < |at| :: at[k] < at[l])
  }

  lemma {:induction false} SelectsMore<T>(s: seq<T>, at: seq<nat>, r: seq<T>, last: T)
    requires Selects(s, at, r)
    ensures Selects(s + [last], at, r)
    ensures Selects(s + [last], at + [|s|], r + [last])
  {}

  /** A filter keeps the elements that pass, each where it stands among the others, and no other. */
  lemma {:induction false} FilterSelects<T>(p: T -> bool, s: seq<T>) returns (at: seq<nat>)
    ensures Selects(s, at, Filter(p, s))
    ensures forall i: nat | i < |s| :: i in at <==> p(s[i])
  {
    if s == [] {
      at := [];
    } else {
      hide Filter;
      var front, last := s[..|s| - 1], s[|s| - 1];
      assert s == front + [last];
      var before := FilterSelects(p, front);
      FilterAppend(p, front, last);
      SelectsMore(front, before, Filter(p, front), last);
      assert |front| !in before;
      hide Selects;
      at := if p(last) then before + [|front|] else before;
      assert Filter(p, front) + [] == Filter(p, front);
      forall i: nat | i < |s| ensures i in at <==> p(s[i]) {
        if i < |front| { assert s[i] == front[i]; }
      }
    }
  }
}

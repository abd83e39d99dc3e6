/**
 * Order-preserving filters: the shape shared by every "foreach, skip the
 * records that fail a test, append a projection of the others" loop in the
 * plugin. `FilterMap` is the specification those loops are proved against;
 * `Positions` is an independent description of which inputs survive.
 * `FirstWhere` is the first-match search the selection loops perform.
 */
module Filtering {
  import opened Wrappers

  /** The projections of the elements satisfying `keep`, in input order. */
  function FilterMap<T, U>(s: seq<T>, keep: T -> bool, f: T -> U): (r: seq<U>)
    ensures |r| <= |s|
  {
    if s == [] then []
    else FilterMap(s[..|s| - 1], keep, f) + (if keep(s[|s| - 1]) then [f(s[|s| - 1])] else [])
  }

  /** The indices of the elements satisfying `keep`, in increasing order. */
  function Positions<T>(s: seq<T>, keep: T -> bool): (r: seq<nat>)
    ensures forall k :: 0 <= k < |r| ==> r[k] < |s| && keep(s[r[k]])
    ensures forall k, l :: 0 <= k < l < |r| ==> r[k] < r[l]
    ensures forall i :: 0 <= i < |s| && keep(s[i]) ==> i in r
  {
    if s == [] then []
    else
      var front := Positions(s[..|s| - 1], keep);
      assert forall k :: 0 <= k < |front| ==> s[..|s| - 1][front[k]] == s[front[k]];
      front + (if keep(s[|s| - 1]) then [|s| - 1] else [])
  }

  /**
   * The filter keeps exactly the elements at `Positions`, each projected, and in
   * that order: the k-th output is the projection of the k-th surviving input.
   */
  lemma {:induction false} FilterMapAtPositions<T, U>(s: seq<T>, keep: T -> bool, f: T -> U)
    ensures |FilterMap(s, keep, f)| == |Positions(s, keep)|
    ensures forall k :: 0 <= k < |Positions(s, keep)| ==>
      FilterMap(s, keep, f)[k] == f(s[Positions(s, keep)[k]])
  {
    if s != [] {
      var init := s[..|s| - 1];
      FilterMapAtPositions(init, keep, f);
      var front := Positions(init, keep);
      assert forall k :: 0 <= k < |front| ==> init[front[k]] == s[front[k]];
    }
  }

  /** Every output is the projection of some input that passes the test, and every such input contributes. */
  lemma FilterMapMembers<T, U>(s: seq<T>, keep: T -> bool, f: T -> U)
    ensures forall u :: u in FilterMap(s, keep, f) <==> exists i :: 0 <= i < |s| && keep(s[i]) && u == f(s[i])
  {
    FilterMapAtPositions(s, keep, f);
    var r := FilterMap(s, keep, f);
    var p := Positions(s, keep);
    forall u | u in r
      ensures exists i :: 0 <= i < |s| && keep(s[i]) && u == f(s[i])
    {
      var k :| 0 <= k < |r| && r[k] == u;
      assert keep(s[p[k]]) && u == f(s[p[k]]);
    }
    forall i | 0 <= i < |s| && keep(s[i])
      ensures f(s[i]) in r
    {
      var k :| 0 <= k < |p| && p[k] == i;
      assert r[k] == f(s[i]);
    }
  }

  /** When nothing is dropped the filter is a plain map. */
  lemma {:induction false} FilterMapAllKept<T, U>(s: seq<T>, keep: T -> bool, f: T -> U)
    requires forall i :: 0 <= i < |s| ==> keep(s[i])
    ensures |FilterMap(s, keep, f)| == |s|
    ensures forall i :: 0 <= i < |s| ==> FilterMap(s, keep, f)[i] == f(s[i])
  {
    if s != [] {
      FilterMapAllKept(s[..|s| - 1], keep, f);
    }
  }

  /** The filter is empty exactly when no element passes the test. */
  lemma FilterMapEmptyIff<T, U>(s: seq<T>, keep: T -> bool, f: T -> U)
    ensures FilterMap(s, keep, f) == [] <==> forall i :: 0 <= i < |s| ==> !keep(s[i])
  {
    FilterMapAtPositions(s, keep, f);
  }

  /** The index of the first element, from `from` on, that passes `test`. */
  function FirstWhere<T>(s: seq<T>, from: nat, test: T -> bool): (r: Option<nat>)
    requires from <= |s|
    ensures r.Some? ==> from <= r.value < |s| && test(s[r.value])
    ensures r.Some? ==> forall j :: from <= j < r.value ==> !test(s[j])
    ensures r.None? ==> forall j :: from <= j < |s| ==> !test(s[j])
    decreases |s| - from
  {
    if from == |s| then None
    else if test(s[from]) then Some(from)
    else FirstWhere(s, from + 1, test)
  }

  /**
   * Searching the filtered list for the first projection passing `q` finds
   * the projection of the first input that is kept and whose projection
   * passes `q`: the filter drops nothing the search could have found first.
   */
  lemma {:induction false} FirstAfterFilter<T, U>(s: seq<T>, keep: T -> bool, f: T -> U, q: U -> bool, test: T -> bool)
    requires forall i :: 0 <= i < |s| ==> (test(s[i]) <==> keep(s[i]) && q(f(s[i])))
    ensures var a := FirstWhere(FilterMap(s, keep, f), 0, q);
      var b := FirstWhere(s, 0, test);
      && (a.None? <==> b.None?)
      && (a.Some? ==> FilterMap(s, keep, f)[a.value] == f(s[b.value]))
  {
    var r := FilterMap(s, keep, f);
    var pos := Positions(s, keep);
    FilterMapAtPositions(s, keep, f);
    var a := FirstWhere(r, 0, q);
    var b := FirstWhere(s, 0, test);
    match a
    case None =>
      forall i | 0 <= i < |s| ensures !test(s[i]) {
        if keep(s[i]) {
          assert i in pos;
          var m :| 0 <= m < |pos| && pos[m] == i;
          assert !q(r[m]);
        }
      }
    case Some(k) =>
      var i := pos[k];
      assert test(s[i]);
      forall j | 0 <= j < i ensures !test(s[j]) {
        if keep(s[j]) {
          assert j in pos;
          var m :| 0 <= m < |pos| && pos[m] == j;
          assert m < k;
          assert !q(r[m]);
        }
      }
      assert b == Some(i);
  }
}

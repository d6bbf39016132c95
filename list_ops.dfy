/** The three array operations every page of the app builds its state from:
    `map` (rebuilding a list after a toggle), `filter` (counts, favourites and the
    contacts split) and `find` (the schedule's "next up" item). Each is stated
    once here as a function on sequences, with a contract that says what the
    JavaScript operation promises. */
module ListOps {

  datatype Option<+T> = None | Some(value: T)

  /** `s.map(f)`: same length, and element i of the result is f applied to element i. */
  function Map<T, U>(s: seq<T>, f: T -> U): (r: seq<U>)
    ensures |r| == |s|
    ensures forall i :: 0 <= i < |s| ==> r[i] == f(s[i])
  {
    if s == [] then [] else [f(s[0])] + Map(s[1..], f)
  }

  /** `s.filter(p)`: the elements satisfying p, in their original order. */
  function Filter<T>(s: seq<T>, p: T -> bool): (r: seq<T>)
    ensures |r| <= |s|
    ensures forall x :: x in r ==> x in s && p(x)
  {
    if s == [] then []
    else if p(s[0]) then [s[0]] + Filter(s[1..], p)
    else Filter(s[1..], p)
  }

  /** The index form of `s.find(p)`: the position of the first element satisfying p,
      or None when no element does (where `find` returns `undefined`). */
  function FindIndex<T>(s: seq<T>, p: T -> bool): (r: Option<nat>)
    ensures r.Some? ==> r.value < |s| && p(s[r.value])
    ensures r.Some? ==> forall j :: 0 <= j < r.value ==> !p(s[j])
    ensures r.None? <==> forall j :: 0 <= j < |s| ==> !p(s[j])
  {
    if s == [] then None
    else if p(s[0]) then Some(0)
    else match FindIndex(s[1..], p)
      case None => None
      case Some(k) => Some(k + 1)
  }

  /** The positions of s whose element satisfies p: an independent description of
      what `filter(...).length` counts. */
  ghost function Positions<T>(s: seq<T>, p: T -> bool): set<nat>
  {
    set i: nat | i < |s| && p(s[i])
  }

  /** Filtering a concatenation filters each part: `filter` keeps the original order. */
  lemma {:induction false} FilterConcat<T>(s: seq<T>, t: seq<T>, p: T -> bool)
    ensures Filter(s + t, p) == Filter(s, p) + Filter(t, p)
  {
    if s == [] {
      assert s + t == t;
    } else {
      assert (s + t)[1..] == s[1..] + t;
      FilterConcat(s[1..], t, p);
    }
  }

  /** A list whose every element satisfies p is kept whole by `filter`, and one with no
      such element is filtered to nothing. */
  lemma {:induction false} FilterAllOrNone<T>(s: seq<T>, p: T -> bool)
    ensures (forall i :: 0 <= i < |s| ==> p(s[i])) ==> Filter(s, p) == s
    ensures (forall i :: 0 <= i < |s| ==> !p(s[i])) ==> Filter(s, p) == []
  {
    if s != [] {
      FilterAllOrNone(s[1..], p);
      assert forall i :: 1 <= i < |s| ==> s[i] == s[1..][i - 1];
    }
  }

  /** A list whose first k elements satisfy p and whose others do not is filtered to its
      first k elements. */
  lemma {:induction false} FilterPrefix<T>(s: seq<T>, p: T -> bool, k: nat)
    requires k <= |s|
    requires forall i :: 0 <= i < k ==> p(s[i])
    requires forall i :: k <= i < |s| ==> !p(s[i])
    ensures Filter(s, p) == s[..k]
  {
    if k == 0 {
      FilterAllOrNone(s, p);
    } else {
      var tail := s[1..];
      assert forall i :: 0 <= i < k - 1 ==> p(tail[i]) by {
        forall i | 0 <= i < k - 1 ensures tail[i] == s[i + 1] { }
      }
      assert forall i :: k - 1 <= i < |tail| ==> !p(tail[i]) by {
        forall i | k - 1 <= i < |tail| ensures tail[i] == s[i + 1] { }
      }
      FilterPrefix(tail, p, k - 1);
      assert s[..k] == [s[0]] + tail[..k - 1];
    }
  }

  /** When exactly one element satisfies p, `filter` returns just that element. */
  lemma {:induction false} FilterSingle<T>(s: seq<T>, p: T -> bool, k: nat)
    requires k < |s| && p(s[k])
    requires forall i :: 0 <= i < |s| && i != k ==> !p(s[i])
    ensures Filter(s, p) == [s[k]]
  {
    if k == 0 {
      FilterAllOrNone(s[1..], p);
    } else {
      FilterSingle(s[1..], p, k - 1);
    }
  }

  /** An element is kept by `filter` exactly when it is in the list and satisfies p. */
  lemma {:induction false} FilterMembership<T>(s: seq<T>, p: T -> bool, x: T)
    ensures x in Filter(s, p) <==> x in s && p(x)
  {
    if s != [] {
      FilterMembership(s[1..], p, x);
      assert s == [s[0]] + s[1..];
    }
  }

  /** Appending one element adds its position to the satisfying positions when it
      satisfies p, and nothing otherwise. */
  lemma PositionsSnoc<T>(t: seq<T>, x: T, p: T -> bool)
    ensures Positions(t + [x], p) == Positions(t, p) + (if p(x) then {|t|} else {})
  {
    var s := t + [x];
    forall i: nat | i < |t| ensures s[i] == t[i] { }
    assert s[|t|] == x;
  }

  /** The length of `filter` is the number of positions whose element satisfies p. */
  lemma {:induction false} FilterLength<T>(s: seq<T>, p: T -> bool)
    ensures |Filter(s, p)| == |Positions(s, p)|
  {
    if s == [] {
      assert Positions(s, p) == {};
    } else {
      var t, x := s[..|s| - 1], s[|s| - 1];
      assert s == t + [x];
      FilterLength(t, p);
      FilterConcat(t, [x], p);
      assert [x][1..] == [];
      PositionsSnoc(t, x, p);
      assert |t| !in Positions(t, p);
    }
  }

  /** Two complementary filters split a list: every element goes to exactly one
      side, so the lengths add up and the multisets add up. */
  lemma {:induction false} FilterPartition<T>(s: seq<T>, p: T -> bool, q: T -> bool)
    requires forall x :: q(x) == !p(x)
    ensures |Filter(s, p)| + |Filter(s, q)| == |s|
    ensures multiset(Filter(s, p)) + multiset(Filter(s, q)) == multiset(s)
  {
    if s != [] {
      FilterPartition(s[1..], p, q);
      assert s == [s[0]] + s[1..];
    }
  }
}

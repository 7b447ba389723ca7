/** A sequence with some of its elements left out, by the positions of those that stay. */
module Subsequences {
  ghost predicate Picks<T>(at: seq<nat>, a: seq<T>, b: seq<T>) {
    && |at| == |a|
    && (forall i :: 0 <= i < |at| ==> at[i] < |b| && b[at[i]] == a[i])
    && (forall i, j :: 0 <= i < j < |at| ==> at[i] < at[j])
  }

  /** a is b with some elements left out. */
  ghost predicate Subsequence<T>(a: seq<T>, b: seq<T>) {
    exists at: seq<nat> :: Picks(at, a, b)
  }

  /** One more element, left out or picked. */
  lemma PicksOneMore<T>(at: seq<nat>, a: seq<T>, b: seq<T>, x: T)
    requires Picks(at, a, b)
    ensures Picks(at, a, b + [x]) && Picks(at + [|b|], a + [x], b + [x])
  {
  }

  /** The positions behind one element more. */
  function Shifted(at: seq<nat>): seq<nat> {
    seq(|at|, i requires 0 <= i < |at| => at[i] + 1)
  }

  lemma ShiftedMembers(at: seq<nat>, p: nat)
    ensures p in Shifted(at) <==> p > 0 && p - 1 in at
    ensures p in [0] + Shifted(at) <==> p == 0 || p - 1 in at
  {
    if p > 0 && p - 1 in at {
      var i :| 0 <= i < |at| && at[i] == p - 1;
      assert Shifted(at)[i] == p;
    }
  }

  /** One more element in front, left out or picked. */
  lemma PicksOneBefore<T>(at: seq<nat>, a: seq<T>, b: seq<T>, x: T)
    requires Picks(at, a, b)
    ensures Picks(Shifted(at), a, [x] + b) && Picks([0] + Shifted(at), [x] + a, [x] + b)
  {
  }

  lemma PicksMore<T>(at: seq<nat>, a: seq<T>, b: seq<T>, b': seq<T>)
    requires Picks(at, a, b) && b <= b'
    ensures Picks(at, a, b')
  {
  }

  lemma PicksAppend<T>(at: seq<nat>, a: seq<T>, b: seq<T>, at2: seq<nat>, a2: seq<T>, b2: seq<T>) returns (both: seq<nat>)
    requires Picks(at, a, b) && Picks(at2, a2, b2)
    ensures Picks(both, a + a2, b + b2)
  {
    both := at + seq(|at2|, i requires 0 <= i < |at2| => |b| + at2[i]);
  }

  lemma PicksSlice<T>(at: seq<nat>, a: seq<T>, b: seq<T>, from: nat, to: nat)
    requires Picks(at, a, b) && from <= to <= |a|
    ensures Picks(at[from..to], a[from..to], b)
  {
  }

  lemma ComposePicks<T>(at: seq<nat>, a: seq<T>, b: seq<T>, at2: seq<nat>, c: seq<T>) returns (at3: seq<nat>)
    requires Picks(at, a, b) && Picks(at2, b, c)
    ensures Picks(at3, a, c) && forall i :: 0 <= i < |at| ==> at3[i] == at2[at[i]]
  {
    at3 := seq(|at|, i requires 0 <= i < |at| => at2[at[i]]);
  }

  /** at lists exactly the positions up to n that are chosen. */
  ghost predicate IsExactly(at: seq<nat>, n: nat, chosen: nat -> bool) {
    forall p: nat :: p in at <==> p < n && chosen(p)
  }

  lemma ExactlyOneMore(at: seq<nat>, n: nat, chosen: nat -> bool, chosen': nat -> bool)
    requires IsExactly(at, n, chosen) && forall p: nat :: p < n ==> chosen(p) == chosen'(p)
    ensures IsExactly(if chosen'(n) then at + [n] else at, n + 1, chosen')
  {
  }

  function Filtered<T>(s: seq<T>, keep: T -> bool): seq<T> {
    if s == [] then [] else (if keep(s[0]) then [s[0]] else []) + Filtered(s[1..], keep)
  }

  lemma {:induction false} FilteredPositions<T>(s: seq<T>, keep: T -> bool) returns (at: seq<nat>)
    ensures Picks(at, Filtered(s, keep), s) && IsExactly(at, |s|, (p: nat) => p < |s| && keep(s[p]))
  {
    if s == [] {
      at := [];
    } else {
      var tail := FilteredPositions(s[1..], keep);
      PicksOneBefore(tail, Filtered(s[1..], keep), s[1..], s[0]);
      assert s == [s[0]] + s[1..];
      at := if keep(s[0]) then [0] + Shifted(tail) else Shifted(tail);
      forall p: nat ensures p in at <==> p < |s| && keep(s[p]) {
        ShiftedMembers(tail, p);
      }
    }
  }
}

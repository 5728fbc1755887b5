/** Order-preserving filtering of sequences, shared by the row filters of the pipeline
    (the golden-question filter and the `dropna` step of the index builder). */
module Seqs {

  /** The elements of `s` that satisfy `p`, in their original order. Defined on the
      last element so that a left-to-right scan extends it one element at a time. */
  function Filter<T>(p: T -> bool, s: seq<T>): (r: seq<T>)
    ensures |r| <= |s|
  {
    if s == [] then []
    else Filter(p, s[..|s| - 1]) + (if p(s[|s| - 1]) then [s[|s| - 1]] else [])
  }

  /** Every element `Filter` keeps is an element of `s` that satisfies `p`. */
  lemma {:induction false} FilterMembers<T>(p: T -> bool, s: seq<T>)
    ensures forall x | x in Filter(p, s) :: x in s && p(x)
  {
    if s != [] {
      var init := s[..|s| - 1];
      FilterMembers(p, init);
      assert s == init + [s[|s| - 1]];
    }
  }

  /** Positions in `s` of the elements `Filter(p, s)` keeps, in increasing order. */
  function KeptPositions<T>(p: T -> bool, s: seq<T>): seq<nat>
  {
    if s == [] then []
    else KeptPositions(p, s[..|s| - 1]) + (if p(s[|s| - 1]) then [|s| - 1] else [])
  }

  /** Strictly increasing sequence of positions. */
  ghost predicate Increasing(ps: seq<nat>)
  {
    forall i, j | 0 <= i < j < |ps| :: ps[i] < ps[j]
  }

  /** `Filter` keeps exactly the elements that satisfy `p`, each one once, in the order
      they occur in `s`: the i-th kept element is `s[KeptPositions(p, s)[i]]`, the positions
      increase, and a position is listed iff its element satisfies `p`. */
  lemma {:induction false} FilterPositions<T>(p: T -> bool, s: seq<T>)
    ensures |KeptPositions(p, s)| == |Filter(p, s)|
    ensures Increasing(KeptPositions(p, s))
    ensures forall i | 0 <= i < |Filter(p, s)| ::
              KeptPositions(p, s)[i] < |s| && Filter(p, s)[i] == s[KeptPositions(p, s)[i]]
    ensures forall j | 0 <= j < |s| :: p(s[j]) <==> j in KeptPositions(p, s)
  {
    if s != [] {
      var n := |s| - 1;
      var init := s[..n];
      FilterPositions(p, init);
      var ps, fs := KeptPositions(p, init), Filter(p, init);
      var ps', fs' := KeptPositions(p, s), Filter(p, s);
      assert ps' == ps + (if p(s[n]) then [n] else []);
      assert fs' == fs + (if p(s[n]) then [s[n]] else []);
      assert forall i | 0 <= i < |ps| :: ps[i] < n;
      forall i | 0 <= i < |fs'|
        ensures ps'[i] < |s| && fs'[i] == s[ps'[i]]
      {
        if i < |fs| {
          assert fs'[i] == fs[i] && ps'[i] == ps[i];
        }
      }
      forall j | 0 <= j < |s|
        ensures p(s[j]) <==> j in ps'
      {
        if j < n {
          assert init[j] == s[j];
          assert j != n;
        }
      }
    }
  }

  /** Filtering a sequence extended by one element extends the filtered sequence by that
      element exactly when it satisfies `p`. */
  lemma FilterSnoc<T>(p: T -> bool, s: seq<T>, x: T)
    ensures Filter(p, s + [x]) == Filter(p, s) + (if p(x) then [x] else [])
  {
    assert (s + [x])[..|s + [x]| - 1] == s;
  }

  /** Filtering a longer prefix extends the filtered shorter prefix. */
  lemma {:induction false} FilterPrefix<T>(p: T -> bool, s: seq<T>, a: nat, b: nat)
    requires a <= b <= |s|
    ensures Filter(p, s[..a]) <= Filter(p, s[..b])
    decreases b - a
  {
    if a < b {
      FilterPrefix(p, s, a, b - 1);
      assert s[..b] == s[..b - 1] + [s[b - 1]];
      FilterSnoc(p, s[..b - 1], s[b - 1]);
    }
  }
}

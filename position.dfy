/** The fractional position allocator of lib/position.ts: an ordering key for an item dropped
  * between two neighbours, at either end of the queue, or into an empty queue. Positions are
  * exact reals; `None` is the source's `null` ("no neighbour on that side"), never zero. */
module Position {
  import opened Wrappers
  import Seqs

  /** `calculatePosition(prev, next)`. Whenever the present neighbours are in order, the
    * result lies strictly between them. */
  function CalculatePosition(prev: Option<real>, next: Option<real>): (r: real)
    ensures prev.Some? && (next.None? || prev.value < next.value) ==> prev.value < r
    ensures next.Some? && (prev.None? || prev.value < next.value) ==> r < next.value
  {
    if prev.None? && next.None? then 1.0
    else if prev.None? then next.value - 1.0
    else if next.None? then prev.value + 1.0
    else (prev.value + next.value) / 2.0
  }

  /** An empty queue starts at 1.0; the ends step one whole unit outward; a midpoint insert
    * halves the gap, leaving equal room on both sides. */
  lemma {:induction false} PlacementRule(prev: Option<real>, next: Option<real>)
    ensures prev.None? && next.None? ==> CalculatePosition(prev, next) == 1.0
    ensures prev.None? && next.Some? ==> next.value - CalculatePosition(prev, next) == 1.0
    ensures prev.Some? && next.None? ==> CalculatePosition(prev, next) - prev.value == 1.0
    ensures prev.Some? && next.Some? ==>
      var r := CalculatePosition(prev, next);
      r - prev.value == next.value - r == (next.value - prev.value) / 2.0
  {
  }

  /** Absence is tested with `=== null`, so a present 0 is a real neighbour. */
  lemma {:induction false} ZeroIsANeighbour()
    ensures CalculatePosition(Some(0.0), None) == 1.0
    ensures CalculatePosition(None, Some(0.0)) == -1.0
    ensures CalculatePosition(Some(0.0), Some(1.0)) == 0.5
  {
  }

  /** The literal expectations of the allocator's documentation and its tests. */
  lemma {:induction false} DocumentedValues()
    ensures CalculatePosition(Some(1.0), Some(2.0)) == 1.5
    ensures CalculatePosition(None, Some(1.0)) == 0.0
    ensures CalculatePosition(Some(3.0), None) == 4.0
    ensures CalculatePosition(None, None) == 1.0
    ensures CalculatePosition(Some(1.25), Some(1.5)) == 1.375
    ensures CalculatePosition(None, Some(5.0)) == 4.0
    ensures CalculatePosition(Some(10.0), None) == 11.0
  {
  }

  predicate StrictlyIncreasing(q: seq<real>) {
    forall i, j :: 0 <= i < j < |q| ==> q[i] < q[j]
  }

  /** The neighbours of slot `i` of a queue of positions (slot `|q|` is after the last entry). */
  function PrevAt(q: seq<real>, i: nat): Option<real>
    requires i <= |q|
  {
    if i == 0 then None else Some(q[i - 1])
  }

  function NextAt(q: seq<real>, i: nat): Option<real>
    requires i <= |q|
  {
    if i == |q| then None else Some(q[i])
  }

  /** The queue after a new entry is placed in slot `i` with the allocator's position. */
  function InsertAt(q: seq<real>, i: nat): (r: seq<real>)
    requires i <= |q|
    ensures |r| == |q| + 1 && r[..i] == q[..i] && r[i + 1..] == q[i..]
    ensures r[i] == CalculatePosition(PrevAt(q, i), NextAt(q, i))
  {
    q[..i] + [CalculatePosition(PrevAt(q, i), NextAt(q, i))] + q[i..]
  }

  /** The queue invariant: inserting into any slot of a strictly increasing queue leaves it
    * strictly increasing, so no two entries ever share a position. */
  lemma {:induction false} InsertKeepsStrictOrder(q: seq<real>, i: nat)
    requires StrictlyIncreasing(q) && i <= |q|
    ensures StrictlyIncreasing(InsertAt(q, i))
  {
    var x := CalculatePosition(PrevAt(q, i), NextAt(q, i));
    assert i > 0 && i < |q| ==> q[i - 1] < q[i];
    StrictInsert(q, i, x);
  }

  /** A value strictly between the neighbours of slot `i` keeps the queue strictly increasing. */
  lemma {:induction false} StrictInsert(q: seq<real>, i: nat, x: real)
    requires StrictlyIncreasing(q) && i <= |q|
    requires i > 0 ==> q[i - 1] < x
    requires i < |q| ==> x < q[i]
    ensures StrictlyIncreasing(q[..i] + [x] + q[i..])
  {
    var r := q[..i] + [x] + q[i..];
    forall a, b | 0 <= a < b < |r| ensures r[a] < r[b] {
      if b < i {
        assert r[a] == q[a] && r[b] == q[b];
      } else if b == i {
        assert r[a] == q[a] && r[b] == x && q[a] <= q[i - 1];
      } else if a < i {
        assert r[a] == q[a] && r[b] == q[b - 1] && q[a] < q[i] <= q[b - 1];
      } else if a == i {
        assert r[b] == q[b - 1] && q[i] <= q[b - 1];
      } else {
        assert r[a] == q[a - 1] && r[b] == q[b - 1];
      }
    }
  }

  /** The worked example: three tail inserts into the empty queue give [1.0, 2.0, 3.0]; then
    * between 1.0 and 2.0 comes 1.5, and between 1.0 and 1.5 comes 1.25. */
  lemma {:induction false} WorkedExample()
    ensures InsertAt([], 0) == [1.0]
    ensures InsertAt([1.0], 1) == [1.0, 2.0]
    ensures InsertAt([1.0, 2.0], 2) == [1.0, 2.0, 3.0]
    ensures InsertAt([1.0, 2.0, 3.0], 1) == [1.0, 1.5, 2.0, 3.0]
    ensures InsertAt([1.0, 1.5, 2.0, 3.0], 1) == [1.0, 1.25, 1.5, 2.0, 3.0]
  {
  }

  /** The values produced by `b := calculatePosition(a, b)` repeated `rounds` times. */
  function Narrowing(a: real, b: real, rounds: nat): (mids: seq<real>)
    ensures |mids| == rounds
    decreases rounds
  {
    if rounds == 0 then []
    else
      var m := CalculatePosition(Some(a), Some(b));
      [m] + Narrowing(a, m, rounds - 1)
  }

  /** Each new value lies strictly inside the original gap and strictly below the previous one. */
  lemma {:induction false} NarrowingDescends(a: real, b: real, rounds: nat)
    requires a < b
    ensures forall k :: 0 <= k < rounds ==> a < Narrowing(a, b, rounds)[k] < b
    ensures forall j, k :: 0 <= j < k < rounds ==> Narrowing(a, b, rounds)[k] < Narrowing(a, b, rounds)[j]
    decreases rounds
  {
    if rounds > 0 {
      var m := CalculatePosition(Some(a), Some(b));
      NarrowingDescends(a, m, rounds - 1);
      var mids := Narrowing(a, b, rounds);
      assert mids == [m] + Narrowing(a, m, rounds - 1);
    }
  }

  function Reverse(s: seq<real>): (r: seq<real>)
    ensures |r| == |s| && forall k :: 0 <= k < |s| ==> r[k] == s[|s| - 1 - k]
  {
    if s == [] then [] else Reverse(s[1..]) + [s[0]]
  }

  /** Dense insertions into one gap: all generated values together with the two ends are
    * pairwise different, and arranged in ascending order they are strictly increasing. */
  lemma {:induction false} DenseInsertions(a: real, b: real, rounds: nat)
    requires a < b
    ensures Seqs.Distinct([a, b] + Narrowing(a, b, rounds))
    ensures
      var sorted := [a] + Reverse(Narrowing(a, b, rounds)) + [b];
      StrictlyIncreasing(sorted) && multiset(sorted) == multiset([a, b] + Narrowing(a, b, rounds))
  {
    NarrowingDescends(a, b, rounds);
    ChainDistinct(a, b, Narrowing(a, b, rounds));
    ChainSorted(a, b, Narrowing(a, b, rounds));
  }

  /** Values strictly inside (a, b) and strictly descending differ from each other and from
    * both ends. */
  lemma {:induction false} ChainDistinct(a: real, b: real, mids: seq<real>)
    requires a < b
    requires forall k :: 0 <= k < |mids| ==> a < mids[k] < b
    requires forall j, k :: 0 <= j < k < |mids| ==> mids[k] < mids[j]
    ensures Seqs.Distinct([a, b] + mids)
  {
    var chain := [a, b] + mids;
    forall i, j | 0 <= i < j < |chain| ensures chain[i] != chain[j] {
      if i >= 2 {
        assert chain[j] < chain[i];
      }
    }
  }

  /** ... and reversed between the two ends they ascend strictly, a rearrangement of the
    * same values. */
  lemma {:induction false} ChainSorted(a: real, b: real, mids: seq<real>)
    requires a < b
    requires forall k :: 0 <= k < |mids| ==> a < mids[k] < b
    requires forall j, k :: 0 <= j < k < |mids| ==> mids[k] < mids[j]
    ensures
      var sorted := [a] + Reverse(mids) + [b];
      StrictlyIncreasing(sorted) && multiset(sorted) == multiset([a, b] + mids)
  {
    var rev := Reverse(mids);
    ReverseAscends(a, b, mids);
    Bracketed(a, b, rev);
    ReverseMultiset(mids);
    assert multiset([a] + rev + [b]) == multiset{a} + multiset(rev) + multiset{b};
  }

  /** A strictly descending sequence inside (a, b), reversed, ascends strictly inside (a, b). */
  lemma {:induction false} ReverseAscends(a: real, b: real, mids: seq<real>)
    requires forall k :: 0 <= k < |mids| ==> a < mids[k] < b
    requires forall j, k :: 0 <= j < k < |mids| ==> mids[k] < mids[j]
    ensures StrictlyIncreasing(Reverse(mids))
    ensures forall k :: 0 <= k < |mids| ==> a < Reverse(mids)[k] < b
  {
    var n := |mids|;
    var rev := Reverse(mids);
    forall i, j | 0 <= i < j < n ensures rev[i] < rev[j] {
      assert rev[i] == mids[n - 1 - i] && rev[j] == mids[n - 1 - j];
    }
  }

  /** An ascending sequence inside (a, b), with `a` in front and `b` behind, still ascends. */
  lemma {:induction false} Bracketed(a: real, b: real, r: seq<real>)
    requires a < b && StrictlyIncreasing(r)
    requires forall k :: 0 <= k < |r| ==> a < r[k] < b
    ensures StrictlyIncreasing([a] + r + [b])
  {
    var sorted := [a] + r + [b];
    var n := |r|;
    forall i, j | 0 <= i < j < |sorted| ensures sorted[i] < sorted[j] {
      if i == 0 && j <= n {
        assert sorted[j] == r[j - 1];
      } else if 0 < i && j == n + 1 {
        assert sorted[i] == r[i - 1];
      } else if 0 < i {
        assert sorted[i] == r[i - 1] && sorted[j] == r[j - 1];
      }
    }
  }

  lemma {:induction false} ReverseMultiset(s: seq<real>)
    ensures multiset(Reverse(s)) == multiset(s)
  {
    if s != [] {
      ReverseMultiset(s[1..]);
      assert s == [s[0]] + s[1..];
    }
  }

  /** The test's eight rounds from [1.0, 2.0]. */
  lemma {:induction false} EightRoundsFromOneToTwo()
    ensures Seqs.Distinct([1.0, 2.0] + Narrowing(1.0, 2.0, 8))
    ensures forall k :: 0 <= k < 8 ==> 1.0 < Narrowing(1.0, 2.0, 8)[k] < 2.0
  {
    DenseInsertions(1.0, 2.0, 8);
    NarrowingDescends(1.0, 2.0, 8);
  }
}

/** What `compare_hands` decides: the showdown order on evaluated hands. */
module HandComparison {
  import opened Cards
  import opened HandEvaluator

  /** The verdict seen from the other player's seat: 1 and 2 swap, a push stays a push. */
  function Opposite(r: int): int {
    if r == 1 then 2 else if r == 2 then 1 else r
  }

  /** Position k is the first where a and b differ, both being long enough to have it. */
  ghost predicate FirstDiffersAt(a: seq<int>, b: seq<int>, k: int) {
    0 <= k < |a| && k < |b| && a[..k] == b[..k] && a[k] != b[k]
  }

  /** Position k is the first difference between a and b, and a is higher there. */
  ghost predicate HigherAt(a: seq<int>, b: seq<int>, k: int) {
    FirstDiffersAt(a, b, k) && a[k] > b[k]
  }

  /** a and b agree on every position both have. */
  ghost predicate AgreeOnCommon(a: seq<int>, b: seq<int>) {
    forall k :: 0 <= k < |a| && k < |b| ==> a[k] == b[k]
  }

  /** The ranking key of an evaluation: the category value followed by the tie-breaks. */
  function Key(e: Evaluation): (k: seq<int>)
    ensures |k| == |e.tieBreaks| + 1 && k[0] == e.rank.Value() && k[1..] == e.tieBreaks
  {
    [e.rank.Value()] + e.tieBreaks
  }

  /** Equal heads: the first difference moves one position along. */
  lemma ShiftDiff(a: seq<int>, b: seq<int>, k: int)
    requires a != [] && b != [] && a[0] == b[0]
    ensures FirstDiffersAt(a, b, k + 1) <==> FirstDiffersAt(a[1..], b[1..], k)
  {
    if 0 <= k && k + 1 < |a| && k + 1 < |b| {
      assert a[..k + 1] == [a[0]] + a[1..][..k];
      assert b[..k + 1] == [b[0]] + b[1..][..k];
    }
  }

  /** Differing heads: position 0 is the first difference and no other position is. */
  lemma HeadDiff(a: seq<int>, b: seq<int>)
    requires a != [] && b != [] && a[0] != b[0]
    ensures FirstDiffersAt(a, b, 0) && FirstDiffersAt(b, a, 0)
    ensures forall k :: FirstDiffersAt(a, b, k) || FirstDiffersAt(b, a, k) ==> k == 0
  {
    assert a[..0] == b[..0];
  }

  /** Equal heads: a is higher at the first difference exactly when it is so once the
      heads are removed. */
  lemma TailHigher(a: seq<int>, b: seq<int>)
    requires a != [] && b != [] && a[0] == b[0]
    ensures (exists k :: HigherAt(a, b, k)) <==> (exists k :: HigherAt(a[1..], b[1..], k))
  {
    if exists k :: HigherAt(a, b, k) {
      var k :| HigherAt(a, b, k);
      assert k != 0;
      ShiftDiff(a, b, k - 1);
      assert HigherAt(a[1..], b[1..], k - 1);
    }
    if exists k :: HigherAt(a[1..], b[1..], k) {
      var k :| HigherAt(a[1..], b[1..], k);
      ShiftDiff(a, b, k);
      assert HigherAt(a, b, k + 1);
    }
  }

  /** Equal heads: the lists agree on their common positions exactly when their tails do. */
  lemma TailAgree(a: seq<int>, b: seq<int>)
    requires a != [] && b != [] && a[0] == b[0]
    ensures AgreeOnCommon(a, b) <==> AgreeOnCommon(a[1..], b[1..])
  {
    if AgreeOnCommon(a[1..], b[1..]) {
      forall k | 0 <= k < |a| && k < |b| ensures a[k] == b[k] {
        if k > 0 {
          assert a[1..][k - 1] == b[1..][k - 1];
        }
      }
    }
    if AgreeOnCommon(a, b) {
      forall k | 0 <= k < |a| - 1 && k < |b| - 1 ensures a[1..][k] == b[1..][k] {
        assert a[k + 1] == b[k + 1];
      }
    }
  }

  /** The tie-break loop is the lexicographic comparison of the two lists, cut at the
      shorter: 1 exactly when the first list is higher at the first difference, 2 exactly
      when the second is, 0 exactly when there is no difference. */
  lemma {:induction false} TieBreakCompareMeaning(a: seq<Rank>, b: seq<Rank>)
    ensures TieBreakCompare(a, b) == 1 <==> exists k :: HigherAt(a, b, k)
    ensures TieBreakCompare(a, b) == 2 <==> exists k :: HigherAt(b, a, k)
    ensures TieBreakCompare(a, b) == 0 <==> AgreeOnCommon(a, b)
  {
    if a == [] || b == [] {
      assert forall k :: !FirstDiffersAt(a, b, k) && !FirstDiffersAt(b, a, k);
    } else if a[0] != b[0] {
      HeadDiff(a, b);
      if a[0] > b[0] {
        assert HigherAt(a, b, 0);
      } else {
        assert HigherAt(b, a, 0);
      }
    } else {
      TieBreakCompareMeaning(a[1..], b[1..]);
      TailHigher(a, b);
      TailHigher(b, a);
      TailAgree(a, b);
    }
  }

  /** Showdown order: the hands are ranked by their keys, compared lexicographically up
      to the shorter key; 1 and 2 name the hand whose key is higher at the first
      difference, 0 means no difference. */
  lemma CompareEvaluationsMeaning(e1: Evaluation, e2: Evaluation)
    ensures CompareEvaluations(e1, e2) == 1 <==> exists k :: HigherAt(Key(e1), Key(e2), k)
    ensures CompareEvaluations(e1, e2) == 2 <==> exists k :: HigherAt(Key(e2), Key(e1), k)
    ensures CompareEvaluations(e1, e2) == 0 <==> AgreeOnCommon(Key(e1), Key(e2))
  {
    var k1, k2 := Key(e1), Key(e2);
    if e1.rank.Value() != e2.rank.Value() {
      HeadDiff(k1, k2);
      if k1[0] > k2[0] {
        assert HigherAt(k1, k2, 0);
      } else {
        assert HigherAt(k2, k1, 0);
      }
    } else {
      TieBreakCompareMeaning(e1.tieBreaks, e2.tieBreaks);
      TailHigher(k1, k2);
      TailHigher(k2, k1);
      TailAgree(k1, k2);
    }
  }

  /** Swapping the lists swaps the verdict. */
  lemma {:induction false} TieBreakCompareSwap(a: seq<Rank>, b: seq<Rank>)
    ensures TieBreakCompare(b, a) == Opposite(TieBreakCompare(a, b))
  {
    if a != [] && b != [] && a[0] == b[0] {
      TieBreakCompareSwap(a[1..], b[1..]);
    }
  }

  /** A list ties with itself. */
  lemma {:induction false} TieBreakCompareSelf(a: seq<Rank>)
    ensures TieBreakCompare(a, a) == 0
  {
    if a != [] {
      TieBreakCompareSelf(a[1..]);
    }
  }

  /** Exchanging the two players' hole cards exchanges the winner; a push stays a push. */
  lemma CompareSwap(player1: seq<Card>, player2: seq<Card>, community: seq<Card>)
    ensures Compare(player2, player1, community) == Opposite(Compare(player1, player2, community))
  {
    TieBreakCompareSwap(Evaluate(player1, community).tieBreaks, Evaluate(player2, community).tieBreaks);
  }

  /** Two players holding the same cards push. */
  lemma CompareSelf(player: seq<Card>, community: seq<Card>)
    ensures Compare(player, player, community) == 0
  {
    TieBreakCompareSelf(Evaluate(player, community).tieBreaks);
  }
}

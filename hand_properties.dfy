/** What the evaluator's specification functions guarantee: the meaning of flush and
    straight detection, the invariants of the full-house loop, which category comes out
    and with how many tie-break ranks, and the symmetry of the comparison. Concrete pools
    show the two order- and shape-dependent behaviours of the evaluator. */
module HandProperties {
  import opened Seqs
  import opened Counting
  import opened Cards
  import opened HandEvaluator

  // ---------------------------------------------------------------------------
  // Counting facts about pools of cards

  /** An entry of a tally carries the number of occurrences of its key. */
  lemma TallyMember<K>(xs: seq<K>, e: (K, nat))
    requires e in Tally(xs)
    ensures e.1 == multiset(xs)[e.0] && e.1 >= 1
  {
    var i :| 0 <= i < |Tally(xs)| && Tally(xs)[i] == e;
    TallyEntry(xs, i);
  }

  /** A rank occurs as often as its four cards together. */
  lemma {:induction false} RankMultiplicity(cards: seq<Card>, r: Rank)
    ensures multiset(Ranks(cards))[r] ==
      multiset(cards)[Card(r, Hearts)] + multiset(cards)[Card(r, Diamonds)]
      + multiset(cards)[Card(r, Clubs)] + multiset(cards)[Card(r, Spades)]
  {
    if cards != [] {
      var init := cards[..|cards| - 1];
      var last := cards[|cards| - 1];
      assert cards == init + [last];
      assert Ranks(cards) == Ranks(init) + [last.rank];
      assert multiset(Ranks(cards)) == multiset(Ranks(init)) + multiset{last.rank};
      assert multiset(cards) == multiset(init) + multiset{last};
      RankMultiplicity(init, r);
      if last.rank == r {
        assert last == Card(r, last.suit);
        match last.suit
        case Hearts =>
        case Diamonds =>
        case Clubs =>
        case Spades =>
      }
    }
  }

  /** Among different cards no rank occurs more than four times. */
  lemma RankAtMostFour(cards: seq<Card>, r: Rank)
    requires Distinct(cards)
    ensures multiset(Ranks(cards))[r] <= 4
  {
    RankMultiplicity(cards, r);
    DistinctAtMostOnce(cards, Card(r, Hearts));
    DistinctAtMostOnce(cards, Card(r, Diamonds));
    DistinctAtMostOnce(cards, Card(r, Clubs));
    DistinctAtMostOnce(cards, Card(r, Spades));
  }

  /** No rank occurs more than four times in the pool. */
  ghost predicate AtMostFourEach(all: seq<Card>) {
    forall r: Rank :: multiset(Ranks(all))[r] <= 4
  }

  lemma DistinctAtMostFour(all: seq<Card>)
    requires Distinct(all)
    ensures AtMostFourEach(all)
  {
    forall r: Rank ensures multiset(Ranks(all))[r] <= 4 {
      RankAtMostFour(all, r);
    }
  }

  /** Counts bounded by m add up to at most m per entry. */
  lemma {:induction false} SumBound<K>(t: Counts<K>, m: nat)
    requires forall e :: e in t ==> e.1 <= m
    ensures Sum(t) <= |t| * m
  {
    if t != [] {
      assert forall e :: e in t[1..] ==> e in t;
      SumBound(t[1..], m);
      assert t[0] in t;
      MulStep(|t| - 1, m);
    }
  }

  lemma MulStep(n: nat, m: nat)
    ensures (n + 1) * m == n * m + m
  {
  }

  // ---------------------------------------------------------------------------
  // Flush detection

  /** `has_flush` reports a suit only when it occurs five times or more, and reports none
      exactly when every suit occurs fewer than five times. */
  lemma FlushSuitMeaning(cards: seq<Card>)
    ensures FlushSuit(cards).Some? ==> multiset(Suits(cards))[FlushSuit(cards).value] >= 5
    ensures FlushSuit(cards).None? <==> forall s: Suit :: multiset(Suits(cards))[s] < 5
  {
    var t := Tally(Suits(cards));
    var i := FirstAtLeast(t, 5);
    TallyCounts(Suits(cards));
    if i < |t| {
      TallyEntry(Suits(cards), i);
    } else {
      forall s: Suit ensures multiset(Suits(cards))[s] < 5 {
        if s in Suits(cards) {
          assert s in Keys(t);
          var k :| 0 <= k < |t| && Keys(t)[k] == s;
          TallyEntry(Suits(cards), k);
        }
      }
    }
  }

  // ---------------------------------------------------------------------------
  // The full-house loop

  /** What the full-house loop keeps over the dictionary entries t it has seen: a pair
      list without repeats that never holds the kept triple; every listed rank has count
      2 or 3 and the kept triple count 3; every count-2 rank is listed; and no count-3 rank
      is higher than the kept triple (so none is kept exactly when no rank has count 3). */
  ghost predicate GroupsFit(t: Counts<Rank>, g: Groups) {
    && Distinct(g.pairs)
    && (g.three.Some? ==> g.three.value !in g.pairs)
    && (forall r :: r in g.pairs ==> (r, 2) in t || (r, 3) in t)
    && (g.three.Some? ==> (g.three.value, 3) in t)
    && (forall e :: e in t && e.1 == 2 ==> e.0 in g.pairs)
    && (forall e :: e in t && e.1 == 3 ==> g.three.Some? && e.0 <= g.three.value)
  }

  /** One pass of the loop over an entry with a new key keeps GroupsFit. */
  lemma GroupStepFits(t: Counts<Rank>, g: Groups, e: (Rank, nat))
    requires GroupsFit(t, g) && e.0 !in Keys(t)
    ensures GroupsFit(t + [e], GroupStep(g, e))
  {
    assert forall r :: r in g.pairs ==> r in Keys(t) by {
      forall r | r in g.pairs ensures r in Keys(t) {
        var k :| 0 <= k < |t| && (t[k] == (r, 2) || t[k] == (r, 3));
        assert Keys(t)[k] == r;
      }
    }
    if g.three.Some? {
      var k :| 0 <= k < |t| && t[k] == (g.three.value, 3);
      assert Keys(t)[k] == g.three.value;
    }
    var g2 := GroupStep(g, e);
    assert Distinct(g2.pairs) by {
      if g2.pairs != g.pairs {
        var x := g2.pairs[|g2.pairs| - 1];
        assert g2.pairs == g.pairs + [x];
        assert x !in g.pairs;
        forall i, j | 0 <= i < j < |g2.pairs| ensures g2.pairs[i] != g2.pairs[j] {
          if j < |g.pairs| {
            assert g2.pairs[i] == g.pairs[i] && g2.pairs[j] == g.pairs[j];
          } else {
            assert g2.pairs[i] == g.pairs[i] && g.pairs[i] in g.pairs;
          }
        }
      }
    }
    assert forall x :: x in t + [e] <==> x in t || x == e;
  }

  /** The full-house loop over a dictionary with distinct keys ends in GroupsFit. */
  lemma {:induction false} GroupedFacts(t: Counts<Rank>)
    requires Distinct(Keys(t))
    ensures GroupsFit(t, Grouped(t))
  {
    if t != [] {
      var init := t[..|t| - 1];
      var e := t[|t| - 1];
      assert t == init + [e];
      assert Keys(init) == Keys(t)[..|t| - 1];
      assert Distinct(Keys(init));
      GroupedFacts(init);
      assert e.0 !in Keys(init) by {
        forall k | 0 <= k < |init| ensures init[k].0 != e.0 {
          assert Keys(t)[k] == init[k].0 && Keys(t)[|t| - 1] == e.0;
        }
      }
      GroupStepFits(init, Grouped(init), e);
    }
  }

  // ---------------------------------------------------------------------------
  // Straight detection

  /** A sequence holding five different values has at least five elements. */
  lemma FiveInSeq(u: seq<Rank>, a: Rank, b: Rank, c: Rank, d: Rank, e: Rank)
    requires a in u && b in u && c in u && d in u && e in u
    requires a < b < c < d < e
    ensures |u| >= 5
  {
    var five: set<Rank> := {a, b, c, d, e};
    var all := set x | x in u;
    assert all == five + (all - five);
    SetOfSeqBound(u);
  }

  /** A wheel or a straight needs five different ranks, and a straight tops out at or
      below the highest rank present. */
  lemma StraightNeedsFive(rs: seq<Rank>, u: seq<Rank>)
    requires UniqueAscending(rs, u)
    ensures IsWheel(rs) ==> |u| >= 5
    ensures forall h :: StraightAt(rs, h) ==> |u| >= 5 && h <= u[|u| - 1]
  {
    if IsWheel(rs) {
      FiveInSeq(u, Two, Three, Four, Five, Ace);
    }
    forall h | StraightAt(rs, h) ensures |u| >= 5 && h <= u[|u| - 1] {
      FiveInSeq(u, h - 4, h - 3, h - 2, h - 1, h);
      var k :| 0 <= k < |u| && u[k] == h;
      if k < |u| - 1 {
        assert Below(u, k, |u| - 1);
      }
    }
  }

  /** `has_straight` in plain terms: the wheel gives Five whatever else is present;
      otherwise the result is the highest card topping five consecutive ranks, and
      nothing is reported exactly when there is neither a wheel nor such a run. */
  lemma StraightHighMeaning(rs: seq<Rank>)
    ensures IsWheel(rs) ==> StraightHigh(rs) == Some(Five)
    ensures !IsWheel(rs) && StraightHigh(rs).Some? ==>
      StraightAt(rs, StraightHigh(rs).value) &&
      forall h :: StraightHigh(rs).value < h ==> !StraightAt(rs, h)
    ensures StraightHigh(rs).None? <==> !IsWheel(rs) && forall h :: !StraightAt(rs, h)
  {
    var u := DistinctAscending(rs);
    DistinctAscendingSorted(rs);
    assert UniqueAscending(rs, u);
    StraightNeedsFive(rs, u);
    if !IsWheel(rs) {
      if |u| < 5 {
        assert StraightHigh(rs).None?;
        assert forall h :: !StraightAt(rs, h);
      } else {
        var r := HighestRun(rs, u[|u| - 1]);
        assert StraightHigh(rs) == r;
        assert forall h :: r.None? || r.value < h ==> !StraightAt(rs, h);
      }
    }
  }

  /** The wheel is checked before the scan: A-2-3-4-5-6 is reported as a Five-high
      straight although a Six-high straight is present. */
  lemma WheelHidesSixHigh()
    ensures StraightAt([Ace, Two, Three, Four, Five, Six], Six)
    ensures StraightHigh([Ace, Two, Three, Four, Five, Six]) == Some(Five)
  {
    StraightHighMeaning([Ace, Two, Three, Four, Five, Six]);
  }

  // ---------------------------------------------------------------------------
  // Straight flushes

  /** The ranks of a sub-pool occur among the ranks of the pool. */
  lemma RanksSubset(sub: seq<Card>, all: seq<Card>)
    requires forall c :: c in sub ==> c in all
    ensures forall x :: x in Ranks(sub) ==> x in Ranks(all)
  {
    forall x | x in Ranks(sub) ensures x in Ranks(all) {
      var i :| 0 <= i < |sub| && Ranks(sub)[i] == x;
      assert sub[i] in all;
      var j :| 0 <= j < |all| && all[j] == sub[i];
      assert Ranks(all)[j] == x;
    }
  }

  /** A straight among some of the ranks is a straight among all of them. */
  lemma StraightHighMonotone(sub: seq<Rank>, all: seq<Rank>)
    requires forall x :: x in sub ==> x in all
    requires StraightHigh(sub).Some?
    ensures StraightHigh(all).Some?
  {
    StraightHighMeaning(sub);
    StraightHighMeaning(all);
    if !IsWheel(sub) {
      assert StraightAt(all, StraightHigh(sub).value);
    }
  }

  /** The straight looked for among the flush suit's cards, when there is a flush. */
  function FlushStraight(all: seq<Card>): Option<Rank> {
    if FlushSuit(all).Some? then StraightHigh(Ranks(OfSuit(all, FlushSuit(all).value))) else None
  }

  /** `evaluate_hand` in two cases: a straight within the flush suit is reported as a
      Royal Flush when Ace-high and as a Straight Flush otherwise, with its high card as the
      only tie-break; without one the categories by rank counts follow. */
  lemma EvaluateCases(player: seq<Card>, community: seq<Card>)
    ensures var all := player + community;
      var sf := FlushStraight(all);
      Evaluate(player, community) ==
        if sf.Some? then Evaluation(if sf.value == Ace then RoyalFlush else StraightFlush, [sf.value])
        else ByCounts(all, FlushSuit(all), StraightHigh(Ranks(all)))
  {
    var all := player + community;
    if FlushStraight(all).Some? {
      var flushCards := OfSuit(all, FlushSuit(all).value);
      RanksSubset(flushCards, all);
      StraightHighMonotone(Ranks(flushCards), Ranks(all));
    }
  }

  /** The categories by rank counts stop below the straight flushes. */
  lemma ByCountsBelowStraightFlush(all: seq<Card>, flush: Option<Suit>, straight: Option<Rank>)
    ensures ByCounts(all, flush, straight).rank != RoyalFlush
    ensures ByCounts(all, flush, straight).rank != StraightFlush
  {
    var t := Tally(Ranks(all));
    if FirstWithCount(t, 4) == |t| {
      assert ByCounts(all, flush, straight) == ByGroups(all, flush, straight, t, Grouped(t));
    }
  }

  /** Royal Flush comes out exactly when the straight within the flush suit is Ace-high,
      and Straight Flush exactly when that straight has another high card. */
  lemma StraightFlushClassification(player: seq<Card>, community: seq<Card>)
    ensures Evaluate(player, community).rank == RoyalFlush <==>
      FlushStraight(player + community) == Some(Ace)
    ensures Evaluate(player, community).rank == StraightFlush <==>
      FlushStraight(player + community).Some? && FlushStraight(player + community).value != Ace
    ensures FlushStraight(player + community).Some? ==>
      Evaluate(player, community).tieBreaks == [FlushStraight(player + community).value]
  {
    var all := player + community;
    EvaluateCases(player, community);
    if FlushStraight(all).None? {
      ByCountsBelowStraightFlush(all, FlushSuit(all), StraightHigh(Ranks(all)));
    }
  }

  // ---------------------------------------------------------------------------
  // Tie-break arity

  /** The tie-break list of e has the arity of its category, or e is the one exception: a
      6-card pool with two triples classified Three of a Kind, listing just the two triples. */
  ghost predicate TieBreaksFit(all: seq<Card>, e: Evaluation) {
    |e.tieBreaks| == Arity(e.rank) ||
    (|all| == 6 && e.rank == ThreeOfAKind && |e.tieBreaks| == 2 &&
     multiset(Ranks(all))[e.tieBreaks[0]] == 3 && multiset(Ranks(all))[e.tieBreaks[1]] == 3)
  }

  lemma ExactArityFits(all: seq<Card>, e: Evaluation)
    requires |e.tieBreaks| == Arity(e.rank)
    ensures TieBreaksFit(all, e)
  {
  }

  /** How many tie-break ranks each category carries for a pool of 6 or 7 cards. */
  function Arity(r: HandRank): nat {
    if r == Flush || r == HighCard then 5
    else if r == Pair then 4
    else if r == ThreeOfAKind || r == TwoPair then 3
    else if r == FourOfAKind || r == FullHouse then 2
    else 1
  }

  /** The rank dictionary of different cards: distinct keys, each counted by its
      multiplicity, which lies between 1 and 4, and the counts add up to the pool size. */
  lemma PoolCounts(all: seq<Card>)
    requires AtMostFourEach(all)
    ensures Distinct(Keys(Tally(Ranks(all))))
    ensures Sum(Tally(Ranks(all))) == |all|
    ensures forall e :: e in Tally(Ranks(all)) ==>
      e.1 == multiset(Ranks(all))[e.0] && 1 <= e.1 <= 4
  {
    TallyCounts(Ranks(all));
    forall e | e in Tally(Ranks(all))
      ensures e.1 == multiset(Ranks(all))[e.0] && 1 <= e.1 <= 4
    {
      TallyMember(Ranks(all), e);
    }
  }

  /** Four of a kind: the quad and one kicker. */
  lemma QuadArity(all: seq<Card>, quad: Rank)
    requires AtMostFourEach(all) && 6 <= |all|
    requires (quad, 4) in Tally(Ranks(all))
    ensures |Take(Kickers(Tally(Ranks(all)), [quad]), 1)| == 1
  {
    var rs := Ranks(all);
    PoolCounts(all);
    SumDrop(rs, [quad]);
    ExcludeOne(rs, quad);
  }

  /** Three of a kind: the triple and two kickers, except when the only other rank of a
      6-card pool is a second triple, which is then the single kicker. */
  lemma TripsArity(all: seq<Card>, three: Rank)
    requires AtMostFourEach(all) && 6 <= |all| <= 7
    requires (three, 3) in Tally(Ranks(all))
    requires forall e :: e in Tally(Ranks(all)) ==> e.1 != 4
    ensures var k := Take(Kickers(Tally(Ranks(all)), [three]), 2);
      |k| == 2 || (|all| == 6 && |k| == 1 && multiset(Ranks(all))[k[0]] == 3)
    ensures multiset(Ranks(all))[three] == 3
  {
    var rs := Ranks(all);
    var t := Tally(rs);
    PoolCounts(all);
    SumDrop(rs, [three]);
    ExcludeOne(rs, three);
    var d := Drop(t, [three]);
    DropMembers(t, [three]);
    SumBound(d, 3);
    TallyMember(rs, (three, 3));
    if |d| == 1 {
      assert Sum(d) == d[0].1 + Sum(d[1..]);
      assert d[0] in d;
      assert Keys(d) == [d[0].0];
      assert SortDesc([d[0].0]) == [d[0].0] by {
        var sd := SortDesc([d[0].0]);
        SortDescPermutes([d[0].0]);
        assert sd[0] in multiset(sd);
      }
    }
  }

  /** Two pair: the two highest pairs and one kicker. */
  lemma TwoPairArity(all: seq<Card>, a: Rank, b: Rank)
    requires AtMostFourEach(all) && 6 <= |all|
    requires a != b && (a, 2) in Tally(Ranks(all)) && (b, 2) in Tally(Ranks(all))
    ensures |Take(Kickers(Tally(Ranks(all)), [a, b]), 1)| == 1
  {
    var rs := Ranks(all);
    PoolCounts(all);
    SumDrop(rs, [a, b]);
    ExcludeTwo(rs, a, b);
  }

  /** One pair: the pair and three kickers, the other ranks all being singletons. */
  lemma PairArity(all: seq<Card>, p: Rank)
    requires AtMostFourEach(all) && 6 <= |all|
    requires (p, 2) in Tally(Ranks(all))
    requires forall e :: e in Tally(Ranks(all)) && e.0 != p ==> e.1 == 1
    ensures |Take(Kickers(Tally(Ranks(all)), [p]), 3)| == 3
  {
    var rs := Ranks(all);
    PoolCounts(all);
    SumDrop(rs, [p]);
    ExcludeOne(rs, p);
    DropMembers(Tally(rs), [p]);
    SumBound(Drop(Tally(rs), [p]), 1);
  }

  /** For 6 or 7 different cards the tie-break list has the category's arity: 1 for the
      straights, 2 for four of a kind and full house, 3 for three of a kind and two pair,
      4 for a pair and 5 for flush and high card. The one exception is a 6-card pool with
      two triples classified Three of a Kind, whose list holds just the two triples. */

  lemma TieBreakArity(player: seq<Card>, community: seq<Card>)
    requires 6 <= |player + community| <= 7 && Distinct(player + community)
    ensures TieBreaksFit(player + community, Evaluate(player, community))
    ensures |player + community| == 7 ==>
      |Evaluate(player, community).tieBreaks| == Arity(Evaluate(player, community).rank)
  {
    if FlushStraight(player + community).None? {
      NoStraightFlushArity(player, community);
    } else {
      EvaluateCases(player, community);
      StraightFlushArity(Evaluate(player, community), FlushStraight(player + community).value);
    }
  }

  /** A straight flush carries its high card alone. */
  lemma StraightFlushArity(e: Evaluation, v: Rank)
    requires e == Evaluation(if v == Ace then RoyalFlush else StraightFlush, [v])
    ensures |e.tieBreaks| == Arity(e.rank) == 1
  {
  }

  /** Without a straight in the flush suit, the evaluation is the one by rank counts. */
  lemma NoStraightFlushArity(player: seq<Card>, community: seq<Card>)
    requires 6 <= |player + community| <= 7 && Distinct(player + community)
    requires FlushStraight(player + community).None?
    ensures TieBreaksFit(player + community, Evaluate(player, community))
  {
    var all := player + community;
    DistinctAtMostFour(all);
    EvaluateCases(player, community);
    FlushSuitMeaning(all);
    ByCountsArity(all, FlushSuit(all), StraightHigh(Ranks(all)));
  }

  lemma ByCountsArity(all: seq<Card>, flush: Option<Suit>, straight: Option<Rank>)
    requires 6 <= |all| <= 7 && AtMostFourEach(all)
    requires flush.Some? ==> multiset(Suits(all))[flush.value] >= 5
    ensures TieBreaksFit(all, ByCounts(all, flush, straight))
  {
    if FirstWithCount(Tally(Ranks(all)), 4) < |Tally(Ranks(all))| {
      QuadCase(all, flush, straight);
      ExactArityFits(all, ByCounts(all, flush, straight));
    } else {
      NoQuadCase(all, flush, straight);
      ByGroupsArity(all, flush, straight);
    }
  }

  /** Four of a kind: the quad and one kicker. */
  lemma QuadCase(all: seq<Card>, flush: Option<Suit>, straight: Option<Rank>)
    requires 6 <= |all| && AtMostFourEach(all)
    requires FirstWithCount(Tally(Ranks(all)), 4) < |Tally(Ranks(all))|
    ensures ByCounts(all, flush, straight).rank == FourOfAKind
    ensures |ByCounts(all, flush, straight).tieBreaks| == 2
  {
    var t := Tally(Ranks(all));
    var q := FirstWithCount(t, 4);
    assert t[q] in t;
    QuadArity(all, t[q].0);
  }

  /** Without a quad, the evaluation is decided by the grouped ranks. */
  lemma NoQuadCase(all: seq<Card>, flush: Option<Suit>, straight: Option<Rank>)
    requires FirstWithCount(Tally(Ranks(all)), 4) == |Tally(Ranks(all))|
    ensures ByCounts(all, flush, straight) ==
      ByGroups(all, flush, straight, Tally(Ranks(all)), Grouped(Tally(Ranks(all))))
  {
  }

  /** Four of a Kind is reported exactly when no straight flush is found and some rank
      occurs four times in the pool. */
  lemma FourOfAKindClassification(player: seq<Card>, community: seq<Card>)
    ensures var all := player + community;
      Evaluate(player, community).rank == FourOfAKind <==>
        FlushStraight(all).None? && exists r: Rank :: multiset(Ranks(all))[r] == 4
  {
    var all := player + community;
    EvaluateCases(player, community);
    var t := Tally(Ranks(all));
    var q := FirstWithCount(t, 4);
    if FlushStraight(all).None? {
      if q < |t| {
        TallyEntry(Ranks(all), q);
        assert multiset(Ranks(all))[t[q].0] == 4;
      } else {
        NoQuadCase(all, FlushSuit(all), StraightHigh(Ranks(all)));
        forall r: Rank ensures multiset(Ranks(all))[r] != 4 {
          if multiset(Ranks(all))[r] == 4 {
            assert r in Ranks(all);
            TallyKeys(Ranks(all));
            var i :| 0 <= i < |t| && Keys(t)[i] == r;
            TallyEntry(Ranks(all), i);
          }
        }
      }
    }
  }

  lemma ByGroupsArity(all: seq<Card>, flush: Option<Suit>, straight: Option<Rank>)
    requires 6 <= |all| <= 7 && AtMostFourEach(all)
    requires FirstWithCount(Tally(Ranks(all)), 4) == |Tally(Ranks(all))|
    requires flush.Some? ==> multiset(Suits(all))[flush.value] >= 5
    ensures TieBreaksFit(all, ByGroups(all, flush, straight, Tally(Ranks(all)), Grouped(Tally(Ranks(all)))))
  {
    var t := Tally(Ranks(all));
    var g := Grouped(t);
    if (g.three.Some? && |g.pairs| > 0) || flush.Some? || straight.Some? {
      MadeHandArity(all, flush, straight, t, g);
      ExactArityFits(all, ByGroups(all, flush, straight, t, g));
    } else {
      NoStraightArity(all, flush, straight);
    }
  }

  /** Full house, flush and straight carry exactly their category's number of ranks. */
  lemma MadeHandArity(all: seq<Card>, flush: Option<Suit>, straight: Option<Rank>,
                      t: Counts<Rank>, g: Groups)
    requires (g.three.Some? && |g.pairs| > 0) || flush.Some? || straight.Some?
    requires flush.Some? ==> multiset(Suits(all))[flush.value] >= 5
    ensures |ByGroups(all, flush, straight, t, g).tieBreaks| ==
      Arity(ByGroups(all, flush, straight, t, g).rank)
  {
    if !(g.three.Some? && |g.pairs| > 0) && flush.Some? {
      FlushArity(all, flush.value);
    }
  }

  /** The categories below a straight: three of a kind, two pair, pair and high card. */
  lemma NoStraightArity(all: seq<Card>, flush: Option<Suit>, straight: Option<Rank>)
    requires 6 <= |all| <= 7 && AtMostFourEach(all)
    requires FirstWithCount(Tally(Ranks(all)), 4) == |Tally(Ranks(all))|
    requires flush.None? && straight.None?
    requires !(Grouped(Tally(Ranks(all))).three.Some? && |Grouped(Tally(Ranks(all))).pairs| > 0)
    ensures TieBreaksFit(all, ByGroups(all, flush, straight, Tally(Ranks(all)), Grouped(Tally(Ranks(all)))))
  {
    var t := Tally(Ranks(all));
    var g := Grouped(t);
    var e := ByGroups(all, flush, straight, t, g);
    if g.three.Some? {
      TripsCase(all);
      assert e == Evaluation(ThreeOfAKind, [g.three.value] + Take(Kickers(t, [g.three.value]), 2));
    } else {
      NoTripsArity(all, flush, straight);
    }
  }

  /** Two pair, pair and high card. */
  lemma NoTripsArity(all: seq<Card>, flush: Option<Suit>, straight: Option<Rank>)
    requires 6 <= |all| <= 7 && AtMostFourEach(all)
    requires FirstWithCount(Tally(Ranks(all)), 4) == |Tally(Ranks(all))|
    requires flush.None? && straight.None? && Grouped(Tally(Ranks(all))).three.None?
    ensures var e := ByGroups(all, flush, straight, Tally(Ranks(all)), Grouped(Tally(Ranks(all))));
      |e.tieBreaks| == Arity(e.rank)
  {
    var g := Grouped(Tally(Ranks(all)));
    if |g.pairs| >= 2 {
      TwoPairCase(all);
    } else if |g.pairs| > 0 {
      PairCase(all);
    }
  }

  /** A flush lists five ranks of the flush suit. */
  lemma FlushArity(all: seq<Card>, s: Suit)
    requires multiset(Suits(all))[s] >= 5
    ensures |Take(SortDesc(Ranks(OfSuit(all, s))), 5)| == 5
  {
  }

  /** The three-of-a-kind branch of the evaluator. */
  lemma TripsCase(all: seq<Card>)
    requires 6 <= |all| <= 7 && AtMostFourEach(all)
    requires FirstWithCount(Tally(Ranks(all)), 4) == |Tally(Ranks(all))|
    requires Grouped(Tally(Ranks(all))).three.Some?
    ensures var three := Grouped(Tally(Ranks(all))).three.value;
      var k := Take(Kickers(Tally(Ranks(all)), [three]), 2);
      multiset(Ranks(all))[three] == 3 &&
      (|k| == 2 || (|all| == 6 && |k| == 1 && multiset(Ranks(all))[k[0]] == 3))
  {
    var t := Tally(Ranks(all));
    TallyCounts(Ranks(all));
    GroupedFacts(t);
    TripsArity(all, Grouped(t).three.value);
  }

  /** The two-pair branch: the two highest of several different count-2 ranks, higher
      first, then one kicker. */
  lemma TwoPairCase(all: seq<Card>)
    requires 6 <= |all| && AtMostFourEach(all)
    requires Grouped(Tally(Ranks(all))).three.None? && |Grouped(Tally(Ranks(all))).pairs| >= 2
    ensures var top := SortDesc(Grouped(Tally(Ranks(all))).pairs)[..2];
      |top + Take(Kickers(Tally(Ranks(all)), top), 1)| == 3
    ensures var t := Tally(Ranks(all));
      var top := SortDesc(Grouped(t).pairs)[..2];
      top[0] > top[1] && (top[0], 2) in t && (top[1], 2) in t &&
      forall e :: e in t && e.1 == 2 && e.0 != top[0] && e.0 != top[1] ==> e.0 < top[1]
  {
    var t := Tally(Ranks(all));
    TallyCounts(Ranks(all));
    GroupedFacts(t);
    var pairs := Grouped(t).pairs;
    var sorted := SortDesc(pairs);
    SortDescPermutes(pairs);
    PermutationKeepsDistinct(pairs, sorted);
    assert sorted[0] in multiset(pairs) && sorted[1] in multiset(pairs);
    assert sorted[..2] == [sorted[0], sorted[1]];
    TwoPairArity(all, sorted[0], sorted[1]);
    SortDescSorted(pairs);
    assert NotLower(sorted, 0, 1);
    forall e | e in t && e.1 == 2 && e.0 != sorted[0] && e.0 != sorted[1]
      ensures e.0 < sorted[1]
    {
      assert e.0 in multiset(pairs);
      assert e.0 in sorted;
      var k :| 0 <= k < |sorted| && sorted[k] == e.0;
      assert NotLower(sorted, 1, k);
    }
  }

  /** The one-pair branch: every other rank is a singleton. */
  lemma PairCase(all: seq<Card>)
    requires 6 <= |all| && AtMostFourEach(all)
    requires FirstWithCount(Tally(Ranks(all)), 4) == |Tally(Ranks(all))|
    requires Grouped(Tally(Ranks(all))).three.None? && |Grouped(Tally(Ranks(all))).pairs| == 1
    ensures |Take(Kickers(Tally(Ranks(all)), [Grouped(Tally(Ranks(all))).pairs[0]]), 3)| == 3
  {
    var t := Tally(Ranks(all));
    TallyCounts(Ranks(all));
    GroupedFacts(t);
    var p := Grouped(t).pairs[0];
    assert Grouped(t).pairs == [p];
    PoolCounts(all);
    forall e | e in t && e.0 != p ensures e.1 == 1 {
      assert e.1 != 2 && e.1 != 3 && e.1 != 4;
    }
    PairArity(all, p);
  }
}

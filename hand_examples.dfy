/** Concrete hands on which `evaluate_hand` behaves as written: the full-house loop only
    lets a later triple replace the kept one when it is higher, so the outcome can depend
    on the order in which the cards are listed. */
module HandExamples {
  import opened Seqs
  import opened Counting
  import opened Cards
  import opened HandEvaluator
  import opened HandProperties

  /** Three cards of one rank: one entry, counted three times. */
  lemma TripleTally(a: Rank)
    ensures Tally([a, a, a]) == [(a, 3)]
  {
    var none: seq<Rank> := [];
    assert Tally([a]) == [(a, 1)] by {
      TallyAppendNew(none, a);
      assert none + [a] == [a];
    }
    assert Tally([a, a]) == [(a, 2)] by {
      TallyAppendOld([a], [(a, 1)], 0);
      assert [a] + [a] == [a, a];
    }
    TallyAppendOld([a, a], [(a, 2)], 0);
    assert [a, a] + [a] == [a, a, a];
  }

  /** A triple followed by a new rank: the new rank is listed second. */
  lemma TripleThenOneTally(a: Rank, b: Rank)
    requires a != b
    ensures Tally([a, a, a, b]) == [(a, 3), (b, 1)]
  {
    TripleTally(a);
    assert Keys([(a, 3)]) == [a];
    TallyAppendNew([a, a, a], b);
    assert [a, a, a] + [b] == [a, a, a, b];
  }

  /** Two triples, a then b, and (when c is given) a single c: the dictionary lists
      them in that order. */
  lemma TwoTriplesTally(a: Rank, b: Rank)
    requires a != b
    ensures Tally([a, a, a, b, b, b]) == [(a, 3), (b, 3)]
  {
    assert Tally([a, a, a, b, b]) == [(a, 3), (b, 2)] by {
      TripleThenOneTally(a, b);
      TallyAppendOld([a, a, a, b], [(a, 3), (b, 1)], 1);
      assert [a, a, a, b] + [b] == [a, a, a, b, b];
    }
    TallyAppendOld([a, a, a, b, b], [(a, 3), (b, 2)], 1);
    assert [a, a, a, b, b] + [b] == [a, a, a, b, b, b];
  }

  lemma TwoTriplesAndOneTally(a: Rank, b: Rank, c: Rank)
    requires a != b && a != c && b != c
    ensures Tally([a, a, a, b, b, b, c]) == [(a, 3), (b, 3), (c, 1)]
  {
    TwoTriplesTally(a, b);
    assert Keys([(a, 3), (b, 3)]) == [a, b];
    TallyAppendNew([a, a, a, b, b, b], c);
    assert [a, a, a, b, b, b] + [c] == [a, a, a, b, b, b, c];
  }

  /** The full-house loop over two triples: a later higher triple takes over and the
      earlier one becomes a pair; a later lower triple is dropped. A single after them
      changes nothing. */
  lemma TwoTriplesGrouped(a: Rank, b: Rank, rest: Counts<Rank>)
    requires a != b && (rest == [] || (|rest| == 1 && rest[0].1 == 1))
    ensures Grouped([(a, 3), (b, 3)] + rest) ==
      if b > a then Groups(Some(b), [a]) else Groups(Some(a), [])
  {
    var none: Counts<Rank> := [];
    GroupedAppend(none, (a, 3));
    assert none + [(a, 3)] == [(a, 3)];
    GroupedAppend([(a, 3)], (b, 3));
    assert [(a, 3)] + [(b, 3)] == [(a, 3), (b, 3)];
    if rest != [] {
      GroupedAppend([(a, 3), (b, 3)], rest[0]);
      assert [(a, 3), (b, 3)] + [rest[0]] == [(a, 3), (b, 3)] + rest;
    } else {
      assert [(a, 3), (b, 3)] + rest == [(a, 3), (b, 3)];
    }
  }

  /** One more dictionary entry is one more pass of the full-house loop. */
  lemma GroupedAppend(t: Counts<Rank>, e: (Rank, nat))
    ensures Grouped(t + [e]) == GroupStep(Grouped(t), e)
  {
    assert (t + [e])[..|t|] == t;
  }

  /** Only Kings, Fives and Twos: too few ranks for a straight. */
  lemma NoStraightAmongThree(rs: seq<Rank>)
    requires forall r :: r in rs ==> r == King || r == Five || r == Two
    ensures StraightHigh(rs) == None
  {
    StraightHighMeaning(rs);
    assert !IsWheel(rs) by { assert Ace !in rs; }
    forall h ensures !StraightAt(rs, h) {
      assert h - 1 in rs ==> h - 1 == King || h - 1 == Five || h - 1 == Two;
    }
  }

  /** Spades, Hearts and Diamonds twice over and at most one more card: no flush. */
  lemma NoFlushAmongPairs(cards: seq<Card>, extra: seq<Suit>)
    requires Suits(cards) == [Spades, Hearts, Diamonds] + [Spades, Hearts, Diamonds] + extra
    requires |extra| <= 1
    ensures FlushSuit(cards) == None
  {
    FlushSuitMeaning(cards);
    forall s: Suit ensures multiset(Suits(cards))[s] < 5 {
      assert multiset(Suits(cards))[s] ==
        multiset([Spades, Hearts, Diamonds])[s] * 2 + multiset(extra)[s];
    }
  }

  /** With no flush, no straight and no four of a kind, the hand is classified by the
      full-house loop's groups. */
  lemma GroupedEvaluation(player: seq<Card>, community: seq<Card>, t: Counts<Rank>)
    requires FlushSuit(player + community) == None
    requires StraightHigh(Ranks(player + community)) == None
    requires Tally(Ranks(player + community)) == t && FirstWithCount(t, 4) == |t|
    ensures Evaluate(player, community) == ByGroups(player + community, None, None, t, Grouped(t))
  {
  }

  /** Kings, then Fives, then the Two of Clubs. */
  const KingsFirst: seq<Card> := [Card(King, Spades), Card(King, Hearts), Card(King, Diamonds),
    Card(Five, Spades), Card(Five, Hearts), Card(Five, Diamonds), Card(Two, Clubs)]

  /** The same seven cards with the Fives listed first. */
  const FivesFirst: seq<Card> := [Card(Five, Spades), Card(Five, Hearts), Card(Five, Diamonds),
    Card(King, Spades), Card(King, Hearts), Card(King, Diamonds), Card(Two, Clubs)]

  /** The ranks and suits of the Kings-first list, and its split into hole and board. */
  lemma KingsFirstCards()
    ensures KingsFirst[..2] + KingsFirst[2..] == KingsFirst
    ensures Ranks(KingsFirst) == [King, King, King, Five, Five, Five, Two]
    ensures Suits(KingsFirst) == [Spades, Hearts, Diamonds] + [Spades, Hearts, Diamonds] + [Clubs]
  {
  }

  /** The ranks and suits of the Fives-first list, and its split into hole and board. */
  lemma FivesFirstCards()
    ensures FivesFirst[..2] + FivesFirst[2..] == FivesFirst
    ensures Ranks(FivesFirst) == [Five, Five, Five, King, King, King, Two]
    ensures Suits(FivesFirst) == [Spades, Hearts, Diamonds] + [Spades, Hearts, Diamonds] + [Clubs]
  {
  }

  /** The first six cards of the Kings-first list: two triples and no Two. */
  lemma SixCards()
    ensures KingsFirst[..2] + KingsFirst[2..6] == KingsFirst[..6]
    ensures Ranks(KingsFirst[..6]) == [King, King, King, Five, Five, Five]
    ensures Suits(KingsFirst[..6]) == [Spades, Hearts, Diamonds] + [Spades, Hearts, Diamonds] + []
  {
  }

  /** The kickers beside a triple of Kings among Kings, Fives and a Two. */
  lemma KickersBesideKings(t: Counts<Rank>)
    requires t == [(King, 3), (Five, 3), (Two, 1)] || t == [(King, 3), (Five, 3)]
    ensures Kickers(t, [King]) == Keys(t)[1..]
  {
    var t1 := t[1..];
    assert Drop(t1[1..], [King]) == t1[1..];
    assert Drop(t1, [King]) == t1;
    assert Drop(t, [King]) == t1;
    if |t| == 3 {
      assert Keys(t1) == [Five, Two] == Keys(t)[1..];
      assert [Five, Two][1..] == [Two];
      assert SortDesc([Two]) == [Two];
    } else {
      assert Keys(t1) == [Five] == Keys(t)[1..];
    }
  }

  /** What the evaluator computes for the seven cards before classifying them, Kings
      listed first. */
  lemma KingsFirstCounts()
    ensures FlushSuit(KingsFirst) == None && StraightHigh(Ranks(KingsFirst)) == None
    ensures Tally(Ranks(KingsFirst)) == [(King, 3), (Five, 3), (Two, 1)]
    ensures Grouped([(King, 3), (Five, 3), (Two, 1)]) == Groups(Some(King), [])
  {
    KingsFirstCards();
    NoStraightAmongThree(Ranks(KingsFirst));
    NoFlushAmongPairs(KingsFirst, [Clubs]);
    TwoTriplesAndOneTally(King, Five, Two);
    TwoTriplesGrouped(King, Five, [(Two, 1)]);
    assert [(King, 3), (Five, 3)] + [(Two, 1)] == [(King, 3), (Five, 3), (Two, 1)];
  }

  /** The same, Fives listed first. */
  lemma FivesFirstCounts()
    ensures FlushSuit(FivesFirst) == None && StraightHigh(Ranks(FivesFirst)) == None
    ensures Tally(Ranks(FivesFirst)) == [(Five, 3), (King, 3), (Two, 1)]
    ensures Grouped([(Five, 3), (King, 3), (Two, 1)]) == Groups(Some(King), [Five])
  {
    FivesFirstCards();
    NoStraightAmongThree(Ranks(FivesFirst));
    NoFlushAmongPairs(FivesFirst, [Clubs]);
    TwoTriplesAndOneTally(Five, King, Two);
    TwoTriplesGrouped(Five, King, [(Two, 1)]);
    assert [(Five, 3), (King, 3)] + [(Two, 1)] == [(Five, 3), (King, 3), (Two, 1)];
  }

  /** Kings listed before fives: the fives' triple comes second and is lower, so it is
      dropped and the seven cards rate only Three of a Kind, the Fives being a kicker. */
  lemma LowerSecondTripleLost()
    ensures Evaluate(KingsFirst[..2], KingsFirst[2..]) == Evaluation(ThreeOfAKind, [King, Five, Two])
  {
    KingsFirstCards();
    KingsFirstCounts();
    var t: Counts<Rank> := [(King, 3), (Five, 3), (Two, 1)];
    assert FirstWithCount(t, 4) == 3;
    GroupedEvaluation(KingsFirst[..2], KingsFirst[2..], t);
    KickersBesideKings(t);
  }

  /** Fives listed before kings: the higher triple comes second, takes over, and the
      Fives become the pair of a Full House. */
  lemma HigherSecondTripleKept()
    ensures Evaluate(FivesFirst[..2], FivesFirst[2..]) == Evaluation(FullHouse, [King, Five])
  {
    FivesFirstCards();
    FivesFirstCounts();
    var t: Counts<Rank> := [(Five, 3), (King, 3), (Two, 1)];
    assert FirstWithCount(t, 4) == 3;
    GroupedEvaluation(FivesFirst[..2], FivesFirst[2..], t);
    assert SortDesc([Five]) == [Five];
  }

  /** The two lists hold the same cards. */
  lemma SameSevenCards()
    ensures multiset(KingsFirst) == multiset(FivesFirst)
  {
    assert KingsFirst == FivesFirst[3..6] + FivesFirst[..3] + FivesFirst[6..];
    assert FivesFirst == FivesFirst[..3] + FivesFirst[3..6] + FivesFirst[6..];
  }

  /** The classification depends on the order of the cards: the same seven cards, listed
      in two orders, rate Three of a Kind one way and Full House the other. */
  lemma CardOrderMatters()
    ensures multiset(KingsFirst) == multiset(FivesFirst)
    ensures Evaluate(KingsFirst[..2], KingsFirst[2..]).rank == ThreeOfAKind
    ensures Evaluate(FivesFirst[..2], FivesFirst[2..]).rank == FullHouse
  {
    SameSevenCards();
    LowerSecondTripleLost();
    HigherSecondTripleKept();
  }

  /** Six cards holding Kings then Fives: Three of a Kind whose tie-break list is just
      the two triples, shorter than the usual three. */
  lemma SixCardTwoTriples()
    ensures Evaluate(KingsFirst[..2], KingsFirst[2..6]) == Evaluation(ThreeOfAKind, [King, Five])
  {
    SixCards();
    NoStraightAmongThree(Ranks(KingsFirst[..6]));
    NoFlushAmongPairs(KingsFirst[..6], []);
    TwoTriplesTally(King, Five);
    var t: Counts<Rank> := [(King, 3), (Five, 3)];
    assert FirstWithCount(t, 4) == 2;
    GroupedEvaluation(KingsFirst[..2], KingsFirst[2..6], t);
    TwoTriplesGrouped(King, Five, []);
    assert [(King, 3), (Five, 3)] + [] == t;
    KickersBesideKings(t);
  }
}

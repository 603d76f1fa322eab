# Poker hand evaluator and Monte Carlo bot, in Dafny

This project models the core of a small Texas Hold'em bot:

- the card deck;
- the hand evaluator, which classifies a pool of six or seven cards (two hole cards plus the board) into one of ten ordered categories, each with a list of tie-break ranks, and compares two hands over a shared board;
- the Monte Carlo decision loop, which deals random opponents and boards, counts the showdowns won, and stays in the hand when the win ratio is at least one half.

The modules follow the program's structure:

- `Seqs` holds general sequence facts: duplicate-freedom, reversal, removing the first occurrence of an element.
- `Counting` models the dictionaries that `get_rank_counts` and `get_suit_counts` fill.
  - Python dictionaries iterate in insertion order, and the evaluator's result depends on that order.
  - So a dictionary is an association list (`Counts<K>`) kept in first-occurrence order.
  - `Tally(xs)` is the dictionary the counting loop builds.
- `Cards` models cards and the `Deck` class.
  - The class keeps a `seq<Card>` field that `Reset`, `Shuffle`, `Draw` and `DrawMultiple` reassign.
- `HandEvaluator` does two things:
  - It defines each evaluator operation as a specification function: `Tally`, `FlushSuit`, `StraightHigh`, `Grouped`, `Evaluate`, `Compare`.
  - It then runs the source's loops as methods, each proved to compute its function.
- `HandProperties` proves what the evaluator promises:
  - what a flush and a straight mean;
  - that Royal Flush is chosen exactly for an ace-high straight flush;
  - the tie-break arity of every category.
- `HandComparison` proves that `compare_hands` is a lexicographic comparison of (category, tie-breaks). It is antisymmetric and reflexive.
- `HandExamples` exhibits the two quirks of the evaluator on concrete pools.
- `PokerBot` models the parts of the bot that make the decision:
  - the search-tree node (`MCTSNode`) with its counters;
  - the deal of one trial;
  - the backpropagation walk;
  - `make_decision` and `estimate_win_probability`.

Two behaviours of the evaluator are modelled as written and proved as such:

- **The wheel wins early.** `has_straight` returns Five as soon as A-2-3-4-5 is present, so A-2-3-4-5-6 reports a five-high straight (`WheelHidesSixHigh`).
- **A lower second triple is lost.** The full-house loop visits the ranks in first-occurrence order. A triple lower than the one already kept is neither kept nor added to the pairs.
  - So K-K-K-5-5-5-2 classifies as Three of a Kind when the kings come first (`LowerSecondTripleLost`) and as a Full House when the fives come first (`HigherSecondTripleKept`).
  - The category thus depends on the order of the same seven cards (`CardOrderMatters`).
  - On a six-card pool with two triples the same loss leaves only one kicker. Three of a Kind then carries two tie-breaks instead of three (`SixCardTwoTriples`). `TieBreakArity` states the arity with this one exception.

The random shuffle and the wall clock are not modelled. Each trial receives its shuffled deck from the caller: any order of the unseen cards, each once. `ShuffleOfRemaining` proves these are exactly the rearrangements of the deck that `create_deck_without_cards` builds. `make_decision` runs one trial per supplied order.

## Model

| member | source | states |
|---|---|---|
| Cards.SameCard | cards.py:60-63 | two cards are equal exactly when rank and suit agree |
| Cards.FullDeckAt | cards.py:77-81 | the card of suit s and rank r sits at position 13·s + (r − 2): suits in the outer loop, ranks in the inner one |
| Cards.FullDeckComplete | cards.py:77-81 | the full deck has 52 cards, contains every card, and has no duplicates |
| Cards.Without | cards.py:105 | the filtered deck holds exactly the cards of the deck that are not excluded, and is no longer than the deck |
| Cards.WithoutDistinct | cards.py:105 | filtering a duplicate-free deck leaves it duplicate-free |
| Cards.WithoutCardinality | cards.py:105 | filtering removes exactly as many cards as the deck shares with the excluded list |
| Cards.RemainingCards | cards.py:102-106 | the deck without the known cards holds each unknown card once; its size is 52 minus the number of distinct known cards, and 52 − \|known\| when the known cards are distinct |
| Cards.Deck.constructor | cards.py:73-75 | a new deck holds the full 52-card deck |
| Cards.Deck.Reset | cards.py:77-81 | after reset the deck is the full deck in suit-then-rank order |
| Cards.Deck.Shuffle | cards.py:83-84 | the deck becomes the supplied rearrangement of its own cards |
| Cards.Deck.Draw | cards.py:86-87 | on a non-empty deck, returns the last card and leaves the rest unchanged |
| Cards.Deck.DrawMultiple | cards.py:89-93 | removes the last n cards and returns them last-first; the rest are unchanged |
| Cards.Deck.Length | cards.py:95-96 | the length is the number of cards in the deck |
| Cards.Deck.CreateDeckWithoutCards | cards.py:102-106 | a fresh deck holding, in full-deck order, exactly the cards not among the excluded ones |
| HandEvaluator.Ranks | cards.py:184 | the rank list has one entry per card, in card order |
| HandEvaluator.OfSuit | cards.py:191 | the flush cards are exactly the cards of that suit, as many as the suit's count |
| HandEvaluator.GetRankCounts | cards.py:123-129 | the counting loop builds the first-occurrence-ordered rank dictionary Tally(ranks) |
| HandEvaluator.GetSuitCounts | cards.py:132-138 | the counting loop builds the first-occurrence-ordered suit dictionary Tally(suits) |
| Counting.TallyCounts | cards.py:123-138 | the dictionary's keys are distinct and are exactly the elements seen; each count is that element's multiplicity; the counts sum to the number of cards |
| Counting.TallyEntry | cards.py:123-138 | every dictionary entry carries its key's number of occurrences, at least one |
| Counting.TallyOrder | cards.py:123-138 | dictionary order is first-occurrence order: an earlier entry's key first occurs earlier in the input |
| HandEvaluator.HasFlush | cards.py:141-146 | returns the first suit in dictionary order whose count reaches five, or none |
| HandProperties.FlushSuitMeaning | cards.py:141-146 | a reported flush suit occurs at least five times; no flush is reported exactly when every suit occurs fewer than five times |
| HandEvaluator.DistinctAscending | cards.py:150 | the unique-ranks list holds exactly the ranks present |
| HandEvaluator.DistinctAscendingSorted | cards.py:150 | the unique-ranks list is strictly ascending |
| HandEvaluator.HasStraight | cards.py:149-175 | computes StraightHigh: the wheel check first, then the run scan |
| HandEvaluator.ScanRuns | cards.py:163-175 | the run scan returns the highest rank ending five consecutive present ranks, or none |
| HandEvaluator.HighestRun | cards.py:163-175 | a returned high card ends a run of five present ranks, and no higher rank does |
| HandProperties.StraightNeedsFive | cards.py:152-153 | a wheel or any straight needs at least five distinct ranks, so the early exit on fewer loses nothing |
| HandProperties.StraightHighMeaning | cards.py:149-175 | with the wheel present the answer is Five; otherwise a reported high card ends a five-rank run and no higher rank does; none is reported exactly when there is no wheel and no run |
| HandProperties.WheelHidesSixHigh | cards.py:156-161 | A-2-3-4-5-6 holds a six-high run but reports a five-high straight |
| HandProperties.StraightHighMonotone | cards.py:190-193 | a straight among a subset of the ranks implies a straight among all of them |
| HandEvaluator.EvaluateHand | cards.py:178-260 | the evaluator computes Evaluate(player, community) |
| HandProperties.EvaluateCases | cards.py:189-198 | a straight within the flush suit decides first; otherwise the count-based categories decide |
| HandProperties.StraightFlushClassification | cards.py:189-198 | Royal Flush exactly when the straight within the flush suit is ace-high; Straight Flush exactly when it exists and is lower; both carry just that high card |
| HandProperties.ByCountsBelowStraightFlush | cards.py:201-260 | the count-based categories never yield Straight Flush or Royal Flush |
| HandEvaluator.EvaluateByCounts | cards.py:201-208 | the quad check and the rest compute ByCounts |
| HandProperties.QuadCase | cards.py:204-208 | a rank counted four times gives Four of a Kind with two tie-breaks on a pool of six or more |
| HandProperties.FourOfAKindClassification | cards.py:189-208 | Four of a Kind is reported exactly when no straight flush is found and some rank occurs four times in the pool |
| HandEvaluator.GroupRanks | cards.py:211-221 | the full-house loop computes Grouped over the dictionary entries |
| HandProperties.GroupedFacts | cards.py:211-221 | after the loop: pairs are listed once; every count-2 rank is a pair; the kept triple has count 3, is not a pair, and no count-3 rank is higher |
| HandProperties.GroupStepFits | cards.py:214-221 | one loop pass over a new key preserves those facts |
| HandEvaluator.EvaluateByGroups | cards.py:223-260 | the categories after the loop compute ByGroups in priority order |
| HandEvaluator.SortDescPermutes | cards.py:225 | the descending sort is a permutation |
| HandEvaluator.SortDescSorted | cards.py:225 | the descending sort is in non-increasing order |
| HandProperties.FlushArity | cards.py:229-232 | a suit counted five times yields five flush tie-breaks |
| HandProperties.TripsCase | cards.py:239-242 | the kept triple has count three and two kickers follow, except on a six-card pool where the only other rank is a lost second triple |
| HandProperties.TwoPairCase | cards.py:245-250 | Two Pair carries three tie-breaks; the first two are the two highest count-2 ranks, higher first, and every other count-2 rank is below them |
| HandProperties.PairCase | cards.py:253-256 | One Pair carries the pair and three kickers |
| HandProperties.TieBreakArity | cards.py:178-260 | on a pool of six or seven distinct cards every category has its tie-break arity (1 for straights, 2 for quads and full houses, 3 for trips and two pair, 4 for a pair, 5 for a flush and high card); the one exception is a six-card pool with two triples; for seven cards the arity is exact |
| HandExamples.LowerSecondTripleLost | cards.py:214-221 | K-K-K-5-5-5-2 with the kings first classifies as Three of a Kind [K, 5, 2] |
| HandExamples.HigherSecondTripleKept | cards.py:214-226 | the same cards with the fives first classify as Full House [K, 5] |
| HandExamples.CardOrderMatters | cards.py:214-221 | the same seven cards give a different category depending on their order |
| HandExamples.SixCardTwoTriples | cards.py:239-242 | K-K-K-5-5-5 classifies as Three of a Kind with just two tie-breaks [K, 5] |
| HandEvaluator.CompareHands | cards.py:263-283 | the comparison computes Compare over the two evaluations |
| HandEvaluator.CompareTieBreaks | cards.py:276-283 | the zip loop computes TieBreakCompare |
| HandComparison.TieBreakCompareMeaning | cards.py:276-283 | the result is 1 exactly when the first list is higher at the first difference, 2 exactly when the second is, and 0 exactly when the lists agree on their common length |
| HandComparison.CompareEvaluationsMeaning | cards.py:269-283 | the same three iffs for (category value, tie-breaks): a higher category always wins, and equal categories are decided by the first differing tie-break |
| HandComparison.TieBreakCompareSwap | cards.py:276-283 | swapping the lists swaps 1 and 2 and keeps 0 |
| HandComparison.TieBreakCompareSelf | cards.py:276-283 | a list compared with itself is a push |
| HandComparison.CompareSwap | cards.py:263-283 | swapping the two hole-card pairs swaps 1 and 2 and keeps 0 |
| HandComparison.CompareSelf | cards.py:263-283 | identical hole cards give a push |
| PokerBot.MCTSNode.constructor | poker_bot.py:7-12 | a new node has the given parent, zero counters, no children and no untried actions |
| PokerBot.MCTSNode.Expand | poker_bot.py:32-44 | a fresh child whose parent is the node is stored under the action; the first occurrence of the action leaves the untried list, which shrinks by one when it held the action; nothing else changes; the node is then fully expanded (`is_fully_expanded`) exactly when the untried list was empty or held just that action |
| PokerBot.ExpandLast | poker_bot.py:32-44 | after expanding, the node is fully expanded exactly when the untried list was empty or held just that action |
| PokerBot.MCTSNode.Update | poker_bot.py:39-41 | one more simulation, wins increased by the result, nothing else changed; wins ≤ simulations is preserved for results 0 and 1 |
| PokerBot.Needed | poker_bot.py:80-83 | the board is completed to five cards, or left as it is when it already has five or more |
| PokerBot.ShuffleOfRemaining | poker_bot.py:72-74 | the allowed deal orders are exactly the rearrangements of the deck without the known cards |
| PokerBot.DealTrial | poker_bot.py:72-83 | the deal gives the opponent the last two cards of the shuffled deck and completes the board with the next cards popped |
| PokerBot.BoardShape | poker_bot.py:79-83 | the dealt board has the completed size, starts with the known community cards, and continues with the popped cards |
| PokerBot.DealtAreTail | poker_bot.py:76-83 | the opponent's cards and the new board cards are, together, exactly the bottom of the shuffled deck |
| PokerBot.DealtCardsFresh | poker_bot.py:72-83 | the opponent gets two cards; the board has five cards with the known community as prefix; the dealt cards are distinct and none is a known card |
| PokerBot.TrialWin | poker_bot.py:86-88 | a trial counts 1 exactly when compare_hands returns 1; a push counts as a loss |
| PokerBot.RunSimulation | poker_bot.py:70-95 | every node on the parent chain gets one more simulation and the trial's win, once; nothing else changes; wins ≤ simulations is preserved |
| PokerBot.Backpropagate | poker_bot.py:91-95 | the walk up the parent chain updates each node exactly once and changes nothing else |
| PokerBot.SimulateAtRoot | poker_bot.py:92-95 | from a root without a parent, only the root is updated: one more simulation, and its wins increased by the trial's win; its parent, children and untried actions are unchanged |
| PokerBot.DecideByCounts | poker_bot.py:64-68 | the bot stays exactly when at least one simulation ran and 2·wins ≥ simulations; with none it folds |
| PokerBot.WinProbabilityBounds | poker_bot.py:64 | with wins ≤ simulations the win ratio lies in [0, 1] |
| PokerBot.MakeDecision | poker_bot.py:51-68 | the decision is the threshold applied to the wins over all trials and the number of trials |
| PokerBot.WinCount | poker_bot.py:99-119 | the number of trials won never exceeds the number of trials |
| PokerBot.WinCountStep | poker_bot.py:101-119 | each further trial adds its own win to the count |
| PokerBot.EstimateWinProbability | poker_bot.py:97-121 | the estimate is the share of trials won, between 0 and 1 |

## Left out

- `random.shuffle` (cards.py:84, poker_bot.py:74, poker_bot.py:104): the shuffled order is a parameter. The model says nothing about randomness or about how the estimate converges.
- The wall-clock loop of `make_decision` (poker_bot.py:54-59) and `time_limit` (poker_bot.py:48-49): `MakeDecision` runs one trial per supplied order. The count of trials is the length of that list.
- `ucb1` and `select_child` (poker_bot.py:14-30): they use floating-point `sqrt` and `log`, and nothing calls them.
- The float win probability: it is an exact `real` computed from the integer counters, so rounding is not modelled.
- `Suit.__str__`, `Rank.__str__`, `Card.__str__`/`__repr__`, `Deck.print_cards` and the `print` calls are display only.
- `play_hand` and `main` (poker_bot.py:124-196) only deal and narrate a game.
- Cards.SameCard: the `isinstance` check of `__eq__` is not modelled, because every compared value is a card.
- Cards.Deck.Draw: popping an empty deck raises `IndexError` in Python. The model requires a non-empty deck instead, and `DrawMultiple` requires at most as many draws as cards.
- PokerBot.EstimateWinProbability: requires at least one trial, because with none the division at poker_bot.py:121 raises `ZeroDivisionError`.
- PokerBot.EstimateWinProbability: the default of 100000 simulations (poker_bot.py:98) is not modelled; the number of trials is the length of the supplied list of shuffles.
- PokerBot.DealTrial: requires enough unseen cards for the deal (`CanDeal`). With at most seven known cards there are always 45.
- PokerBot.MCTSNode.Expand: actions are modelled as natural numbers, because the bot never creates a child and never states what an action is.
- HandProperties.TieBreakArity: for six-card pools the per-category arity holds except for two triples classified as Three of a Kind with two tie-breaks, as the code computes. The exact arity is stated for seven-card pools.
- Evaluator and deal results are proved on pools of distinct cards, as dealt from one deck. A pool with repeated cards is still evaluated, but its arity is not stated.

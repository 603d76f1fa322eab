/** The Monte Carlo bot: each trial deals the opponent's hole cards and the rest of the
    board from a shuffled deck of the unseen cards, plays the showdown, and records a
    win only when the bot's hand is strictly better. The shuffles are supplied by the
    caller (one per trial) in place of the random generator and the wall clock. */
module PokerBot {
  import opened Seqs
  import opened Cards
  import opened HandEvaluator

  /** The key of a child in the search tree; the bot never creates any. */
  type Action = nat

  /** A node of the search tree: its parent, its win and simulation counters, its
      children by action and the actions not yet tried. */
  class MCTSNode {
    var parent: MCTSNode?
    var wins: nat
    var simulations: nat
    var children: map<Action, MCTSNode>
    var untriedActions: seq<Action>

    /** No more wins than simulations, as long as every update records 0 or 1. */
    predicate Consistent()
      reads this
    {
      wins <= simulations
    }

    constructor(parent: MCTSNode?)
      ensures this.parent == parent
      ensures wins == 0 && simulations == 0
      ensures children == map[] && untriedActions == []
    {
      this.parent := parent;
      wins := 0;
      simulations := 0;
      children := map[];
      untriedActions := [];
    }

    /** `expand(action)`: a fresh child of this node under action, and action struck
        from the untried list (its first occurrence, as `list.remove` does). The node is
        then fully expanded exactly when no other action was left untried. */
    method Expand(action: Action) returns (child: MCTSNode)
      modifies this
      ensures fresh(child)
      ensures child.parent == this && child.wins == 0 && child.simulations == 0
      ensures child.children == map[] && child.untriedActions == []
      ensures children == old(children)[action := child]
      ensures untriedActions == RemoveFirst(old(untriedActions), action)
      ensures action in old(untriedActions) ==> |untriedActions| == |old(untriedActions)| - 1
      ensures parent == old(parent) && wins == old(wins) && simulations == old(simulations)
      ensures IsFullyExpanded() <==> old(untriedActions) == [] || old(untriedActions) == [action]
    {
      child := new MCTSNode(this);
      children := children[action := child];
      if action in untriedActions {
        untriedActions := RemoveFirst(untriedActions, action);
      }
      ExpandLast(old(untriedActions), action);
    }

    /** `update(result)`: one more simulation, result more wins; a 0 or 1 result keeps
        the node consistent. */
    method Update(result: nat)
      modifies this
      ensures simulations == old(simulations) + 1
      ensures wins == old(wins) + result
      ensures parent == old(parent) && children == old(children)
      ensures untriedActions == old(untriedActions)
      ensures old(Consistent()) && result <= 1 ==> Consistent()
    {
      simulations := simulations + 1;
      wins := wins + result;
    }

    /** `is_fully_expanded`. */
    predicate IsFullyExpanded()
      reads this
    {
      |untriedActions| == 0
    }
  }

  /** Expanding the last untried action leaves the node fully expanded; expanding any
      other leaves it not fully expanded. */
  lemma ExpandLast(untried: seq<Action>, action: Action)
    ensures |RemoveFirst(untried, action)| == 0 <==>
      untried == [] || untried == [action]
  {
    if action in untried {
      var i :| 0 <= i < |untried| && untried[i] == action;
      assert |RemoveFirst(untried, action)| == |untried| - 1;
      if |untried| == 1 {
        assert untried == [untried[0]];
      }
    }
  }

  // ---------------------------------------------------------------------------
  // Dealing one trial

  /** `cards_needed`: the board cards still to come, none once five are known. */
  function Needed(community: seq<Card>): (n: nat)
    ensures |community| + n == if |community| <= 5 then 5 else |community|
  {
    if 5 - |community| > 0 then 5 - |community| else 0
  }

  /** The shuffled deck of a trial: every card not among the known ones, once each, in
      some order (ShuffleOfRemaining shows it is a rearrangement of that deck). */
  ghost predicate ShuffledRemaining(order: seq<Card>, known: seq<Card>) {
    Distinct(order) && forall c :: c in order <==> c !in known
  }

  /** Two duplicate-free lists with the same elements are rearrangements of each other. */
  lemma SameElementsPermutation<T>(a: seq<T>, b: seq<T>)
    requires Distinct(a) && Distinct(b) && forall x :: x in a <==> x in b
    ensures multiset(a) == multiset(b)
  {
    forall x ensures multiset(a)[x] == multiset(b)[x] {
      DistinctAtMostOnce(a, x);
      DistinctAtMostOnce(b, x);
      assert x in a <==> x in multiset(a);
      assert x in b <==> x in multiset(b);
    }
  }

  /** The orders allowed for a trial are exactly the rearrangements of the deck that
      `create_deck_without_cards` builds, the ones `shuffle` can produce. */
  lemma ShuffleOfRemaining(order: seq<Card>, known: seq<Card>)
    ensures ShuffledRemaining(order, known) <==> multiset(order) == multiset(Remaining(known))
  {
    RemainingCards(known);
    if ShuffledRemaining(order, known) {
      SameElementsPermutation(order, Remaining(known));
    }
    if multiset(order) == multiset(Remaining(known)) {
      PermutationKeepsDistinct(Remaining(known), order);
      forall c ensures c in order <==> c !in known {
        assert c in order <==> c in multiset(order);
        assert c in Remaining(known) <==> c in multiset(Remaining(known));
      }
    }
  }

  /** Enough unseen cards for the opponent and the rest of the board. */
  predicate CanDeal(order: seq<Card>, community: seq<Card>) {
    |order| >= 2 + Needed(community)
  }

  /** The opponent's hole cards: the last two of the shuffled deck, drawn from the end. */
  function Opponent(order: seq<Card>): seq<Card>
    requires |order| >= 2
  {
    Reversed(order[|order| - 2..])
  }

  /** The board after the deal: the known community cards, then the next cards popped. */
  function Board(community: seq<Card>, order: seq<Card>): seq<Card>
    requires CanDeal(order, community)
  {
    community + Reversed(order[|order| - 2 - Needed(community)..|order| - 2])
  }

  /** A trial counts as a win only when `compare_hands` says the bot's hand is higher;
      a push counts as a loss. */
  function TrialWin(hole: seq<Card>, community: seq<Card>, order: seq<Card>): (w: nat)
    requires CanDeal(order, community)
    ensures w <= 1
    ensures w == 1 <==> Compare(hole, Opponent(order), Board(community, order)) == 1
  {
    if Compare(hole, Opponent(order), Board(community, order)) == 1 then 1 else 0
  }

  /** The number of won trials over a list of shuffles, counted in order. */
  function WinCount(hole: seq<Card>, community: seq<Card>, orders: seq<seq<Card>>): (n: nat)
    requires forall i :: 0 <= i < |orders| ==> CanDeal(orders[i], community)
    ensures n <= |orders|
  {
    if orders == [] then 0
    else
      WinCount(hole, community, orders[..|orders| - 1]) +
      TrialWin(hole, community, orders[|orders| - 1])
  }

  /** The board keeps the known community cards in front of the newly dealt ones. */
  lemma BoardShape(community: seq<Card>, order: seq<Card>)
    requires CanDeal(order, community)
    ensures |Board(community, order)| == |community| + Needed(community)
    ensures Board(community, order)[..|community|] == community
    ensures Board(community, order)[|community|..] ==
      Reversed(order[|order| - 2 - Needed(community)..|order| - 2])
  {
  }

  /** Counting one more trial. */
  lemma WinCountStep(hole: seq<Card>, community: seq<Card>, orders: seq<seq<Card>>, t: nat)
    requires t < |orders| && forall i :: 0 <= i < |orders| ==> CanDeal(orders[i], community)
    ensures WinCount(hole, community, orders[..t + 1]) ==
      WinCount(hole, community, orders[..t]) + TrialWin(hole, community, orders[t])
  {
    assert orders[..t + 1][..t] == orders[..t];
  }

  /** The cards a trial deals, in dealing order: the opponent's two, then the new board
      cards. They are the last 2 + Needed(community) cards of the shuffled deck. */
  lemma DealtAreTail(community: seq<Card>, order: seq<Card>)
    requires CanDeal(order, community)
    ensures multiset(Opponent(order) + Board(community, order)[|community|..]) ==
      multiset(order[|order| - 2 - Needed(community)..])
  {
    var n := |order|;
    var k := Needed(community);
    var top := order[n - 2..];
    var below := order[n - 2 - k..n - 2];
    var board := Board(community, order);
    assert board == community + Reversed(below);
    assert board[|community|..] == Reversed(below);
    assert Opponent(order) + board[|community|..] == Reversed(top) + Reversed(below);
    assert order[n - 2 - k..] == below + top;
    ReversedPairPermutes(top, below);
  }

  /** Two lists each drawn in reverse hold together the cards of both. */
  lemma ReversedPairPermutes<T>(a: seq<T>, b: seq<T>)
    ensures multiset(Reversed(a) + Reversed(b)) == multiset(b + a)
  {
    ReversedPermutes(a);
    ReversedPermutes(b);
  }

  /** A slice of a duplicate-free list is duplicate-free and holds only its cards. */
  lemma SuffixOfDistinct(order: seq<Card>, from: nat)
    requires Distinct(order) && from <= |order|
    ensures Distinct(order[from..])
    ensures forall c :: c in order[from..] ==> c in order
  {
    var tail := order[from..];
    forall i, j | 0 <= i < j < |tail| ensures tail[i] != tail[j] {
      assert tail[i] == order[from + i] && tail[j] == order[from + j];
    }
  }

  /** The cards a trial deals are all different, none of them is known already, the
      opponent gets two, and the board holds the known community cards followed by
      enough new ones to make five. */
  lemma DealtCardsFresh(hole: seq<Card>, community: seq<Card>, order: seq<Card>)
    requires ShuffledRemaining(order, hole + community) && CanDeal(order, community)
    ensures |Opponent(order)| == 2
    ensures |Board(community, order)| == if |community| <= 5 then 5 else |community|
    ensures Board(community, order)[..|community|] == community
    ensures Distinct(Opponent(order) + Board(community, order)[|community|..])
    ensures forall c :: c in Opponent(order) + Board(community, order)[|community|..] ==>
      c !in hole + community
  {
    var known := hole + community;
    BoardShape(community, order);
    DealtAreTail(community, order);
    var dealt := Opponent(order) + Board(community, order)[|community|..];
    var tail := order[|order| - 2 - Needed(community)..];
    SuffixOfDistinct(order, |order| - 2 - Needed(community));
    PermutationKeepsDistinct(tail, dealt);
    forall c | c in dealt ensures c !in known {
      assert c in multiset(dealt);
    }
  }

  // ---------------------------------------------------------------------------
  // The bot

  /** The parent chain from a node up to the root: each node's parent is the next one,
      the last has none, and no node repeats. */
  ghost predicate ParentChain(path: seq<MCTSNode>)
    reads set n | n in path
  {
    |path| > 0 &&
    (forall i :: 0 <= i < |path| - 1 ==> path[i].parent == path[i + 1]) &&
    path[|path| - 1].parent == null &&
    Distinct(path)
  }

  /** The win probability `make_decision` computes, 0 before any simulation. */
  function WinProbability(wins: nat, simulations: nat): real {
    if simulations > 0 then wins as real / simulations as real else 0.0
  }

  /** Stay exactly when the win probability is at least one half. */
  function Decide(wins: nat, simulations: nat): bool {
    WinProbability(wins, simulations) >= 0.5
  }

  /** The decision in whole numbers: stay iff at least one simulation ran and the wins
      are at least half of them. */
  lemma DecideByCounts(wins: nat, simulations: nat)
    ensures Decide(wins, simulations) <==> simulations > 0 && 2 * wins >= simulations
  {
    if simulations > 0 {
      var p := wins as real / simulations as real;
      assert p * simulations as real == wins as real;
      if 2 * wins >= simulations {
        assert p >= 0.5 by {
          if p < 0.5 {
            assert p * simulations as real < 0.5 * simulations as real;
          }
        }
      }
    }
  }

  /** A win ratio of consistent counters lies between 0 and 1. */
  lemma WinProbabilityBounds(wins: nat, simulations: nat)
    requires wins <= simulations
    ensures 0.0 <= WinProbability(wins, simulations) <= 1.0
  {
    if simulations > 0 {
      var p := wins as real / simulations as real;
      assert p * simulations as real == wins as real;
      assert p <= 1.0 by {
        if p > 1.0 {
          assert p * simulations as real > simulations as real;
        }
      }
    }
  }

  /** The deal of one trial: a deck without the known cards, shuffled into order, two
      cards for the opponent, then the board completed to five. */
  method DealTrial(hole: seq<Card>, community: seq<Card>, order: seq<Card>)
    returns (opponent: seq<Card>, board: seq<Card>)
    requires ShuffledRemaining(order, hole + community) && CanDeal(order, community)
    ensures opponent == Opponent(order) && board == Board(community, order)
  {
    var known := hole + community;
    var deck := Deck.CreateDeckWithoutCards(known);
    ShuffleOfRemaining(order, known);
    deck.Shuffle(order);
    opponent := deck.DrawMultiple(2);
    board := community;
    var needed := 5 - |community|;
    if needed > 0 {
      var more := deck.DrawMultiple(needed);
      board := board + more;
    } else {
      assert order[|order| - 2..|order| - 2] == [];
    }
  }

  /** `run_simulation`: deal one trial, play the showdown, and add the outcome to every
      node from root up the parent chain, each exactly once. Nothing else changes. */
  method RunSimulation(root: MCTSNode, ghost path: seq<MCTSNode>,
                       hole: seq<Card>, community: seq<Card>, order: seq<Card>)
    requires ParentChain(path) && path[0] == root
    requires ShuffledRemaining(order, hole + community) && CanDeal(order, community)
    modifies set n | n in path
    ensures forall n :: n in path ==> n.simulations == old(n.simulations) + 1
    ensures forall n :: n in path ==>
      n.wins == old(n.wins) + TrialWin(hole, community, order)
    ensures forall n :: n in path ==>
      (n.parent == old(n.parent) && n.children == old(n.children) &&
       n.untriedActions == old(n.untriedActions))
    ensures forall n :: n in path && old(n.Consistent()) ==> n.Consistent()
  {
    var opponent, board := DealTrial(hole, community, order);
    var result := CompareHands(hole, opponent, board);
    var win := if result == 1 then 1 else 0;
    Backpropagate(root, path, win);
  }

  /** The backpropagation walk of `run_simulation`: from root up the parent chain, each
      node updated with win exactly once. */
  method Backpropagate(root: MCTSNode, ghost path: seq<MCTSNode>, win: nat)
    requires ParentChain(path) && path[0] == root
    modifies set n | n in path
    ensures forall n :: n in path ==> n.simulations == old(n.simulations) + 1
    ensures forall n :: n in path ==> n.wins == old(n.wins) + win
    ensures forall n :: n in path ==>
      (n.parent == old(n.parent) && n.children == old(n.children) &&
       n.untriedActions == old(n.untriedActions))
    ensures forall n :: n in path && old(n.Consistent()) && win <= 1 ==> n.Consistent()
  {
    var node: MCTSNode? := root;
    ghost var i := 0;
    while node != null
      invariant 0 <= i <= |path|
      invariant node == if i < |path| then path[i] else null
      invariant forall j :: 0 <= j < |path| ==>
        (path[j].parent == old(path[j].parent) && path[j].children == old(path[j].children) &&
         path[j].untriedActions == old(path[j].untriedActions))
      invariant forall j :: 0 <= j < i ==>
        path[j].simulations == old(path[j].simulations) + 1 &&
        path[j].wins == old(path[j].wins) + win
      invariant forall j :: i <= j < |path| ==>
        path[j].simulations == old(path[j].simulations) && path[j].wins == old(path[j].wins)
      decreases |path| - i
    {
      node.Update(win);
      forall j | i < j < |path| ensures path[j] != path[i] {
        assert path[j] in path;
      }
      node := node.parent;
      i := i + 1;
    }
    forall n | n in path ensures n.simulations == old(n.simulations) + 1 &&
      n.wins == old(n.wins) + win {
      var j :| 0 <= j < |path| && path[j] == n;
    }
  }

  /** One trial from a root that has no parent: the path is the root alone. */
  method SimulateAtRoot(root: MCTSNode, hole: seq<Card>, community: seq<Card>, order: seq<Card>)
    requires root.parent == null
    requires ShuffledRemaining(order, hole + community) && CanDeal(order, community)
    modifies root
    ensures root.parent == null
    ensures root.simulations == old(root.simulations) + 1
    ensures root.wins == old(root.wins) + TrialWin(hole, community, order)
    ensures root.children == old(root.children) && root.untriedActions == old(root.untriedActions)
  {
    assert ParentChain([root]);
    assert (set n | n in [root]) == {root};
    RunSimulation(root, [root], hole, community, order);
    assert root in [root];
  }

  /** `make_decision`, one trial per supplied shuffle: a fresh root collects every
      outcome, and the bot stays exactly when the root's win ratio is at least one half. */
  method MakeDecision(hole: seq<Card>, community: seq<Card>, orders: seq<seq<Card>>)
    returns (stay: bool)
    requires forall i :: 0 <= i < |orders| ==>
      ShuffledRemaining(orders[i], hole + community) && CanDeal(orders[i], community)
    ensures stay == Decide(WinCount(hole, community, orders), |orders|)
  {
    var root := new MCTSNode(null);
    var simulations := 0;
    for t := 0 to |orders|
      invariant root.parent == null
      invariant root.simulations == t && simulations == t
      invariant root.wins == WinCount(hole, community, orders[..t])
    {
      WinCountStep(hole, community, orders, t);
      SimulateAtRoot(root, hole, community, orders[t]);
      simulations := simulations + 1;
    }
    assert orders[..|orders|] == orders;
    stay := Decide(root.wins, root.simulations);
  }

  /** `estimate_win_probability`, one trial per supplied shuffle: the share of trials
      won, a number between 0 and 1. */
  method EstimateWinProbability(hole: seq<Card>, community: seq<Card>, orders: seq<seq<Card>>)
    returns (p: real)
    requires |orders| > 0
    requires forall i :: 0 <= i < |orders| ==>
      ShuffledRemaining(orders[i], hole + community) && CanDeal(orders[i], community)
    ensures p == WinCount(hole, community, orders) as real / |orders| as real
    ensures 0.0 <= p <= 1.0
  {
    var wins := 0;
    for t := 0 to |orders|
      invariant wins == WinCount(hole, community, orders[..t])
    {
      WinCountStep(hole, community, orders, t);
      var opponent, board := DealTrial(hole, community, orders[t]);
      var result := CompareHands(hole, opponent, board);
      if result == 1 {
        wins := wins + 1;
      }
    }
    assert orders[..|orders|] == orders;
    p := wins as real / |orders| as real;
    WinProbabilityBounds(wins, |orders|);
  }
}

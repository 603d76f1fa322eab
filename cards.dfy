/** Playing cards and the list-backed deck: 52 cards built suit by suit, drawn from the
    end of the list, and a deck that leaves out cards already known. */
module Cards {
  import opened Seqs

  datatype Suit = Hearts | Diamonds | Clubs | Spades

  /** The four suits in declaration order, the order `for suit in Suit` visits them. */
  const AllSuits: seq<Suit> := [Hearts, Diamonds, Clubs, Spades]

  /** A rank is its enum value: 2 for Two up to 14 for Ace. */
  type Rank = v: int | 2 <= v <= 14 witness 2

  const Two: Rank := 2
  const Three: Rank := 3
  const Four: Rank := 4
  const Five: Rank := 5
  const Six: Rank := 6
  const King: Rank := 13
  const Ace: Rank := 14

  datatype Card = Card(rank: Rank, suit: Suit)

  /** `Card.__eq__`: two cards are equal when rank and suit agree. */
  function SameCard(a: Card, b: Card): (r: bool)
    ensures r <==> a.rank == b.rank && a.suit == b.suit
  {
    a == b
  }

  /** Position of a suit in declaration order. */
  function SuitIndex(s: Suit): (i: nat)
    ensures i < 4 && AllSuits[i] == s
  {
    match s
    case Hearts => 0
    case Diamonds => 1
    case Clubs => 2
    case Spades => 3
  }

  /** The deck as `reset` leaves it: suit by suit, each suit from Two to Ace. */
  function FullDeck(): (d: seq<Card>)
    ensures |d| == 52
  {
    seq(52, i requires 0 <= i < 52 => Card(2 + i % 13, AllSuits[i / 13]))
  }

  /** The cards of s not equal to any card of excluded, in their order in s. */
  function Without(s: seq<Card>, excluded: seq<Card>): (r: seq<Card>)
    ensures |r| <= |s|
    ensures forall c :: c in r <==> c in s && c !in excluded
  {
    if s == [] then []
    else
      var rest := Without(s[1..], excluded);
      assert forall c :: c in s <==> c == s[0] || c in s[1..];
      if s[0] in excluded then rest else [s[0]] + rest
  }

  /** The cards left once the known cards are taken out of a fresh deck. */
  function Remaining(known: seq<Card>): seq<Card> {
    Without(FullDeck(), known)
  }

  // ---------------------------------------------------------------------------
  // Properties of the full deck and of exclusion

  /** Every card sits in the full deck at the position `reset` gives it. */
  lemma FullDeckAt(c: Card)
    ensures 13 * SuitIndex(c.suit) + (c.rank - 2) < 52
    ensures FullDeck()[13 * SuitIndex(c.suit) + (c.rank - 2)] == c
  {
    var i := 13 * SuitIndex(c.suit) + (c.rank - 2);
    assert i / 13 == SuitIndex(c.suit) && i % 13 == c.rank - 2;
  }

  /** `reset` leaves 52 cards, one for each (rank, suit) pair, all different. */
  lemma FullDeckComplete()
    ensures |FullDeck()| == 52
    ensures forall c: Card :: c in FullDeck()
    ensures Distinct(FullDeck())
  {
    forall c: Card ensures c in FullDeck() {
      FullDeckAt(c);
    }
    forall i, j | 0 <= i < j < 52 ensures FullDeck()[i] != FullDeck()[j] {
      assert FullDeck()[i].rank == 2 + i % 13 && FullDeck()[j].rank == 2 + j % 13;
    }
  }

  /** Filtering a duplicate-free list keeps it duplicate-free. */
  lemma {:induction false} WithoutDistinct(s: seq<Card>, excluded: seq<Card>)
    requires Distinct(s)
    ensures Distinct(Without(s, excluded))
  {
    if s != [] {
      assert Distinct(s[1..]) by {
        forall i, j | 0 <= i < j < |s[1..]| ensures s[1..][i] != s[1..][j] {
          assert s[1..][i] == s[i + 1] && s[1..][j] == s[j + 1];
        }
      }
      WithoutDistinct(s[1..], excluded);
      var rest := Without(s[1..], excluded);
      if s[0] !in excluded {
        assert s[0] !in rest by {
          forall k | 0 <= k < |s[1..]| ensures s[1..][k] != s[0] {
            assert s[1..][k] == s[k + 1];
          }
        }
        var r := [s[0]] + rest;
        forall i, j | 0 <= i < j < |r| ensures r[i] != r[j] {
          if i == 0 {
            assert r[j] == rest[j - 1];
          } else {
            assert r[i] == rest[i - 1] && r[j] == rest[j - 1];
          }
        }
      }
    }
  }

  /** A duplicate-free list has as many elements as its set. */
  lemma {:induction false} DistinctCardinality(s: seq<Card>)
    requires Distinct(s)
    ensures |set c | c in s| == |s|
  {
    if s != [] {
      var t := s[1..];
      assert Distinct(t) by {
        forall i, j | 0 <= i < j < |t| ensures t[i] != t[j] {
          assert t[i] == s[i + 1] && t[j] == s[j + 1];
        }
      }
      DistinctCardinality(t);
      assert s[0] !in t by {
        forall k | 0 <= k < |t| ensures t[k] != s[0] {
          assert t[k] == s[k + 1];
        }
      }
      assert (set c | c in s) == (set c | c in t) + {s[0]};
    }
  }

  /** The length of a duplicate-free list equals the number of distinct elements it keeps
      plus the number it drops. */
  lemma {:induction false} WithoutCardinality(s: seq<Card>, excluded: seq<Card>)
    requires Distinct(s)
    ensures |Without(s, excluded)| == |s| - |set c | c in s && c in excluded|
  {
    if s == [] {
      assert (set c | c in s && c in excluded) == {};
    } else {
      var t := s[1..];
      assert Distinct(t) by {
        forall i, j | 0 <= i < j < |t| ensures t[i] != t[j] {
          assert t[i] == s[i + 1] && t[j] == s[j + 1];
        }
      }
      assert s[0] !in t by {
        forall k | 0 <= k < |t| ensures t[k] != s[0] {
          assert t[k] == s[k + 1];
        }
      }
      WithoutCardinality(t, excluded);
      var dropped := set c | c in t && c in excluded;
      if s[0] in excluded {
        assert (set c | c in s && c in excluded) == dropped + {s[0]};
      } else {
        assert (set c | c in s && c in excluded) == dropped;
      }
    }
  }

  /** `create_deck_without_cards(E)` keeps exactly the cards not in E, each once, and their
      number is 52 less the number of different cards in E; for a duplicate-free E that is 52 - |E|. */
  lemma RemainingCards(known: seq<Card>)
    ensures forall c :: c in Remaining(known) <==> c !in known
    ensures Distinct(Remaining(known))
    ensures |Remaining(known)| == 52 - |set c | c in known|
    ensures Distinct(known) ==> |Remaining(known)| == 52 - |known|
    ensures |Remaining(known)| >= 52 - |known|
  {
    FullDeckComplete();
    WithoutDistinct(FullDeck(), known);
    WithoutCardinality(FullDeck(), known);
    assert (set c | c in FullDeck() && c in known) == set c | c in known;
    SetOfSeqBound(known);
    if Distinct(known) {
      DistinctCardinality(known);
    }
  }

  // ---------------------------------------------------------------------------
  // The deck

  /** A deck is a Python list of cards; `draw` pops from its end. */
  class Deck {
    var cards: seq<Card>

    /** `Deck()` runs `reset`. */
    constructor ()
      ensures cards == FullDeck()
    {
      cards := [];
      new;
      Reset();
    }

    /** `reset`: appends every card, suit by suit in declaration order, ranks Two to Ace. */
    method Reset()
      modifies this
      ensures cards == FullDeck()
    {
      cards := [];
      for s := 0 to 4
        invariant cards == FullDeck()[..13 * s]
      {
        for r := 2 to 15
          invariant cards == FullDeck()[..13 * s + (r - 2)]
        {
          var k := 13 * s + (r - 2);
          assert k / 13 == s && k % 13 == r - 2;
          assert FullDeck()[..k + 1] == FullDeck()[..k] + [Card(r, AllSuits[s])];
          cards := cards + [Card(r, AllSuits[s])];
        }
      }
    }

    /** `shuffle` with the permutation chosen by the caller. */
    method Shuffle(order: seq<Card>)
      requires multiset(order) == multiset(cards)
      modifies this
      ensures cards == order
    {
      cards := order;
    }

    /** `draw`: pops and returns the last card. */
    method Draw() returns (c: Card)
      requires |cards| > 0
      modifies this
      ensures c == old(cards)[|old(cards)| - 1]
      ensures cards == old(cards)[..|old(cards)| - 1]
    {
      c := cards[|cards| - 1];
      cards := cards[..|cards| - 1];
    }

    /** `draw_multiple(n)`: pops n cards; they come back last card first. */
    method DrawMultiple(count: nat) returns (drawn: seq<Card>)
      requires count <= |cards|
      modifies this
      ensures cards == old(cards)[..|old(cards)| - count]
      ensures drawn == Reversed(old(cards)[|old(cards)| - count..])
    {
      drawn := [];
      ghost var n := |cards|;
      for i := 0 to count
        invariant cards == old(cards)[..n - i]
        invariant drawn == Reversed(old(cards)[n - i..])
      {
        var c := Draw();
        assert old(cards)[n - i - 1..][1..] == old(cards)[n - i..];
        drawn := drawn + [c];
      }
    }

    /** `__len__`: the number of cards still in the deck. */
    function Length(): (n: nat)
      reads this
      ensures n == |cards|
    {
      |cards|
    }

    /** `create_deck_without_cards`: a new full deck with the known cards filtered out. */
    static method CreateDeckWithoutCards(excluded: seq<Card>) returns (deck: Deck)
      ensures fresh(deck)
      ensures deck.cards == Remaining(excluded)
    {
      deck := new Deck();
      deck.cards := Without(deck.cards, excluded);
    }
  }
}

/** The hand evaluator: classifies a pool of cards into one of ten ordered categories
    with a tie-break list of ranks, and compares two hands over a shared board.
    Each operation is first a specification function; the methods after them run the
    evaluator's loops step by step and are proved to compute those functions. */
module HandEvaluator {
  import opened Seqs
  import opened Counting
  import opened Cards

  datatype HandRank =
    | HighCard | Pair | TwoPair | ThreeOfAKind | Straight
    | Flush | FullHouse | FourOfAKind | StraightFlush | RoyalFlush
  {
    /** The enum value: 0 for High Card up to 9 for Royal Flush. */
    function Value(): nat {
      match this
      case HighCard => 0
      case Pair => 1
      case TwoPair => 2
      case ThreeOfAKind => 3
      case Straight => 4
      case Flush => 5
      case FullHouse => 6
      case FourOfAKind => 7
      case StraightFlush => 8
      case RoyalFlush => 9
    }
  }

  /** What `evaluate_hand` returns: the category and the tie-break ranks. */
  datatype Evaluation = Evaluation(rank: HandRank, tieBreaks: seq<Rank>)

  /** `[card.rank for card in cards]` */
  function Ranks(cards: seq<Card>): (rs: seq<Rank>)
    ensures |rs| == |cards|
    ensures forall i :: 0 <= i < |cards| ==> rs[i] == cards[i].rank
  {
    seq(|cards|, i requires 0 <= i < |cards| => cards[i].rank)
  }

  /** The suits of the cards, in order (what the suit-counting loop visits). */
  function Suits(cards: seq<Card>): (ss: seq<Suit>)
    ensures |ss| == |cards|
    ensures forall i :: 0 <= i < |cards| ==> ss[i] == cards[i].suit
  {
    seq(|cards|, i requires 0 <= i < |cards| => cards[i].suit)
  }

  /** `[card for card in cards if card.suit == s]` */
  function OfSuit(cards: seq<Card>, s: Suit): (r: seq<Card>)
    ensures forall c :: c in r <==> c in cards && c.suit == s
    ensures |r| == multiset(Suits(cards))[s]
  {
    if cards == [] then []
    else
      var init := cards[..|cards| - 1];
      var last := cards[|cards| - 1];
      assert cards == init + [last];
      assert Suits(cards) == Suits(init) + [last.suit];
      var rest := OfSuit(init, s);
      if last.suit == s then rest + [last] else rest
  }

  // ---------------------------------------------------------------------------
  // Sorting by rank value, highest first (`sorted(..., key=value, reverse=True)`)

  /** Position i holds a rank at least as high as position j. */
  ghost predicate NotLower(s: seq<Rank>, i: int, j: int) {
    0 <= i < |s| && 0 <= j < |s| && s[i] >= s[j]
  }

  /** Highest first: no element is lower than a later one. */
  ghost predicate Descending(s: seq<Rank>) {
    forall i, j :: 0 <= i < j < |s| ==> NotLower(s, i, j)
  }

  /** x put before the first element it is not lower than. */
  function InsertDesc(x: Rank, s: seq<Rank>): (r: seq<Rank>)
    ensures |r| == |s| + 1
  {
    if s == [] || x >= s[0] then [x] + s
    else
      assert s == [s[0]] + s[1..];
      [s[0]] + InsertDesc(x, s[1..])
  }

  /** The ranks of s, highest first (SortDescPermutes and SortDescSorted say so). */
  function SortDesc(s: seq<Rank>): (r: seq<Rank>)
    ensures |r| == |s|
  {
    if s == [] then []
    else
      assert s == [s[0]] + s[1..];
      InsertDesc(s[0], SortDesc(s[1..]))
  }

  /** Inserting adds x and loses nothing. */
  lemma {:induction false} InsertDescPermutes(x: Rank, s: seq<Rank>)
    ensures multiset(InsertDesc(x, s)) == multiset(s) + multiset{x}
  {
    if s != [] && x < s[0] {
      InsertDescPermutes(x, s[1..]);
      assert s == [s[0]] + s[1..];
    }
  }

  /** The sort is a rearrangement of its input. */
  lemma {:induction false} SortDescPermutes(s: seq<Rank>)
    ensures multiset(SortDesc(s)) == multiset(s)
  {
    if s != [] {
      SortDescPermutes(s[1..]);
      InsertDescPermutes(s[0], SortDesc(s[1..]));
      assert s == [s[0]] + s[1..];
    }
  }

  /** Inserting into a descending list keeps it descending; the new head is x or the old one. */
  lemma {:induction false} InsertDescSorted(x: Rank, s: seq<Rank>)
    requires Descending(s)
    ensures Descending(InsertDesc(x, s))
    ensures InsertDesc(x, s)[0] == x || (s != [] && InsertDesc(x, s)[0] == s[0])
  {
    if s != [] && x < s[0] {
      assert Descending(s[1..]) by {
        forall i, j | 0 <= i < j < |s| - 1 ensures NotLower(s[1..], i, j) {
          assert NotLower(s, i + 1, j + 1);
        }
      }
      InsertDescSorted(x, s[1..]);
      var rest := InsertDesc(x, s[1..]);
      var r := [s[0]] + rest;
      assert InsertDesc(x, s) == r;
      assert rest[0] <= s[0] by {
        if rest[0] != x {
          assert rest[0] == s[1..][0] == s[1];
          assert NotLower(s, 0, 1);
        }
      }
      forall i, j | 0 <= i < j < |r| ensures NotLower(r, i, j) {
        assert r[j] == rest[j - 1];
        if i > 0 {
          assert r[i] == rest[i - 1];
          assert NotLower(rest, i - 1, j - 1);
        } else if j > 1 {
          assert NotLower(rest, 0, j - 1);
        }
      }
    } else {
      var r := [x] + s;
      forall i, j | 0 <= i < j < |r| ensures NotLower(r, i, j) {
        assert r[j] == s[j - 1];
        if i > 0 {
          assert r[i] == s[i - 1] && NotLower(s, i - 1, j - 1);
        } else if j > 1 {
          assert NotLower(s, 0, j - 1);
        }
      }
    }
  }

  /** The sort puts the ranks highest first. */
  lemma {:induction false} SortDescSorted(s: seq<Rank>)
    ensures Descending(SortDesc(s))
  {
    if s != [] {
      SortDescSorted(s[1..]);
      InsertDescSorted(s[0], SortDesc(s[1..]));
    }
  }

  // ---------------------------------------------------------------------------
  // Straights

  /** Position i holds a lower rank than position j. */
  ghost predicate Below(u: seq<Rank>, i: int, j: int) {
    0 <= i < |u| && 0 <= j < |u| && u[i] < u[j]
  }

  /** Every element is lower than every later one. Stated through Below, so that a proof
      draws on the order only for the pairs it names. */
  ghost predicate StrictlyAscending(u: seq<Rank>) {
    forall i, j :: 0 <= i < j < |u| ==> Below(u, i, j)
  }

  /** x added to an ascending list without repeats: it goes before the first element it
      does not exceed, and is left out when it equals that element. */
  function InsertUnique(x: Rank, u: seq<Rank>): (r: seq<Rank>)
    ensures forall v: int :: v in r <==> v == x || v in u
  {
    if u == [] || x < u[0] then [x] + u
    else if x == u[0] then u
    else
      assert forall v: int :: v in u <==> v == u[0] || v in u[1..];
      [u[0]] + InsertUnique(x, u[1..])
  }

  /** `sorted(set(ranks), key=value)`: the different ranks, ascending (the order is proved
      by DistinctAscendingSorted). */
  function DistinctAscending(rs: seq<Rank>): (u: seq<Rank>)
    ensures forall v: int :: v in u <==> v in rs
  {
    if rs == [] then []
    else
      assert forall v: int :: v in rs <==> v == rs[0] || v in rs[1..];
      InsertUnique(rs[0], DistinctAscending(rs[1..]))
  }

  /** Inserting into an ascending list keeps it ascending; the new head is x or the old one. */
  lemma {:induction false} InsertUniqueSorted(x: Rank, u: seq<Rank>)
    requires StrictlyAscending(u)
    ensures StrictlyAscending(InsertUnique(x, u))
    ensures |InsertUnique(x, u)| > 0
    ensures InsertUnique(x, u)[0] == x || (u != [] && InsertUnique(x, u)[0] == u[0])
  {
    if u != [] && x > u[0] {
      assert StrictlyAscending(u[1..]) by {
        forall i, j | 0 <= i < j < |u| - 1 ensures Below(u[1..], i, j) {
          assert Below(u, i + 1, j + 1);
        }
      }
      InsertUniqueSorted(x, u[1..]);
      var rest := InsertUnique(x, u[1..]);
      var r := [u[0]] + rest;
      assert InsertUnique(x, u) == r;
      assert u[0] < rest[0] by {
        if rest[0] != x {
          assert rest[0] == u[1..][0] == u[1];
          assert Below(u, 0, 1);
        }
      }
      forall i, j | 0 <= i < j < |r| ensures Below(r, i, j) {
        assert r[j] == rest[j - 1];
        if i > 0 {
          assert r[i] == rest[i - 1];
          assert Below(rest, i - 1, j - 1);
        } else if j > 1 {
          assert Below(rest, 0, j - 1);
        }
      }
    } else if u == [] || x < u[0] {
      var r := [x] + u;
      forall i, j | 0 <= i < j < |r| ensures Below(r, i, j) {
        assert r[j] == u[j - 1];
        if i > 0 {
          assert r[i] == u[i - 1] && Below(u, i - 1, j - 1);
        } else if j > 1 {
          assert Below(u, 0, j - 1);
        }
      }
    }
  }

  /** The different ranks come out strictly ascending. */
  lemma {:induction false} DistinctAscendingSorted(rs: seq<Rank>)
    ensures StrictlyAscending(DistinctAscending(rs))
  {
    if rs != [] {
      DistinctAscendingSorted(rs[1..]);
      InsertUniqueSorted(rs[0], DistinctAscending(rs[1..]));
    }
  }

  /** The five ranks h-4 .. h all occur: a straight with high card h. */
  predicate StraightAt(rs: seq<Rank>, h: int) {
    6 <= h && h in rs && h - 1 in rs && h - 2 in rs && h - 3 in rs && h - 4 in rs
  }

  /** Ace, Two, Three, Four and Five all occur: the ace-low straight. */
  predicate IsWheel(rs: seq<Rank>) {
    Ace in rs && Two in rs && Three in rs && Four in rs && Five in rs
  }

  /** The highest straight whose high card is at most h. */
  function HighestRun(rs: seq<Rank>, h: int): (r: Option<Rank>)
    ensures r.Some? ==> StraightAt(rs, r.value) && r.value <= h
    ensures forall v :: v <= h && (r.None? || r.value < v) ==> !StraightAt(rs, v)
    decreases h
  {
    if h < 6 then None
    else if StraightAt(rs, h) then Some(h)
    else HighestRun(rs, h - 1)
  }

  /** `has_straight`: none with fewer than five different ranks; Five as soon as the
      wheel is present; otherwise the highest straight whose top is at most the highest
      rank present. */
  function StraightHigh(rs: seq<Rank>): Option<Rank> {
    var u := DistinctAscending(rs);
    if |u| < 5 then None
    else if IsWheel(rs) then Some(Five)
    else HighestRun(rs, u[|u| - 1])
  }

  // ---------------------------------------------------------------------------
  // Flushes, four of a kind and the grouping loop

  /** Index of the first entry whose count is at least n, or |t|. */
  function FirstAtLeast<K>(t: Counts<K>, n: nat): (i: nat)
    ensures i <= |t|
    ensures i < |t| ==> t[i].1 >= n
    ensures forall j :: 0 <= j < i ==> t[j].1 < n
  {
    if t == [] then 0 else if t[0].1 >= n then 0 else 1 + FirstAtLeast(t[1..], n)
  }

  /** Index of the first entry whose count is exactly n, or |t|. */
  function FirstWithCount<K>(t: Counts<K>, n: nat): (i: nat)
    ensures i <= |t|
    ensures i < |t| ==> t[i].1 == n
    ensures forall j :: 0 <= j < i ==> t[j].1 != n
  {
    if t == [] then 0 else if t[0].1 == n then 0 else 1 + FirstWithCount(t[1..], n)
  }

  /** `has_flush`: the first suit, in dictionary order, held five times or more. */
  function FlushSuit(cards: seq<Card>): Option<Suit> {
    var suitCounts := Tally(Suits(cards));
    var i := FirstAtLeast(suitCounts, 5);
    if i < |suitCounts| then Some(suitCounts[i].0) else None
  }

  /** The state of the full-house loop: the triple kept so far and the pair list. */
  datatype Groups = Groups(three: Option<Rank>, pairs: seq<Rank>)

  /** One pass of the full-house loop. A triple replaces the kept one only when it is
      higher, and only then does the displaced triple join the pairs; a lower triple
      seen later is dropped. */
  function GroupStep(g: Groups, e: (Rank, nat)): Groups {
    if e.1 == 3 then
      if g.three.None? || e.0 > g.three.value then
        Groups(Some(e.0), if g.three.Some? then g.pairs + [g.three.value] else g.pairs)
      else g
    else if e.1 == 2 then Groups(g.three, g.pairs + [e.0])
    else g
  }

  function Grouped(t: Counts<Rank>): Groups {
    if t == [] then Groups(None, []) else GroupStep(Grouped(t[..|t| - 1]), t[|t| - 1])
  }

  /** The ranks of the dictionary other than those of ex, highest first. */
  function Kickers(t: Counts<Rank>, ex: seq<Rank>): seq<Rank> {
    SortDesc(Keys(Drop(t, ex)))
  }

  // ---------------------------------------------------------------------------
  // Classification and comparison

  /** `evaluate_hand(player_cards, community_cards)` */
  function Evaluate(player: seq<Card>, community: seq<Card>): Evaluation {
    var all := player + community;
    var flush := FlushSuit(all);
    var straight := StraightHigh(Ranks(all));
    var straightFlush :=
      if flush.Some? && straight.Some? then StraightHigh(Ranks(OfSuit(all, flush.value))) else None;
    if straightFlush.Some? then
      if straightFlush.value == Ace then Evaluation(RoyalFlush, [straightFlush.value])
      else Evaluation(StraightFlush, [straightFlush.value])
    else ByCounts(all, flush, straight)
  }

  /** The categories decided after straight flushes are ruled out, in priority order. */
  function ByCounts(all: seq<Card>, flush: Option<Suit>, straight: Option<Rank>): Evaluation {
    var rankCounts := Tally(Ranks(all));
    var q := FirstWithCount(rankCounts, 4);
    if q < |rankCounts| then
      var quad := rankCounts[q].0;
      Evaluation(FourOfAKind, [quad] + Take(Kickers(rankCounts, [quad]), 1))
    else ByGroups(all, flush, straight, rankCounts, Grouped(rankCounts))
  }

  /** The categories decided once the full-house loop has grouped the ranks into g. */
  function ByGroups(all: seq<Card>, flush: Option<Suit>, straight: Option<Rank>,
                    rankCounts: Counts<Rank>, g: Groups): Evaluation {
    if g.three.Some? && |g.pairs| > 0 then
      Evaluation(FullHouse, [g.three.value, SortDesc(g.pairs)[0]])
    else if flush.Some? then
      Evaluation(Flush, Take(SortDesc(Ranks(OfSuit(all, flush.value))), 5))
    else if straight.Some? then
      Evaluation(Straight, [straight.value])
    else if g.three.Some? then
      Evaluation(ThreeOfAKind, [g.three.value] + Take(Kickers(rankCounts, [g.three.value]), 2))
    else if |g.pairs| >= 2 then
      var top := SortDesc(g.pairs)[..2];
      Evaluation(TwoPair, top + Take(Kickers(rankCounts, top), 1))
    else if |g.pairs| > 0 then
      Evaluation(Pair, [g.pairs[0]] + Take(Kickers(rankCounts, [g.pairs[0]]), 3))
    else
      Evaluation(HighCard, Take(SortDesc(Ranks(all)), 5))
  }

  /** The tie-break loop over `zip`: the first differing position decides; 1 when the
      first list is higher there, 2 when the second is, 0 when the shorter runs out. */
  function TieBreakCompare(a: seq<Rank>, b: seq<Rank>): (r: int)
    ensures r == 0 || r == 1 || r == 2
  {
    if a == [] || b == [] then 0
    else if a[0] > b[0] then 1
    else if a[0] < b[0] then 2
    else TieBreakCompare(a[1..], b[1..])
  }

  /** The body of `compare_hands` once both hands are evaluated: the category values
      first, then the tie-breaks. */
  function CompareEvaluations(e1: Evaluation, e2: Evaluation): int {
    if e1.rank.Value() > e2.rank.Value() then 1
    else if e1.rank.Value() < e2.rank.Value() then 2
    else TieBreakCompare(e1.tieBreaks, e2.tieBreaks)
  }

  /** `compare_hands`: 1 when the first player's hand wins, 2 when the second's does, 0 for a push. */
  function Compare(player1: seq<Card>, player2: seq<Card>, community: seq<Card>): int {
    CompareEvaluations(Evaluate(player1, community), Evaluate(player2, community))
  }

  // ---------------------------------------------------------------------------
  // Facts the straight scan relies on

  /** A value strictly between two neighbours of an ascending list is not in it. */
  lemma NotBetween(u: seq<Rank>, j: nat, v: int)
    requires StrictlyAscending(u) && j + 1 < |u| && u[j] < v < u[j + 1]
    ensures v !in u
  {
    forall k | 0 <= k < |u| ensures u[k] != v {
      if k < j {
        assert Below(u, k, j);
      } else if k > j + 1 {
        assert Below(u, j + 1, k);
      }
    }
  }

  /** A value below the first element of an ascending list is not in it. */
  lemma NotBelow(u: seq<Rank>, v: int)
    requires StrictlyAscending(u) && |u| > 0 && v < u[0]
    ensures v !in u
  {
    forall k | 0 < k < |u| ensures u[k] != v {
      assert Below(u, 0, k);
    }
  }

  /** A value above the last element of an ascending list is not in it. */
  lemma NotAbove(u: seq<Rank>, v: int)
    requires StrictlyAscending(u) && |u| > 0 && v > u[|u| - 1]
    ensures v !in u
  {
    forall k | 0 <= k < |u| - 1 ensures u[k] != v {
      assert Below(u, k, |u| - 1);
    }
  }

  /** HighestRun does not change across a stretch without straights. */
  lemma {:induction false} HighestRunSkip(rs: seq<Rank>, lo: int, hi: int)
    requires lo <= hi
    requires forall v :: lo < v <= hi ==> !StraightAt(rs, v)
    ensures HighestRun(rs, hi) == HighestRun(rs, lo)
    decreases hi - lo
  {
    if lo < hi {
      HighestRunSkip(rs, lo, hi - 1);
    }
  }

  /** A straight at h needs every rank from h-4 to h. */
  lemma MissingRankNoStraight(rs: seq<Rank>, h: int, v: int)
    requires h - 4 <= v <= h && v !in rs
    ensures !StraightAt(rs, h)
  {
    assert v == h || v == h - 1 || v == h - 2 || v == h - 3 || v == h - 4;
  }

  /** u lists the different ranks of rs in ascending order. */
  ghost predicate UniqueAscending(rs: seq<Rank>, u: seq<Rank>) {
    StrictlyAscending(u) && forall v: int :: v in u <==> v in rs
  }

  /** A run of fewer than five ending at u[i], preceded by a gap, is no straight at u[i]. */
  lemma ShortRunNoStraight(rs: seq<Rank>, u: seq<Rank>, i: nat, c: nat)
    requires UniqueAscending(rs, u)
    requires i < |u| && 1 <= c <= i + 1 && c < 5
    requires forall j :: i - c < j <= i ==> u[j] == u[i] - (i - j)
    requires c <= i ==> u[i - c] < u[i] - c
    ensures !StraightAt(rs, u[i])
  {
    var v := u[i] - c;
    assert u[i - c + 1] == v + 1;
    if c <= i {
      NotBetween(u, i - c, v);
    } else {
      NotBelow(u, v);
    }
    assert v !in rs;
    MissingRankNoStraight(rs, u[i], v);
  }

  /** What the scan of `has_straight` knows after visiting u[..i]: the last c ranks
      seen are consecutive and preceded by a gap, and high is the highest straight so far. */
  ghost predicate Scanned(rs: seq<Rank>, u: seq<Rank>, i: nat, c: nat, high: Option<Rank>) {
    1 <= c <= i <= |u|
    && (forall j :: i - 1 - c < j <= i - 1 ==> u[j] == u[i - 1] - (i - 1 - j))
    && (c < i ==> u[i - 1 - c] < u[i - 1] - c)
    && high == HighestRun(rs, u[i - 1])
  }

  /** Before the scan: no straight has a high card at or below the lowest rank. */
  lemma ScanStart(rs: seq<Rank>, u: seq<Rank>)
    requires UniqueAscending(rs, u) && |u| > 0
    ensures Scanned(rs, u, 1, 1, None)
  {
    if u[0] >= 6 {
      forall v | 5 < v <= u[0] ensures !StraightAt(rs, v) {
        NotBelow(u, v - 1);
      }
      HighestRunSkip(rs, 5, u[0]);
    }
  }

  /** One pass of the scan keeps Scanned: a step of one extends the run, a gap restarts it,
      and a run reaching five records its top as the highest straight. */
  lemma ScanStep(rs: seq<Rank>, u: seq<Rank>, i: nat, c: nat, high: Option<Rank>, c2: nat, high2: Option<Rank>)
    requires UniqueAscending(rs, u) && Scanned(rs, u, i, c, high) && i < |u|
    requires c2 == if u[i] as int == u[i - 1] as int + 1 then c + 1 else 1
    requires high2 == if u[i] as int == u[i - 1] as int + 1 && c2 >= 5 then Some(u[i]) else high
    ensures Scanned(rs, u, i + 1, c2, high2)
  {
    if u[i] as int == u[i - 1] as int + 1 {
      ScanExtend(rs, u, i, c, high);
    } else {
      ScanGap(rs, u, i, c, high);
    }
  }

  lemma ScanExtend(rs: seq<Rank>, u: seq<Rank>, i: nat, c: nat, high: Option<Rank>)
    requires UniqueAscending(rs, u) && Scanned(rs, u, i, c, high) && i < |u|
    requires u[i] as int == u[i - 1] as int + 1
    ensures Scanned(rs, u, i + 1, c + 1, if c + 1 >= 5 then Some(u[i]) else high)
  {
    assert forall j :: i - (c + 1) < j <= i ==> u[j] == u[i] - (i - j);
    if c + 1 >= 5 {
      RunIsStraight(rs, u, i);
    } else {
      ShortRunNoStraight(rs, u, i, c + 1);
      HighestRunSkip(rs, u[i - 1], u[i]);
    }
  }

  /** Five consecutive ranks ending at u[i] make a straight there. */
  lemma RunIsStraight(rs: seq<Rank>, u: seq<Rank>, i: nat)
    requires UniqueAscending(rs, u) && 4 <= i < |u|
    requires forall j :: i - 5 < j <= i ==> u[j] == u[i] - (i - j)
    ensures HighestRun(rs, u[i]) == Some(u[i])
  {
    assert u[i - 4] == u[i] as int - 4 && u[i - 3] == u[i] as int - 3;
    assert u[i - 2] == u[i] as int - 2 && u[i - 1] == u[i] as int - 1;
    assert StraightAt(rs, u[i]);
  }

  lemma ScanGap(rs: seq<Rank>, u: seq<Rank>, i: nat, c: nat, high: Option<Rank>)
    requires UniqueAscending(rs, u) && Scanned(rs, u, i, c, high) && i < |u|
    requires u[i] as int != u[i - 1] as int + 1
    ensures Scanned(rs, u, i + 1, 1, high)
  {
    assert Below(u, i - 1, i);
    ShortRunNoStraight(rs, u, i, 1);
    forall v | u[i - 1] < v < u[i] ensures !StraightAt(rs, v) {
      NotBetween(u, i - 1, v);
    }
    HighestRunSkip(rs, u[i - 1], u[i]);
  }

  // ---------------------------------------------------------------------------
  // The evaluator's loops

  /** `get_rank_counts`: the rank dictionary, filled card by card. */
  method GetRankCounts(cards: seq<Card>) returns (rankCounts: Counts<Rank>)
    ensures rankCounts == Tally(Ranks(cards))
  {
    rankCounts := [];
    for i := 0 to |cards|
      invariant rankCounts == Tally(Ranks(cards[..i]))
    {
      var rank := cards[i].rank;
      assert Ranks(cards[..i + 1]) == Ranks(cards[..i]) + [rank];
      if rank !in Keys(rankCounts) {
        rankCounts := AddKey(rankCounts, rank);
      }
      rankCounts := Increment(rankCounts, rank);
    }
    assert cards[..|cards|] == cards;
  }

  /** `get_suit_counts`: the suit dictionary, filled card by card. */
  method GetSuitCounts(cards: seq<Card>) returns (suitCounts: Counts<Suit>)
    ensures suitCounts == Tally(Suits(cards))
  {
    suitCounts := [];
    for i := 0 to |cards|
      invariant suitCounts == Tally(Suits(cards[..i]))
    {
      var suit := cards[i].suit;
      assert Suits(cards[..i + 1]) == Suits(cards[..i]) + [suit];
      if suit !in Keys(suitCounts) {
        suitCounts := AddKey(suitCounts, suit);
      }
      suitCounts := Increment(suitCounts, suit);
    }
    assert cards[..|cards|] == cards;
  }

  /** `has_flush`: scans the suit dictionary in order for a count of five or more. */
  method HasFlush(cards: seq<Card>) returns (flushSuit: Option<Suit>)
    ensures flushSuit == FlushSuit(cards)
  {
    var suitCounts := GetSuitCounts(cards);
    for i := 0 to |suitCounts|
      invariant forall j :: 0 <= j < i ==> suitCounts[j].1 < 5
    {
      if suitCounts[i].1 >= 5 {
        return Some(suitCounts[i].0);
      }
    }
    return None;
  }

  /** `has_straight`: the wheel test, then one ascending scan that counts consecutive
      ranks and records the top of every run that reaches five. */
  method HasStraight(ranks: seq<Rank>) returns (high: Option<Rank>)
    ensures high == StraightHigh(ranks)
  {
    var unique := DistinctAscending(ranks);
    DistinctAscendingSorted(ranks);
    assert UniqueAscending(ranks, unique);
    if |unique| < 5 {
      return None;
    }
    if Ace in unique && Two in unique && Three in unique && Four in unique && Five in unique {
      assert IsWheel(ranks);
      return Some(Five);
    }
    assert !IsWheel(ranks);
    assert StraightHigh(ranks) == HighestRun(ranks, unique[|unique| - 1]);
    high := ScanRuns(ranks, unique);
  }

  /** The scan at the end of `has_straight`: one ascending pass over the different ranks
      that counts consecutive ranks and records the top of every run that reaches five;
      the last one recorded is the highest straight. */
  method ScanRuns(ghost ranks: seq<Rank>, unique: seq<Rank>) returns (high: Option<Rank>)
    requires UniqueAscending(ranks, unique) && |unique| > 0
    ensures high == HighestRun(ranks, unique[|unique| - 1])
  {
    high := None;
    var consecutive := 1;
    ScanStart(ranks, unique);
    for i := 1 to |unique|
      invariant Scanned(ranks, unique, i, consecutive, high)
    {
      ghost var c, h := consecutive, high;
      assert Below(unique, i - 1, i);
      if unique[i] as int == unique[i - 1] as int + 1 {
        consecutive := consecutive + 1;
        if consecutive >= 5 {
          high := Some(unique[i]);
        }
      } else if unique[i] as int > unique[i - 1] as int + 1 {
        consecutive := 1;
      }
      ScanStep(ranks, unique, i, c, h, consecutive, high);
    }
  }

  /** `evaluate_hand`, statement by statement. */
  method EvaluateHand(player: seq<Card>, community: seq<Card>) returns (e: Evaluation)
    ensures e == Evaluate(player, community)
  {
    var all := player + community;
    var flushSuit := HasFlush(all);
    var allRanks := Ranks(all);
    var straightHigh := HasStraight(allRanks);

    if flushSuit.Some? && straightHigh.Some? {
      var flushRanks := Ranks(OfSuit(all, flushSuit.value));
      var straightFlushHigh := HasStraight(flushRanks);
      if straightFlushHigh.Some? {
        if straightFlushHigh.value == Ace {
          return Evaluation(RoyalFlush, [straightFlushHigh.value]);
        }
        return Evaluation(StraightFlush, [straightFlushHigh.value]);
      }
    }
    e := EvaluateByCounts(all, flushSuit, straightHigh);
  }

  /** The rest of `evaluate_hand` once straight flushes are ruled out: counting ranks,
      the four-of-a-kind scan, the full-house loop and the remaining categories in order. */
  method EvaluateByCounts(all: seq<Card>, flushSuit: Option<Suit>, straightHigh: Option<Rank>)
    returns (e: Evaluation)
    ensures e == ByCounts(all, flushSuit, straightHigh)
  {
    var rankCounts := GetRankCounts(all);

    for i := 0 to |rankCounts|
      invariant forall j :: 0 <= j < i ==> rankCounts[j].1 != 4
    {
      if rankCounts[i].1 == 4 {
        var kickers := Kickers(rankCounts, [rankCounts[i].0]);
        assert FirstWithCount(rankCounts, 4) == i;
        return Evaluation(FourOfAKind, [rankCounts[i].0] + Take(kickers, 1));
      }
    }
    assert FirstWithCount(rankCounts, 4) == |rankCounts|;
    assert ByCounts(all, flushSuit, straightHigh) == ByGroups(all, flushSuit, straightHigh, rankCounts, Grouped(rankCounts));
    var threeOfAKind, pairs := GroupRanks(rankCounts);
    e := EvaluateByGroups(all, flushSuit, straightHigh, rankCounts, threeOfAKind, pairs);
  }

  /** The full-house loop of `evaluate_hand`: keeps the highest triple seen so far and
      lists the pairs, together with any triple it displaces. */
  method GroupRanks(rankCounts: Counts<Rank>) returns (threeOfAKind: Option<Rank>, pairs: seq<Rank>)
    ensures Groups(threeOfAKind, pairs) == Grouped(rankCounts)
  {
    threeOfAKind := None;
    pairs := [];
    for i := 0 to |rankCounts|
      invariant Groups(threeOfAKind, pairs) == Grouped(rankCounts[..i])
    {
      assert rankCounts[..i + 1][..i] == rankCounts[..i];
      var (rank, count) := rankCounts[i];
      if count == 3 {
        if threeOfAKind.None? || rank > threeOfAKind.value {
          if threeOfAKind.Some? {
            pairs := pairs + [threeOfAKind.value];
          }
          threeOfAKind := Some(rank);
        }
      } else if count == 2 {
        pairs := pairs + [rank];
      }
    }
    assert rankCounts[..|rankCounts|] == rankCounts;
  }

  /** The rest of `evaluate_hand` after the full-house loop: the categories from full
      house down to high card, checked in priority order. */
  method EvaluateByGroups(all: seq<Card>, flushSuit: Option<Suit>, straightHigh: Option<Rank>,
                          rankCounts: Counts<Rank>, threeOfAKind: Option<Rank>, pairs: seq<Rank>)
    returns (e: Evaluation)
    ensures e == ByGroups(all, flushSuit, straightHigh, rankCounts, Groups(threeOfAKind, pairs))
  {
    if threeOfAKind.Some? && |pairs| > 0 {
      var sortedPairs := SortDesc(pairs);
      return Evaluation(FullHouse, [threeOfAKind.value, sortedPairs[0]]);
    }
    if flushSuit.Some? {
      var flushRanks := SortDesc(Ranks(OfSuit(all, flushSuit.value)));
      return Evaluation(Flush, Take(flushRanks, 5));
    }
    if straightHigh.Some? {
      return Evaluation(Straight, [straightHigh.value]);
    }
    if threeOfAKind.Some? {
      var kickers := Kickers(rankCounts, [threeOfAKind.value]);
      return Evaluation(ThreeOfAKind, [threeOfAKind.value] + Take(kickers, 2));
    }
    if |pairs| >= 2 {
      var sortedPairs := SortDesc(pairs);
      var kickers := Kickers(rankCounts, sortedPairs[..2]);
      return Evaluation(TwoPair, sortedPairs[..2] + Take(kickers, 1));
    }
    if |pairs| > 0 {
      var kickers := Kickers(rankCounts, [pairs[0]]);
      return Evaluation(Pair, [pairs[0]] + Take(kickers, 3));
    }
    var highCards := SortDesc(Ranks(all));
    return Evaluation(HighCard, Take(highCards, 5));
  }

  /** `compare_hands`: categories first, then the tie-breaks pairwise over `zip`. */
  method CompareHands(player1: seq<Card>, player2: seq<Card>, community: seq<Card>) returns (result: int)
    ensures result == Compare(player1, player2, community)
  {
    var e1 := EvaluateHand(player1, community);
    var e2 := EvaluateHand(player2, community);
    if e1.rank.Value() > e2.rank.Value() {
      return 1;
    } else if e1.rank.Value() < e2.rank.Value() {
      return 2;
    }
    result := CompareTieBreaks(e1.tieBreaks, e2.tieBreaks);
  }

  /** The tie-break loop of `compare_hands`, pairwise over `zip(tb1, tb2)`. */
  method CompareTieBreaks(tb1: seq<Rank>, tb2: seq<Rank>) returns (result: int)
    ensures result == TieBreakCompare(tb1, tb2)
  {
    var n := if |tb1| < |tb2| then |tb1| else |tb2|;
    for i := 0 to n
      invariant TieBreakCompare(tb1[i..], tb2[i..]) == TieBreakCompare(tb1, tb2)
    {
      assert tb1[i..][1..] == tb1[i + 1..] && tb2[i..][1..] == tb2[i + 1..];
      if tb1[i] > tb2[i] {
        return 1;
      } else if tb1[i] < tb2[i] {
        return 2;
      }
    }
    return 0;
  }
}

/** Weighted selection from a card pool, and its exact distribution. */
module GachaPool {
  type Rarity = string

  const RARITY_SSR: Rarity := "SSR"
  const RARITY_SR: Rarity := "SR"
  const RARITY_R: Rarity := "R"

  datatype Card = Card(id: string, name: string, rarity: Rarity, weight: int)

  const ZERO_CARD := Card("", "", "", 0)

  datatype Pool = Pool(id: string, name: string, pityThreshold: int, cards: seq<Card>)

  /** A generator maps its state and a bound n to its next state and a draw from [0, n). */
  type Generator = g: (nat, nat) -> (nat, nat) | forall s: nat, n: nat :: 0 < n ==> g(s, n).1 < n
    witness (s: nat, n: nat) => (s, 0)

  /** The total weight of the first n cards. */
  function Prefix(cards: seq<Card>, n: nat): int
    requires n <= |cards|
  {
    if n == 0 then 0 else Prefix(cards, n - 1) + cards[n - 1].weight
  }

  function TotalWeight(cards: seq<Card>): int {
    Prefix(cards, |cards|)
  }

  predicate NonNegativeWeights(cards: seq<Card>) {
    forall i | 0 <= i < |cards| :: 0 <= cards[i].weight
  }

  /** Position i is the first whose cumulative weight exceeds the draw. */
  ghost predicate Selects(cards: seq<Card>, draw: int, i: nat) {
    && i < |cards|
    && draw < Prefix(cards, i + 1)
    && (forall j | 1 <= j <= i :: Prefix(cards, j) <= draw)
  }

  /** The position a draw selects, searching from position i. */
  function PickFrom(cards: seq<Card>, draw: int, i: nat): (r: nat)
    requires i < |cards| && draw < TotalWeight(cards)
    requires forall j | 1 <= j <= i :: Prefix(cards, j) <= draw
    ensures Selects(cards, draw, r)
    decreases |cards| - i
  {
    if draw < Prefix(cards, i + 1) || i + 1 == |cards| then i else PickFrom(cards, draw, i + 1)
  }

  function PickIndex(cards: seq<Card>, draw: int): (r: nat)
    requires cards != [] && draw < TotalWeight(cards)
    ensures Selects(cards, draw, r)
  {
    PickFrom(cards, draw, 0)
  }

  lemma SelectsIsUnique(cards: seq<Card>, draw: int, i: nat, j: nat)
    requires Selects(cards, draw, i) && Selects(cards, draw, j)
    ensures i == j
  {
  }

  /** The card and the generator state after one pick. */
  function Pick(g: Generator, cards: seq<Card>, state: nat): (Card, nat) {
    if cards == [] || TotalWeight(cards) <= 0 then (ZERO_CARD, state)
    else
      var (state', draw) := g(state, TotalWeight(cards));
      (cards[PickIndex(cards, draw)], state')
  }

  /**
   The two loops of the selection. With a positive total the result is the card at the first position whose cumulative
   weight exceeds the draw, so the loop always returns from inside and the final fallback is dead; otherwise it is the
   zero card and no randomness is consumed.
  */
  method WeightedPick(g: Generator, cards: seq<Card>, state: nat) returns (card: Card, state': nat)
    ensures (card, state') == Pick(g, cards, state)
    ensures cards != [] && 0 < TotalWeight(cards) ==>
              exists i: nat :: Selects(cards, g(state, TotalWeight(cards)).1, i) && card == cards[i]
    ensures cards == [] || TotalWeight(cards) <= 0 ==> card == ZERO_CARD && state' == state
  {
    if |cards| == 0 {
      return ZERO_CARD, state;
    }
    var total := 0;
    for k := 0 to |cards|
      invariant total == Prefix(cards, k)
    {
      total := total + cards[k].weight;
    }
    if total <= 0 {
      return ZERO_CARD, state;
    }
    var (next, pick) := g(state, total);
    var acc := 0;
    for k := 0 to |cards|
      invariant acc == Prefix(cards, k)
      invariant forall j | 1 <= j <= k :: Prefix(cards, j) <= pick
    {
      acc := acc + cards[k].weight;
      if pick < acc {
        SelectsIsUnique(cards, pick, k, PickIndex(cards, pick));
        return cards[k], next;
      }
    }
    assert false;
  }

  function Filtered(cards: seq<Card>, rarity: Rarity): seq<Card> {
    if cards == [] then []
    else
      var rest := Filtered(cards[..|cards| - 1], rarity);
      if cards[|cards| - 1].rarity == rarity then rest + [cards[|cards| - 1]] else rest
  }

  method FilterByRarity(cards: seq<Card>, rarity: Rarity) returns (out: seq<Card>)
    ensures out == Filtered(cards, rarity) && CardsOf(cards, rarity, out)
  {
    FilteredInOrder(cards, rarity);
    hide CardsOf;
    out := [];
    for k := 0 to |cards|
      invariant out == Filtered(cards[..k], rarity)
    {
      assert cards[..k + 1][..k] == cards[..k];
      if cards[k].rarity == rarity {
        out := out + [cards[k]];
      }
    }
    assert cards[..|cards|] == cards;
  }

  /** The filter keeps exactly the cards of that rarity, each with its weight and as often as it occurs. */
  lemma {:induction false} FilteredCards(cards: seq<Card>, rarity: Rarity)
    ensures forall i | 0 <= i < |Filtered(cards, rarity)| :: Filtered(cards, rarity)[i].rarity == rarity
    ensures forall c: Card ::
              multiset(Filtered(cards, rarity))[c] == if c.rarity == rarity then multiset(cards)[c] else 0
  {
    if cards != [] {
      var n := |cards| - 1;
      FilteredCards(cards[..n], rarity);
      assert cards == cards[..n] + [cards[n]];
    }
  }

  /** These positions rise, hold exactly these cards, and leave out no card of the rarity. */
  ghost predicate TakenAt(cards: seq<Card>, rarity: Rarity, out: seq<Card>, at: seq<nat>) {
    && |at| == |out|
    && (forall k | 0 <= k < |at| :: at[k] < |cards| && cards[at[k]] == out[k] && out[k].rarity == rarity)
    && (forall k, l | 0 <= k < l < |at| :: at[k] < at[l])
    && (forall i: nat | i < |cards| && cards[i].rarity == rarity :: i in at)
  }

  /** The cards of one rarity, in the order of the pool. */
  ghost predicate CardsOf(cards: seq<Card>, rarity: Rarity, out: seq<Card>) {
    exists at: seq<nat> :: TakenAt(cards, rarity, out, at)
  }

  lemma TakenWithNext(cards: seq<Card>, rarity: Rarity, out: seq<Card>, at: seq<nat>, c: Card)
    requires TakenAt(cards, rarity, out, at)
    ensures if c.rarity == rarity then TakenAt(cards + [c], rarity, out + [c], at + [|cards|])
            else TakenAt(cards + [c], rarity, out, at)
  {
    var at' := if c.rarity == rarity then at + [|cards|] else at;
    forall i: nat | i < |cards + [c]| && (cards + [c])[i].rarity == rarity ensures i in at' {
      if i < |cards| { assert i in at; } else { assert at'[|at|] == i; }
    }
  }

  lemma {:induction false} FilteredInOrder(cards: seq<Card>, rarity: Rarity)
    ensures CardsOf(cards, rarity, Filtered(cards, rarity))
  {
    if cards == [] {
      assert TakenAt(cards, rarity, [], []);
    } else {
      hide TakenAt;
      var n := |cards| - 1;
      FilteredInOrder(cards[..n], rarity);
      var at :| TakenAt(cards[..n], rarity, Filtered(cards[..n], rarity), at);
      TakenWithNext(cards[..n], rarity, Filtered(cards[..n], rarity), at, cards[n]);
      assert cards == cards[..n] + [cards[n]];
    }
  }

  lemma {:induction false} PrefixMonotone(cards: seq<Card>, m: nat, n: nat)
    requires NonNegativeWeights(cards) && m <= n <= |cards|
    ensures Prefix(cards, m) <= Prefix(cards, n)
  {
    if m < n { PrefixMonotone(cards, m, n - 1); }
  }

  // ---- Exact distribution ----

  /** The draws that select position i are exactly the interval between its two prefix sums. */
  lemma DrawsOfPosition(cards: seq<Card>, draw: int, i: nat)
    requires cards != [] && NonNegativeWeights(cards) && 0 <= draw < TotalWeight(cards) && i < |cards|
    ensures PickIndex(cards, draw) == i <==> Prefix(cards, i) <= draw < Prefix(cards, i + 1)
  {
    var r := PickIndex(cards, draw);
    assert r > 0 ==> Prefix(cards, r) <= draw;
    if Prefix(cards, i) <= draw < Prefix(cards, i + 1) {
      forall j | 1 <= j <= i ensures Prefix(cards, j) <= draw {
        PrefixMonotone(cards, j, i);
      }
      SelectsIsUnique(cards, draw, r, i);
    }
  }

  /** The draws in [0, total) that select position i. */
  ghost function Draws(cards: seq<Card>, i: nat): set<int>
    requires cards != [] && 0 < TotalWeight(cards)
  {
    set x | 0 <= x < TotalWeight(cards) && PickIndex(cards, x) == i
  }

  function Interval(lo: int, hi: int): (r: set<int>)
    requires lo <= hi
    ensures forall x :: x in r <==> lo <= x < hi
    ensures |r| == hi - lo
    decreases hi - lo
  {
    if lo == hi then {} else Interval(lo, hi - 1) + {hi - 1}
  }

  /** Exact odds: out of the total weight of draws, position i is selected by exactly its own weight of them. */
  lemma ExactOdds(cards: seq<Card>, i: nat)
    requires cards != [] && NonNegativeWeights(cards) && 0 < TotalWeight(cards) && i < |cards|
    ensures |Draws(cards, i)| == cards[i].weight
  {
    var lo, hi := Prefix(cards, i), Prefix(cards, i + 1);
    PrefixMonotone(cards, 0, i);
    PrefixMonotone(cards, i + 1, |cards|);
    assert Draws(cards, i) == Interval(lo, hi) by {
      forall x | 0 <= x < TotalWeight(cards) ensures PickIndex(cards, x) == i <==> lo <= x < hi {
        DrawsOfPosition(cards, x, i);
      }
    }
  }

  /** How many of the draws in [0, bound) select a card of the given rarity. */
  function RarityDraws(cards: seq<Card>, rarity: Rarity, bound: nat): nat
    requires cards != [] && bound <= TotalWeight(cards)
  {
    if bound == 0 then 0
    else RarityDraws(cards, rarity, bound - 1) + if cards[PickIndex(cards, bound - 1)].rarity == rarity then 1 else 0
  }

  /** The draws between the prefix sums of card i all count, or none does. */
  lemma {:induction false} RarityDrawsStep(cards: seq<Card>, rarity: Rarity, i: nat, bound: nat)
    requires cards != [] && NonNegativeWeights(cards) && i < |cards|
    requires 0 <= Prefix(cards, i) <= bound <= Prefix(cards, i + 1) <= TotalWeight(cards)
    ensures RarityDraws(cards, rarity, bound) ==
            RarityDraws(cards, rarity, Prefix(cards, i)) +
            if cards[i].rarity == rarity then bound - Prefix(cards, i) else 0
    decreases bound
  {
    if bound > Prefix(cards, i) {
      DrawsOfPosition(cards, bound - 1, i);
      RarityDrawsStep(cards, rarity, i, bound - 1);
    }
  }

  lemma FilteredTotalStep(cards: seq<Card>, rarity: Rarity, n: nat)
    requires 1 <= n <= |cards|
    ensures TotalWeight(Filtered(cards[..n], rarity)) ==
            TotalWeight(Filtered(cards[..n - 1], rarity)) + if cards[n - 1].rarity == rarity
              then cards[n - 1].weight else 0
  {
    assert cards[..n][..n - 1] == cards[..n - 1];
    PrefixOfSnoc(Filtered(cards[..n - 1], rarity), cards[n - 1]);
  }

  lemma {:induction false} RarityOddsUpTo(cards: seq<Card>, rarity: Rarity, n: nat)
    requires cards != [] && NonNegativeWeights(cards) && n <= |cards|
    ensures 0 <= Prefix(cards, n) <= TotalWeight(cards)
    ensures RarityDraws(cards, rarity, Prefix(cards, n)) == TotalWeight(Filtered(cards[..n], rarity))
  {
    PrefixMonotone(cards, n, |cards|);
    PrefixMonotone(cards, 0, n);
    if n > 0 {
      RarityOddsUpTo(cards, rarity, n - 1);
      PrefixMonotone(cards, n - 1, n);
      RarityDrawsStep(cards, rarity, n - 1, Prefix(cards, n));
      FilteredTotalStep(cards, rarity, n);
    }
  }

  lemma {:induction false} PrefixAgrees(a: seq<Card>, b: seq<Card>, n: nat)
    requires n <= |a| && n <= |b| && a[..n] == b[..n]
    ensures Prefix(a, n) == Prefix(b, n)
  {
    if n > 0 {
      assert a[..n - 1] == a[..n][..n - 1] == b[..n - 1];
      assert a[n - 1] == a[..n][n - 1] == b[n - 1];
      PrefixAgrees(a, b, n - 1);
    }
  }

  lemma PrefixOfSnoc(cards: seq<Card>, c: Card)
    ensures TotalWeight(cards + [c]) == TotalWeight(cards) + c.weight
  {
    PrefixAgrees(cards, cards + [c], |cards|);
  }

  /** A rarity is drawn with exactly the share of the total weight its cards have, whatever their order. */
  lemma RarityOdds(cards: seq<Card>, rarity: Rarity)
    requires cards != [] && NonNegativeWeights(cards)
    ensures 0 <= TotalWeight(cards)
    ensures RarityDraws(cards, rarity, TotalWeight(cards)) == TotalWeight(Filtered(cards, rarity))
  {
    RarityOddsUpTo(cards, rarity, |cards|);
    assert cards[..|cards|] == cards;
  }

  /** In the pity draw each SSR card is selected by exactly its original weight of draws. */
  lemma PityOdds(cards: seq<Card>, i: nat)
    requires NonNegativeWeights(cards) && i < |Filtered(cards, RARITY_SSR)|
    requires 0 < TotalWeight(Filtered(cards, RARITY_SSR))
    ensures var ssr := Filtered(cards, RARITY_SSR);
      |Draws(ssr, i)| == ssr[i].weight && ssr[i] in cards && ssr[i].rarity == RARITY_SSR
  {
    var ssr := Filtered(cards, RARITY_SSR);
    FilteredCards(cards, RARITY_SSR);
    forall k | 0 <= k < |ssr| ensures ssr[k] in cards && 0 <= ssr[k].weight {
      assert ssr[k] in multiset(ssr);
      assert ssr[k] in multiset(cards);
    }
    ExactOdds(ssr, i);
  }
}

/** The pity state machine: one pull, a batch of pulls, and what any history of pulls satisfies. */
module GachaEngine {
  import opened GachaPool

  /** What a stored roll records about its pull. */
  datatype Mark = Mark(rarity: Rarity, isPity: bool)

  datatype Pull = Pull(card: Card, isPity: bool)
  {
    function ToMark(): Mark { Mark(card.rarity, isPity) }
  }

  datatype Batch = Batch(pulls: seq<Pull>, pity: int, state: nat)

  /** One turn of the roll loop: counter up, then a pity pull, a fallback pull, or a normal pull. */
  function DrawOne(g: Generator, pool: Pool, pity: int, state: nat): (Pull, int, nat) {
    var k := pity + 1;
    if pool.pityThreshold > 0 && k >= pool.pityThreshold then
      var ssr := Filtered(pool.cards, RARITY_SSR);
      if ssr == [] then
        var (card, state') := Pick(g, pool.cards, state);
        (Pull(card, false), 0, state')
      else
        var (card, state') := Pick(g, ssr, state);
        (Pull(card, true), 0, state')
    else
      var (card, state') := Pick(g, pool.cards, state);
      (Pull(card, false), if card.rarity == RARITY_SSR then 0 else k, state')
  }

  /** The card is the one the generator's draw out of the total weight selects; without weight it is the zero card. */
  ghost predicate PickedFrom(g: Generator, cards: seq<Card>, state: nat, card: Card, next: nat) {
    if cards != [] && 0 < TotalWeight(cards) then
      && next == g(state, TotalWeight(cards)).0
      && exists i: nat :: Selects(cards, g(state, TotalWeight(cards)).1, i) && card == cards[i]
    else
      card == Card("", "", "", 0) && next == state
  }

  lemma PickIsPicked(g: Generator, cards: seq<Card>, state: nat)
    ensures PickedFrom(g, cards, state, Pick(g, cards, state).0, Pick(g, cards, state).1)
  {
  }

  ghost predicate HasRarity(cards: seq<Card>, rarity: Rarity) {
    exists c :: c in cards && c.rarity == rarity
  }

  lemma FilteredIfAny(cards: seq<Card>, rarity: Rarity)
    ensures HasRarity(cards, rarity) <==> Filtered(cards, rarity) != []
  {
    FilteredCards(cards, rarity);
    var some := Filtered(cards, rarity);
    if c :| c in cards && c.rarity == rarity {
      assert c in multiset(cards);
      assert c in multiset(some);
    }
    if some != [] {
      assert some[0] in multiset(some);
      assert some[0] in multiset(cards);
      assert some[0] in cards && some[0].rarity == rarity;
    }
  }

  /**
   Which card one pull gives. Below the threshold it comes from the whole pool; at the threshold from the SSR cards, and
   from the whole pool when there is none.
  */
  lemma PullComesFrom(g: Generator, pool: Pool, pity: int, state: nat)
    ensures var (pull, pity', state') := DrawOne(g, pool, pity, state);
      var due := pool.pityThreshold > 0 && pity + 1 >= pool.pityThreshold;
      && (pull.isPity <==> due && HasRarity(pool.cards, "SSR"))
      && (if pull.isPity
          then exists ssr :: CardsOf(pool.cards, "SSR", ssr) && PickedFrom(g, ssr, state, pull.card, state')
          else PickedFrom(g, pool.cards, state, pull.card, state'))
      && pity' == if due || pull.card.rarity == "SSR" then 0 else pity + 1
  {
    var ssr := Filtered(pool.cards, "SSR");
    FilteredIfAny(pool.cards, "SSR");
    FilteredInOrder(pool.cards, "SSR");
    PickIsPicked(g, pool.cards, state);
    PickIsPicked(g, ssr, state);
    hide PickedFrom, CardsOf, HasRarity, Pick, Filtered;
  }

  /** A generator whose next draw is x. */
  function Drawing(x: nat): Generator {
    (s: nat, n: nat) => (s, if x < n then x else 0)
  }

  /**
   Below the threshold, and at it where there is no SSR card, each position of the pool is pulled by exactly its weight
   out of the total weight of draws.
  */
  lemma NormalPullOdds(pool: Pool, pity: int, i: nat)
    requires NonNegativeWeights(pool.cards) && 0 < TotalWeight(pool.cards) && i < |pool.cards|
    requires pool.pityThreshold <= 0 || pity + 1 < pool.pityThreshold || !HasRarity(pool.cards, "SSR")
    ensures |Draws(pool.cards, i)| == pool.cards[i].weight
    ensures forall x: nat | x < TotalWeight(pool.cards) ::
              x in Draws(pool.cards, i) ==> DrawOne(Drawing(x), pool, pity, 0).0.card == pool.cards[i]
  {
    ExactOdds(pool.cards, i);
    forall x: nat | x < TotalWeight(pool.cards) && x in Draws(pool.cards, i)
      ensures DrawOne(Drawing(x), pool, pity, 0).0.card == pool.cards[i]
    {
      PullComesFrom(Drawing(x), pool, pity, 0);
      var j: nat :| Selects(pool.cards, x, j) && DrawOne(Drawing(x), pool, pity, 0).0.card == pool.cards[j];
      SelectsIsUnique(pool.cards, x, j, i);
    }
  }

  /** At the threshold each SSR card is pulled by exactly its weight out of the SSR cards' total weight of draws. */
  lemma PityPullOdds(pool: Pool, pity: int, i: nat)
    requires NonNegativeWeights(pool.cards) && 0 < TotalWeight(Filtered(pool.cards, "SSR"))
    requires i < |Filtered(pool.cards, "SSR")| && pool.pityThreshold > 0 && pity + 1 >= pool.pityThreshold
    ensures var ssr := Filtered(pool.cards, "SSR");
      && |Draws(ssr, i)| == ssr[i].weight && ssr[i] in pool.cards && ssr[i].rarity == "SSR"
      && forall x: nat | x < TotalWeight(ssr) && x in Draws(ssr, i) ::
        DrawOne(Drawing(x), pool, pity, 0).0.card == ssr[i]
  {
    PityOdds(pool.cards, i);
  }

  function DrawMany(g: Generator, pool: Pool, pity: int, state: nat, n: nat): (b: Batch)
    ensures |b.pulls| == n
  {
    if n == 0 then Batch([], pity, state)
    else Extended(g, pool, DrawMany(g, pool, pity, state, n - 1))
  }

  /** A batch with one more pull. */
  function Extended(g: Generator, pool: Pool, b: Batch): Batch {
    var (pull, pity', state') := DrawOne(g, pool, b.pity, b.state);
    Batch(b.pulls + [pull], pity', state')
  }

  /** Splitting a batch changes nothing: same cards, same pity flags, same counter, on the same random stream. */
  lemma {:induction false} BatchingIsTransparent(g: Generator, pool: Pool, pity: int, state: nat, m: nat, n: nat)
    ensures var first := DrawMany(g, pool, pity, state, m);
      var second := DrawMany(g, pool, first.pity, first.state, n);
      DrawMany(g, pool, pity, state, m + n) == Batch(first.pulls + second.pulls, second.pity, second.state)
  {
    if n > 0 {
      BatchingIsTransparent(g, pool, pity, state, m, n - 1);
      var first := DrawMany(g, pool, pity, state, m);
      var almost := DrawMany(g, pool, first.pity, first.state, n - 1);
      var so := DrawMany(g, pool, pity, state, m + n - 1);
      assert so == Batch(first.pulls + almost.pulls, almost.pity, almost.state);
      assert DrawMany(g, pool, pity, state, m + n) == Extended(g, pool, so);
      assert first.pulls + Extended(g, pool, almost).pulls == Extended(g, pool, so).pulls;
    }
  }

  // ---- Histories ----

  /** The pity counter after a history, from counter c: pulls since the last SSR, or c more when there was none. */
  function CounterAfter(c: int, history: seq<Mark>): int {
    if history == [] then c
    else if history[|history| - 1].rarity == RARITY_SSR then 0
    else CounterAfter(c, history[..|history| - 1]) + 1
  }

  /** The pools for which the ceiling is promised. */
  predicate Guaranteed(pool: Pool) {
    pool.pityThreshold >= 1 && TotalWeight(Filtered(pool.cards, RARITY_SSR)) > 0
  }

  /** A pull is marked as pity exactly when the counter reached the threshold, and then it is an SSR. */
  ghost predicate HistoryOk(threshold: int, c: int, history: seq<Mark>) {
    forall k | 0 <= k < |history| ::
      && (history[k].isPity <==> CounterAfter(c, history[..k]) + 1 >= threshold)
      && (history[k].isPity ==> history[k].rarity == RARITY_SSR)
  }

  /** One of the n pulls starting at position from is an SSR. */
  ghost predicate HasSSR(history: seq<Mark>, from: nat, n: nat) {
    exists k :: from <= k < from + n && k < |history| && history[k].rarity == RARITY_SSR
  }

  /** Any threshold consecutive pulls contain an SSR. */
  ghost predicate Ceiling(threshold: nat, history: seq<Mark>) {
    forall i: nat | i + threshold <= |history| :: HasSSR(history, i, threshold)
  }

  lemma PityPullIsSSR(g: Generator, pool: Pool, state: nat)
    requires Guaranteed(pool)
    ensures Filtered(pool.cards, RARITY_SSR) != []
    ensures Pick(g, Filtered(pool.cards, RARITY_SSR), state).0.rarity == RARITY_SSR
  {
    FilteredCards(pool.cards, RARITY_SSR);
  }

  /** One more pull, from the counter the history gives, extends the history correctly. */
  lemma DrawExtendsHistory(g: Generator, pool: Pool, c: int, history: seq<Mark>, state: nat)
    requires Guaranteed(pool) && HistoryOk(pool.pityThreshold, c, history)
    ensures var (pull, pity', _) := DrawOne(g, pool, CounterAfter(c, history), state);
      var history' := history + [pull.ToMark()];
      HistoryOk(pool.pityThreshold, c, history') && pity' == CounterAfter(c, history')
  {
    PityPullIsSSR(g, pool, state);
    var (pull, pity', _) := DrawOne(g, pool, CounterAfter(c, history), state);
    var history' := history + [pull.ToMark()];
    assert history'[..|history|] == history;
    forall k | 0 <= k < |history'|
      ensures history'[k].isPity <==> CounterAfter(c, history'[..k]) + 1 >= pool.pityThreshold
      ensures history'[k].isPity ==> history'[k].rarity == RARITY_SSR
    {
      assert history'[..k] == history[..k];
    }
  }

  function Marks(pulls: seq<Pull>): seq<Mark> {
    seq(|pulls|, i requires 0 <= i < |pulls| => pulls[i].ToMark())
  }

  lemma MarksSnoc(pulls: seq<Pull>, pull: Pull)
    ensures Marks(pulls + [pull]) == Marks(pulls) + [pull.ToMark()]
  {
  }

  lemma {:induction false} BatchExtendsHistory(g: Generator, pool: Pool, c: int, history: seq<Mark>, state: nat, n: nat)
    requires Guaranteed(pool) && HistoryOk(pool.pityThreshold, c, history)
    ensures var b := DrawMany(g, pool, CounterAfter(c, history), state, n);
      var history' := history + Marks(b.pulls);
      HistoryOk(pool.pityThreshold, c, history') && b.pity == CounterAfter(c, history')
  {
    hide HistoryOk, CounterAfter, DrawOne;
    var pity := CounterAfter(c, history);
    if n == 0 {
      assert history + Marks(DrawMany(g, pool, pity, state, n).pulls) == history;
    } else {
      BatchExtendsHistory(g, pool, c, history, state, n - 1);
      var b := DrawMany(g, pool, pity, state, n - 1);
      var soFar := history + Marks(b.pulls);
      DrawExtendsHistory(g, pool, c, soFar, b.state);
      var pull := DrawOne(g, pool, b.pity, b.state).0;
      MarksSnoc(b.pulls, pull);
      assert history + Marks(DrawMany(g, pool, pity, state, n).pulls) == soFar + [pull.ToMark()];
    }
  }

  lemma {:induction false} CounterWithoutSSR(c: int, history: seq<Mark>, from: nat, n: nat)
    requires from + n <= |history| && !HasSSR(history, from, n)
    ensures CounterAfter(c, history[..from + n]) == CounterAfter(c, history[..from]) + n
  {
    if n > 0 {
      assert forall k | from <= k < from + n :: history[k].rarity != RARITY_SSR;
      CounterWithoutSSR(c, history, from, n - 1);
      assert history[..from + n][..from + n - 1] == history[..from + n - 1];
    }
  }

  lemma {:induction false} CounterNonNegative(c: int, history: seq<Mark>)
    requires 0 <= c
    ensures 0 <= CounterAfter(c, history)
  {
    if history != [] { CounterNonNegative(c, history[..|history| - 1]); }
  }

  /** The hard ceiling, for every history the engine can produce from any stored counter. */
  lemma HistoryHasCeiling(threshold: nat, c: int, history: seq<Mark>)
    requires 1 <= threshold && 0 <= c && HistoryOk(threshold, c, history)
    ensures Ceiling(threshold, history)
  {
    forall i: nat | i + threshold <= |history| ensures HasSSR(history, i, threshold) {
      var last := i + threshold - 1;
      if !HasSSR(history, i, threshold - 1) {
        CounterWithoutSSR(c, history, i, threshold - 1);
        CounterNonNegative(c, history[..i]);
        assert history[last].isPity;
      } else {
        var k :| i <= k < last && k < |history| && history[k].rarity == RARITY_SSR;
      }
    }
  }

  /** From zero, the counter has reached n exactly when the last n pulls were all non-SSR. */
  lemma CounterReaches(history: seq<Mark>, n: nat, k: nat)
    requires k <= |history|
    ensures CounterAfter(0, history[..k]) >= n <==> n <= k && !HasSSR(history, k - n, n)
  {
    if n <= k {
      if HasSSR(history, k - n, n) {
        CounterAfterSSR(history, k - n, n);
      } else {
        CounterWithoutSSR(0, history, k - n, n);
        CounterNonNegative(0, history[..k - n]);
      }
    } else {
      CounterSmall(history[..k]);
    }
  }

  /** From a zero counter, a pull is pity exactly when the threshold - 1 pulls before it were all non-SSR. */
  lemma PityExactly(threshold: nat, history: seq<Mark>, k: nat)
    requires 1 <= threshold && HistoryOk(threshold, 0, history) && k < |history|
    ensures history[k].isPity <==> threshold - 1 <= k && !HasSSR(history, k - (threshold - 1), threshold - 1)
  {
    CounterReaches(history, threshold - 1, k);
  }

  lemma {:induction false} CounterSmall(history: seq<Mark>)
    ensures CounterAfter(0, history) <= |history|
  {
    if history != [] { CounterSmall(history[..|history| - 1]); }
  }

  /** An SSR among the last n pulls keeps the counter below n. */
  lemma {:induction false} CounterAfterSSR(history: seq<Mark>, from: nat, n: nat)
    requires from + n <= |history| && HasSSR(history, from, n)
    ensures CounterAfter(0, history[..from + n]) < n
  {
    var last := from + n - 1;
    assert history[..from + n][..last] == history[..last];
    if history[last].rarity != RARITY_SSR {
      var k :| from <= k < from + n && k < |history| && history[k].rarity == RARITY_SSR;
      assert HasSSR(history, from, n - 1);
      CounterAfterSSR(history, from, n - 1);
    }
  }

  /** The counter stays below the threshold. */
  lemma CounterBelowThreshold(threshold: int, c: int, history: seq<Mark>)
    requires 1 <= threshold && 0 <= c < threshold && HistoryOk(threshold, c, history)
    ensures 0 <= CounterAfter(c, history) < threshold
  {
    CounterNonNegative(c, history);
    if history != [] {
      var last := |history| - 1;
      if history[last].rarity != RARITY_SSR {
        assert !history[last].isPity;
      }
    }
  }

  // ---- When the ceiling holds ----

  /** With SSR cards of zero total weight, and no negative weights, no pull is ever an SSR. */
  lemma NoWeightNoSSR(g: Generator, pool: Pool, pity: int, state: nat)
    requires NonNegativeWeights(pool.cards) && TotalWeight(Filtered(pool.cards, RARITY_SSR)) <= 0
    ensures DrawOne(g, pool, pity, state).0.card.rarity != RARITY_SSR
  {
    var card := Pick(g, pool.cards, state).0;
    if pool.cards != [] && TotalWeight(pool.cards) > 0 {
      var draw := g(state, TotalWeight(pool.cards)).1;
      var i := PickIndex(pool.cards, draw);
      DrawsOfPosition(pool.cards, draw, i);
      if card.rarity == RARITY_SSR {
        WeightInFilter(pool.cards, RARITY_SSR, i);
        assert false;
      }
    }
  }

  lemma {:induction false} WeightInFilter(cards: seq<Card>, rarity: Rarity, i: nat)
    requires NonNegativeWeights(cards) && i < |cards| && cards[i].rarity == rarity
    ensures cards[i].weight <= TotalWeight(Filtered(cards, rarity))
  {
    var n := |cards| - 1;
    assert cards[..|cards|] == cards;
    FilteredTotalStep(cards, rarity, |cards|);
    if i < n {
      WeightInFilter(cards[..n], rarity, i);
    } else {
      FilteredTotalNonNegative(cards[..n], rarity);
    }
  }

  lemma {:induction false} FilteredTotalNonNegative(cards: seq<Card>, rarity: Rarity)
    requires NonNegativeWeights(cards)
    ensures 0 <= TotalWeight(Filtered(cards, rarity))
  {
    if cards != [] {
      assert cards[..|cards|] == cards;
      FilteredTotalStep(cards, rarity, |cards|);
      FilteredTotalNonNegative(cards[..|cards| - 1], rarity);
    }
  }

  lemma {:induction false} NoWeightNoSSREver(g: Generator, pool: Pool, pity: int, state: nat, n: nat)
    requires NonNegativeWeights(pool.cards) && TotalWeight(Filtered(pool.cards, RARITY_SSR)) <= 0
    ensures !HasSSR(Marks(DrawMany(g, pool, pity, state, n).pulls), 0, n)
  {
    if n > 0 {
      NoWeightNoSSREver(g, pool, pity, state, n - 1);
      var b := DrawMany(g, pool, pity, state, n - 1);
      NoWeightNoSSR(g, pool, b.pity, b.state);
      var marks := Marks(DrawMany(g, pool, pity, state, n).pulls);
      forall k | 0 <= k < n ensures marks[k].rarity != RARITY_SSR {
        if k < n - 1 { assert marks[k] == Marks(b.pulls)[k]; }
      }
    }
  }

  /**
   The ceiling holds for every batch from every counter on one random stream exactly when the SSR cards have positive
   total weight.
  */
  lemma CeilingExactly(g: Generator, pool: Pool)
    requires 1 <= pool.pityThreshold && NonNegativeWeights(pool.cards)
    ensures (forall c: nat, state: nat, n: nat ::
      Ceiling(pool.pityThreshold, Marks(DrawMany(g, pool, c, state, n).pulls)))
            <==> 0 < TotalWeight(Filtered(pool.cards, RARITY_SSR))
  {
    var t := pool.pityThreshold;
    if Guaranteed(pool) {
      forall c: nat, state: nat, n: nat ensures Ceiling(t, Marks(DrawMany(g, pool, c, state, n).pulls)) {
        BatchExtendsHistory(g, pool, c, [], state, n);
        var marks := Marks(DrawMany(g, pool, c, state, n).pulls);
        assert [] + marks == marks;
        HistoryHasCeiling(t, c, marks);
      }
    } else {
      var marks := Marks(DrawMany(g, pool, 0, 0, t).pulls);
      NoWeightNoSSREver(g, pool, 0, 0, t);
      assert 0 + t <= |marks| && !HasSSR(marks, 0, t);
      assert !Ceiling(t, marks);
    }
  }
}

/** The ranking order, and the one ranked view every score map has. */
module Ranking {
  type Scores = map<string, int>

  datatype Entry = Entry(playerId: string, score: int, rank: int)

  /** Byte-wise string order. */
  predicate Less(a: string, b: string) {
    b != [] && (a == [] || a[0] < b[0] || (a[0] == b[0] && Less(a[1..], b[1..])))
  }

  /** b continues a at place k, or there is the first difference, and b's character is larger. */
  ghost predicate LargerAt(b: string, a: string, k: nat) {
    k <= |a| && k < |b| && a[..k] == b[..k] && (k == |a| || a[k] < b[k])
  }

  lemma {:induction false} LargerIsLess(a: string, b: string, k: nat)
    requires LargerAt(b, a, k)
    ensures Less(a, b)
    decreases k
  {
    if k > 0 {
      assert a[..k][0] == b[..k][0];
      assert a[1..][..k - 1] == a[..k][1..] && b[1..][..k - 1] == b[..k][1..];
      LargerIsLess(a[1..], b[1..], k - 1);
    }
  }

  lemma {:induction false} LessHasPlace(a: string, b: string) returns (k: nat)
    requires Less(a, b)
    ensures LargerAt(b, a, k)
    decreases |a|
  {
    k := 0;
    if a != [] && a[0] == b[0] {
      k := LessHasPlace(a[1..], b[1..]);
      assert a[..k + 1] == [a[0]] + a[1..][..k] && b[..k + 1] == [b[0]] + b[1..][..k];
      k := k + 1;
    }
  }

  /** What the order is, without its recursion. */
  lemma LessExactly(a: string, b: string)
    ensures Less(a, b) <==> exists k: nat :: LargerAt(b, a, k)
  {
    if Less(a, b) { var k := LessHasPlace(a, b); }
    if k: nat :| LargerAt(b, a, k) { LargerIsLess(a, b, k); }
  }

  lemma {:induction false} LessIsStrict(a: string)
    ensures !Less(a, a)
  {
    if a != [] { LessIsStrict(a[1..]); }
  }

  lemma {:induction false} LessTransitive(a: string, b: string, c: string)
    requires Less(a, b) && Less(b, c)
    ensures Less(a, c)
  {
    if a != [] && a[0] == b[0] == c[0] { LessTransitive(a[1..], b[1..], c[1..]); }
  }

  lemma {:induction false} LessTotal(a: string, b: string)
    ensures a == b || Less(a, b) || Less(b, a)
  {
    if a != [] && b != [] && a[0] == b[0] {
      LessTotal(a[1..], b[1..]);
      assert a == [a[0]] + a[1..] && b == [b[0]] + b[1..];
    }
  }

  /** (score, id) comes before (score, id): higher score first, then the larger id. */
  predicate Before(s: int, p: string, t: int, q: string) {
    s > t || (s == t && Less(q, p))
  }

  lemma BeforeStrict(s: int, p: string)
    ensures !Before(s, p, s, p)
  {
    LessIsStrict(p);
  }

  lemma BeforeTransitive(s: int, p: string, t: int, q: string, u: int, r: string)
    requires Before(s, p, t, q) && Before(t, q, u, r)
    ensures Before(s, p, u, r)
  {
    if s == t == u { LessTransitive(r, q, p); }
  }

  lemma BeforeTotal(s: int, p: string, t: int, q: string)
    requires p != q
    ensures Before(s, p, t, q) || Before(t, q, s, p)
  {
    LessTotal(p, q);
  }

  lemma BeforeAsymmetric(s: int, p: string, t: int, q: string)
    requires Before(s, p, t, q)
    ensures !Before(t, q, s, p)
  {
    if Before(t, q, s, p) {
      BeforeTransitive(s, p, t, q, s, p);
      BeforeStrict(s, p);
    }
  }

  predicate Ahead(scores: Scores, q: string, p: string) {
    q in scores && p in scores && Before(scores[q], q, scores[p], p)
  }

  /** The players ranked ahead of p. */
  function AheadOf(scores: Scores, p: string): set<string>
    requires p in scores
  {
    set q | q in scores && Before(scores[q], q, scores[p], p)
  }

  /** Rank as a counting formula: one more than the number of players with a greater (score, id). */
  function RankOf(scores: Scores, p: string): nat
    requires p in scores
  {
    1 + |AheadOf(scores, p)|
  }

  /** Strictly ordered entries. */
  ghost predicate Ordered(v: seq<Entry>) {
    forall i, j | 0 <= i < j < |v| :: Before(v[i].score, v[i].playerId, v[j].score, v[j].playerId)
  }

  /** The entries are the score map, each player once. */
  ghost predicate Covers(v: seq<Entry>, scores: Scores) {
    && (forall i | 0 <= i < |v| :: v[i].playerId in scores && scores[v[i].playerId] == v[i].score)
    && (forall p | p in scores :: Listed(v, p))
  }

  ghost predicate Listed(v: seq<Entry>, p: string) {
    exists i :: 0 <= i < |v| && v[i].playerId == p
  }

  ghost predicate IsView(v: seq<Entry>, scores: Scores) {
    Ordered(v) && Covers(v, scores) && (forall i | 0 <= i < |v| :: v[i].rank == i + 1)
  }

  lemma OrderedIsDistinct(v: seq<Entry>, i: nat, j: nat)
    requires Ordered(v) && i < j < |v|
    ensures v[i].playerId != v[j].playerId || v[i].score > v[j].score
  {
    if v[i].playerId == v[j].playerId { LessIsStrict(v[i].playerId); }
  }

  /** In a view, who is ahead is who stands at a smaller position. */
  lemma AheadIsPosition(v: seq<Entry>, scores: Scores, i: nat, j: nat)
    requires Ordered(v) && Covers(v, scores) && i < |v| && j < |v|
    ensures Before(v[i].score, v[i].playerId, v[j].score, v[j].playerId) <==> i < j
  {
    if j < i {
      BeforeAsymmetric(v[j].score, v[j].playerId, v[i].score, v[i].playerId);
    } else if i == j {
      BeforeStrict(v[i].score, v[i].playerId);
    }
  }

  function IdsOf(v: seq<Entry>, n: nat): set<string>
    requires n <= |v|
  {
    if n == 0 then {} else IdsOf(v, n - 1) + {v[n - 1].playerId}
  }

  lemma {:induction false} IdsOfMembers(v: seq<Entry>, n: nat, q: string)
    requires n <= |v|
    ensures q in IdsOf(v, n) <==> exists i :: 0 <= i < n && v[i].playerId == q
  {
    if n > 0 {
      IdsOfMembers(v, n - 1, q);
      if q == v[n - 1].playerId { assert 0 <= n - 1 < n && v[n - 1].playerId == q; }
    }
  }

  lemma {:induction false} IdsOfSize(v: seq<Entry>, scores: Scores, n: nat)
    requires Ordered(v) && Covers(v, scores) && n <= |v|
    ensures |IdsOf(v, n)| == n
  {
    if n > 0 {
      IdsOfSize(v, scores, n - 1);
      IdsOfMembers(v, n - 1, v[n - 1].playerId);
      forall i: nat | i < n - 1 ensures v[i].playerId != v[n - 1].playerId {
        OrderedIsDistinct(v, i, n - 1);
      }
    }
  }

  /** A view lists every player at the position its rank formula gives. */
  lemma PositionIsRank(v: seq<Entry>, scores: Scores, k: nat)
    requires Ordered(v) && Covers(v, scores) && k < |v|
    ensures v[k].playerId in scores && RankOf(scores, v[k].playerId) == k + 1
  {
    var p := v[k].playerId;
    IdsOfSize(v, scores, k);
    forall q ensures q in AheadOf(scores, p) <==> q in IdsOf(v, k) {
      IdsOfMembers(v, k, q);
      if q in AheadOf(scores, p) {
        assert Listed(v, q);
        var i :| 0 <= i < |v| && v[i].playerId == q;
        AheadIsPosition(v, scores, i, k);
      }
      if q in IdsOf(v, k) {
        var i :| 0 <= i < k && v[i].playerId == q;
        AheadIsPosition(v, scores, i, k);
      }
    }
    assert AheadOf(scores, p) == IdsOf(v, k);
  }

  lemma ViewLength(v: seq<Entry>, scores: Scores)
    requires Ordered(v) && Covers(v, scores)
    ensures |v| == |scores|
  {
    IdsOfSize(v, scores, |v|);
    forall q ensures q in scores.Keys <==> q in IdsOf(v, |v|) {
      IdsOfMembers(v, |v|, q);
      if q in scores { assert Listed(v, q); }
    }
    assert scores.Keys == IdsOf(v, |v|);
  }

  /** A score map has one view, whatever order its players were visited in. */
  lemma ViewIsUnique(v: seq<Entry>, w: seq<Entry>, scores: Scores)
    requires IsView(v, scores) && IsView(w, scores)
    ensures v == w
  {
    ViewLength(v, scores);
    ViewLength(w, scores);
    forall k: nat | k < |v| ensures v[k] == w[k] {
      PositionIsRank(v, scores, k);
      assert Listed(w, v[k].playerId);
      var j :| 0 <= j < |w| && w[j].playerId == v[k].playerId;
      PositionIsRank(w, scores, j);
    }
  }

  // ---- Rank moves ----

  /** A player's score, zero before its first increment. */
  function ScoreOf(scores: Scores, p: string): int {
    if p in scores then scores[p] else 0
  }

  /** The scores after an increment. */
  function Bumped(scores: Scores, p: string, delta: int): Scores {
    scores[p := ScoreOf(scores, p) + delta]
  }

  lemma AheadChanges(scores: Scores, p: string, delta: int, q: string)
    requires q in scores && q != p
    ensures AheadOf(Bumped(scores, p, delta), q) - {p} == AheadOf(scores, q) - {p}
    ensures p in AheadOf(Bumped(scores, p, delta), q) <==> Ahead(Bumped(scores, p, delta), p, q)
    ensures p in AheadOf(scores, q) <==> Ahead(scores, p, q)
  {
  }

  /** Between two players who did not move, nothing changes. */
  lemma OthersKeepOrder(scores: Scores, p: string, delta: int, q: string, r: string)
    requires q in scores && r in scores && q != p && r != p
    ensures Ahead(Bumped(scores, p, delta), q, r) <==> Ahead(scores, q, r)
  {
  }

  lemma SizeWithout<T>(s: set<T>, x: T)
    ensures |s| == |s - {x}| + if x in s then 1 else 0
  {
    if x in s { assert s == (s - {x}) + {x}; } else { assert s == s - {x}; }
  }

  /**
   An increment moves everyone else by at most one place: a player drops by one exactly when p got ahead of them, rises
   by one exactly when p fell behind them, and otherwise stays.
  */
  lemma OthersMoveByOne(scores: Scores, p: string, delta: int, q: string)
    requires q in scores && q != p
    ensures RankOf(Bumped(scores, p, delta), q) ==
            RankOf(scores, q)
            + (if Ahead(Bumped(scores, p, delta), p, q) then 1 else 0)
            - (if Ahead(scores, p, q) then 1 else 0)
  {
    AheadChanges(scores, p, delta, q);
    SizeWithout(AheadOf(Bumped(scores, p, delta), q), p);
    SizeWithout(AheadOf(scores, q), p);
  }

  /** The players a raise of p overtakes. */
  function Overtaken(scores: Scores, p: string, delta: int): set<string> {
    set q | q in scores && q != p && !Ahead(scores, p, q) && Ahead(Bumped(scores, p, delta), p, q)
  }

  /**
   A raise moves ranks minimally: p climbs by exactly the number of players it overtakes, each of them drops by exactly
   one, every other rank stays.
  */
  lemma RaiseMovesMinimally(scores: Scores, p: string, delta: int)
    requires p in scores && delta > 0
    ensures RankOf(Bumped(scores, p, delta), p) == RankOf(scores, p) - |Overtaken(scores, p, delta)|
    ensures forall q | q in scores && q != p ::
              RankOf(Bumped(scores, p, delta), q) == RankOf(scores, q) + if q in Overtaken(scores, p, delta)
                then 1 else 0
  {
    var after := Bumped(scores, p, delta);
    var over := Overtaken(scores, p, delta);
    forall q | q in scores && q != p
      ensures RankOf(after, q) == RankOf(scores, q) + if q in over then 1 else 0
    {
      OthersMoveByOne(scores, p, delta, q);
      if Ahead(scores, p, q) { assert Ahead(after, p, q); }
    }
    BeforeStrict(scores[p], p);
    BeforeStrict(after[p], p);
    forall q ensures q in AheadOf(scores, p) <==> q in AheadOf(after, p) + over {
      if q in scores && q != p {
        BeforeTotal(scores[q], q, scores[p], p);
        BeforeTotal(after[q], q, after[p], p);
        if Before(scores[q], q, scores[p], p) { BeforeAsymmetric(scores[q], q, scores[p], p); }
        if Before(after[q], q, after[p], p) { BeforeAsymmetric(after[q], q, after[p], p); }
      }
    }
    assert AheadOf(scores, p) == AheadOf(after, p) + over;
    assert AheadOf(after, p) !! over by {
      forall q | q in over ensures q !in AheadOf(after, p) {
        BeforeAsymmetric(after[p], p, after[q], q);
      }
    }
  }

  /** A new entrant pushes down exactly the players behind it, by one place each. */
  lemma NewEntrantShiftsBelow(scores: Scores, p: string, delta: int, q: string)
    requires p !in scores && q in scores
    ensures RankOf(Bumped(scores, p, delta), q) ==
            RankOf(scores, q) + if RankOf(Bumped(scores, p, delta), p) < RankOf(Bumped(scores, p, delta), q)
              then 1 else 0
  {
    OthersMoveByOne(scores, p, delta, q);
    RankDecidesOrder(Bumped(scores, p, delta), p, q);
  }

  /** Ranks and the order say the same. */
  lemma RankDecidesOrder(scores: Scores, p: string, q: string)
    requires p in scores && q in scores && p != q
    ensures RankOf(scores, p) < RankOf(scores, q) <==> Ahead(scores, p, q)
  {
    BeforeTotal(scores[p], p, scores[q], q);
    if Ahead(scores, p, q) {
      AheadHasSmallerRank(scores, p, q);
    } else {
      AheadHasSmallerRank(scores, q, p);
    }
  }

  lemma AheadHasSmallerRank(scores: Scores, p: string, q: string)
    requires Ahead(scores, p, q)
    ensures RankOf(scores, p) < RankOf(scores, q)
  {
    BeforeStrict(scores[p], p);
    forall r | r in AheadOf(scores, p) ensures r in AheadOf(scores, q) {
      BeforeTransitive(scores[r], r, scores[p], p, scores[q], q);
    }
    assert AheadOf(scores, p) + {p} <= AheadOf(scores, q);
    SizeWithout(AheadOf(scores, q), p);
    SubsetSize(AheadOf(scores, p), AheadOf(scores, q) - {p});
  }

  lemma {:induction false} SubsetSize<T>(a: set<T>, b: set<T>)
    requires a <= b
    ensures |a| <= |b|
  {
    assert b == a + (b - a);
  }
}

/** The sort-on-read leaderboard, and the ranked view every one of its queries is a window of. */
module Leaderboard {
  import opened Ranking

  datatype Reply<T> = Returned(value: T) | NotRanked | Panic

  /** Two's-complement wrap-around of a 64-bit sum. */
  function Int64(n: int): int
    decreases if n < 0 then -n - 1 else n
  {
    if n > MAX_INT64 then Int64(n - 0x1_0000_0000_0000_0000)
    else if n < -MAX_INT64 - 1 then Int64(n + 0x1_0000_0000_0000_0000)
    else n
  }

  const MAX_INT64 := 0x7FFF_FFFF_FFFF_FFFF

  /** The one 64-bit integer that differs from the sum by a multiple of 2^64. */
  lemma {:induction false} Int64Wraps(n: int)
    ensures -0x8000_0000_0000_0000 <= Int64(n) < 0x8000_0000_0000_0000
    ensures exists wraps: int :: Int64(n) == n + wraps * 0x1_0000_0000_0000_0000
    decreases if n < 0 then -n - 1 else n
  {
    if n > MAX_INT64 {
      Int64Wraps(n - 0x1_0000_0000_0000_0000);
      var w: int :| Int64(n) == n - 0x1_0000_0000_0000_0000 + w * 0x1_0000_0000_0000_0000;
      assert Int64(n) == n + (w - 1) * 0x1_0000_0000_0000_0000;
    } else if n < -MAX_INT64 - 1 {
      Int64Wraps(n + 0x1_0000_0000_0000_0000);
      var w: int :| Int64(n) == n + 0x1_0000_0000_0000_0000 + w * 0x1_0000_0000_0000_0000;
      assert Int64(n) == n + (w + 1) * 0x1_0000_0000_0000_0000;
    } else {
      assert Int64(n) == n + 0 * 0x1_0000_0000_0000_0000;
    }
  }

  // ---- Sorting ----

  predicate EntryBefore(a: Entry, b: Entry) {
    Before(a.score, a.playerId, b.score, b.playerId)
  }

  function Insert(v: seq<Entry>, e: Entry): seq<Entry> {
    if v == [] then [e]
    else if EntryBefore(e, v[0]) then [e] + v
    else [v[0]] + Insert(v[1..], e)
  }

  /** Stands for the library sort. */
  function Sorted(entries: seq<Entry>): seq<Entry> {
    if entries == [] then [] else Insert(Sorted(entries[..|entries| - 1]), entries[|entries| - 1])
  }

  function Ranked(v: seq<Entry>): seq<Entry> {
    seq(|v|, i requires 0 <= i < |v| => v[i].(rank := i + 1))
  }

  ghost predicate DistinctIds(v: seq<Entry>) {
    forall i, j | 0 <= i < j < |v| :: v[i].playerId != v[j].playerId
  }

  lemma {:induction false} InsertMembers(v: seq<Entry>, e: Entry, x: Entry)
    ensures x in Insert(v, e) <==> x in v || x == e
    decreases |v|
  {
    if v != [] && !EntryBefore(e, v[0]) {
      InsertMembers(v[1..], e, x);
      assert v == [v[0]] + v[1..];
    }
  }

  ghost predicate BeforeAll(x: Entry, v: seq<Entry>) {
    forall y | y in v :: EntryBefore(x, y)
  }

  lemma OrderedCons(x: Entry, v: seq<Entry>)
    requires Ordered(v) && BeforeAll(x, v)
    ensures Ordered([x] + v)
  {
    var w := [x] + v;
    forall i, j | 0 <= i < j < |w| ensures EntryBefore(w[i], w[j]) {
      assert w[j] == v[j - 1] && v[j - 1] in v;
      if i > 0 { assert w[i] == v[i - 1]; }
    }
  }

  lemma {:induction false} InsertOrdered(v: seq<Entry>, e: Entry)
    requires Ordered(v) && (forall x | x in v :: x.playerId != e.playerId)
    ensures Ordered(Insert(v, e))
    decreases |v|
  {
    if v == [] {
    } else if EntryBefore(e, v[0]) {
      forall y | y in v ensures EntryBefore(e, y) {
        var k :| 0 <= k < |v| && v[k] == y;
        if k > 0 {
          BeforeTransitive(e.score, e.playerId, v[0].score, v[0].playerId, y.score, y.playerId);
        }
      }
      OrderedCons(e, v);
    } else {
      var rest := v[1..];
      assert forall x | x in rest :: x in v;
      InsertOrdered(rest, e);
      forall y | y in Insert(rest, e) ensures EntryBefore(v[0], y) {
        InsertMembers(rest, e, y);
        if y in rest {
          var k :| 0 <= k < |rest| && rest[k] == y;
          assert v[k + 1] == y;
        } else {
          assert v[0] in v;
          BeforeTotal(v[0].score, v[0].playerId, e.score, e.playerId);
        }
      }
      OrderedCons(v[0], Insert(rest, e));
    }
  }

  lemma {:induction false} SortedIsPermutation(entries: seq<Entry>, x: Entry)
    ensures x in Sorted(entries) <==> x in entries
  {
    if entries != [] {
      var n := |entries| - 1;
      SortedIsPermutation(entries[..n], x);
      InsertMembers(Sorted(entries[..n]), entries[n], x);
      assert entries == entries[..n] + [entries[n]];
    }
  }

  lemma {:induction false} SortedIsOrdered(entries: seq<Entry>)
    requires DistinctIds(entries)
    ensures Ordered(Sorted(entries))
  {
    if entries != [] {
      var n := |entries| - 1;
      SortedIsOrdered(entries[..n]);
      forall x | x in Sorted(entries[..n]) ensures x.playerId != entries[n].playerId {
        SortedIsPermutation(entries[..n], x);
        var k :| 0 <= k < n && entries[..n][k] == x;
        assert entries[k] == x;
      }
      InsertOrdered(Sorted(entries[..n]), entries[n]);
    }
  }

  /** Sorting any listing of the score map and numbering it gives its view. */
  lemma SortedListingIsView(entries: seq<Entry>, scores: Scores)
    requires DistinctIds(entries) && Covers(entries, scores)
    ensures IsView(Ranked(Sorted(entries)), scores)
  {
    SortedIsOrdered(entries);
    var s := Sorted(entries);
    var v := Ranked(s);
    forall i | 0 <= i < |v| ensures v[i].playerId in scores && scores[v[i].playerId] == v[i].score {
      SortedIsPermutation(entries, s[i]);
      assert s[i] in entries;
    }
    forall p | p in scores ensures Listed(v, p) {
      assert Listed(entries, p);
      var k :| 0 <= k < |entries| && entries[k].playerId == p;
      SortedIsPermutation(entries, entries[k]);
      var i :| 0 <= i < |s| && s[i] == entries[k];
      assert v[i].playerId == p;
    }
  }

  lemma ListedSnoc(v: seq<Entry>, e: Entry)
    ensures forall q :: Listed(v + [e], q) <==> Listed(v, q) || q == e.playerId
  {
    var all := v + [e];
    assert all[|v|] == e;
    forall q | Listed(v, q) ensures Listed(all, q) {
      var i :| 0 <= i < |v| && v[i].playerId == q;
      assert all[i].playerId == q;
    }
  }

  lemma {:induction false} ListingExists(scores: Scores) returns (entries: seq<Entry>)
    ensures DistinctIds(entries) && Covers(entries, scores)
    decreases |scores|
  {
    if scores == map[] {
      entries := [];
    } else {
      var p :| p in scores;
      var rest := scores - {p};
      assert rest.Keys == scores.Keys - {p};
      assert |rest.Keys| < |scores.Keys|;
      var earlier := ListingExists(rest);
      entries := earlier + [Entry(p, scores[p], 0)];
      forall q | q in scores ensures Listed(entries, q) {
        if q == p {
          assert entries[|earlier|].playerId == p;
        } else {
          assert q in rest && Listed(earlier, q);
          var i :| 0 <= i < |earlier| && earlier[i].playerId == q;
          assert entries[i].playerId == q;
        }
      }
    }
  }

  lemma ViewExists(scores: Scores)
    ensures exists v :: IsView(v, scores)
  {
    var entries := ListingExists(scores);
    SortedListingIsView(entries, scores);
  }

  /** The view of a score map. */
  ghost function View(scores: Scores): (v: seq<Entry>)
    ensures IsView(v, scores)
  {
    ViewExists(scores);
    var v :| IsView(v, scores);
    v
  }

  /** The view from its entries, ranked from 1: higher scores first, and of equal scores the larger id. */
  lemma ViewInOrder(scores: Scores)
    ensures |View(scores)| == |scores|
    ensures forall i | 0 <= i < |View(scores)| ::
      && View(scores)[i].playerId in scores && View(scores)[i].score == scores[View(scores)[i].playerId]
      && View(scores)[i].rank == i + 1
    ensures forall i, j | 0 <= i < j < |View(scores)| ::
      && View(scores)[i].score >= View(scores)[j].score
      && (View(scores)[i].score == View(scores)[j].score ==>
            var larger, smaller := View(scores)[i].playerId, View(scores)[j].playerId;
            exists k: nat :: LargerAt(larger, smaller, k))
  {
    var v := View(scores);
    ViewLength(v, scores);
    forall i, j | 0 <= i < j < |v| && v[i].score == v[j].score
      ensures Less(v[j].playerId, v[i].playerId)
    {
    }
    forall i, j | 0 <= i < j < |v| ensures v[i].score >= v[j].score {
    }
    forall p: string, q: string { LessExactly(p, q); }
  }

  // ---- Windows of the view ----

  ghost function TopOf(scores: Scores, n: int): Reply<seq<Entry>> {
    var v := View(scores);
    if n < 0 then Panic else Returned(v[..if n > |v| then |v| else n])
  }

  ghost function RankReply(scores: Scores, p: string): Reply<Entry> {
    if p in scores then Returned(Entry(p, scores[p], RankOf(scores, p))) else NotRanked
  }

  function Clamp(n: int, lo: int, hi: int): int {
    if n < lo then lo else if n > hi then hi else n
  }

  /** The entries at most radius places from p's own. */
  ghost function AroundOf(scores: Scores, p: string, radius: int): Reply<seq<Entry>> {
    if p !in scores then NotRanked
    else if radius < 0 then Panic
    else
      var v := View(scores);
      Returned(v[Clamp(RankOf(scores, p) - 1 - radius, 0, |v|)..Clamp(RankOf(scores, p) + radius, 0, |v|)])
  }

  /** The place of a player in the view is its rank. */
  lemma PlaceOf(scores: Scores, p: string)
    requires p in scores
    ensures 1 <= RankOf(scores, p) <= |View(scores)| == |scores|
    ensures View(scores)[RankOf(scores, p) - 1] == Entry(p, scores[p], RankOf(scores, p))
  {
    var v := View(scores);
    ViewLength(v, scores);
    assert Listed(v, p);
    var i :| 0 <= i < |v| && v[i].playerId == p;
    PositionIsRank(v, scores, i);
  }

  /** An entry of a slice of the view is what Rank returns for its player. */
  lemma WindowIsRanked(scores: Scores, lo: nat, hi: nat, e: Entry)
    requires lo <= hi <= |View(scores)| && e in View(scores)[lo..hi]
    ensures RankReply(scores, e.playerId) == Returned(e) && lo < e.rank <= hi
  {
    var v := View(scores);
    var k :| 0 <= k < hi - lo && v[lo..hi][k] == e;
    assert v[lo + k] == e;
    PositionIsRank(v, scores, lo + k);
  }

  lemma WindowHolds(scores: Scores, lo: nat, hi: nat, p: string)
    requires p in scores && lo <= hi <= |View(scores)|
    ensures RankReply(scores, p).value in View(scores)[lo..hi] <==> lo < RankOf(scores, p) <= hi
  {
    PlaceOf(scores, p);
    var v := View(scores);
    var e := RankReply(scores, p).value;
    if lo < RankOf(scores, p) <= hi {
      assert v[lo..hi][RankOf(scores, p) - 1 - lo] == e;
    }
    if e in v[lo..hi] {
      WindowIsRanked(scores, lo, hi, e);
    }
  }

  /** Entries of consecutive ranks, best first. */
  predicate RisingRanks(v: seq<Entry>) {
    forall i, j | 0 <= i < j < |v| :: v[j].rank == v[i].rank + j - i
  }

  lemma WindowRises(scores: Scores, lo: nat, hi: nat)
    requires lo <= hi <= |View(scores)|
    ensures RisingRanks(View(scores)[lo..hi])
  {
    var v := View(scores);
    forall i, j | 0 <= i < j < hi - lo ensures v[lo..hi][j].rank == v[lo..hi][i].rank + j - i {
      assert v[lo..hi][i] == v[lo + i] && v[lo..hi][j] == v[lo + j];
    }
  }

  /**
   The queries agree with each other, as windows of one ranking: a player's entry, as Rank returns it, occurs in Top
   exactly when n reaches its rank, and in Around exactly when its rank is at most radius away from the asked player's;
   both list their entries by rising rank without a gap, and every entry of either is what Rank returns for its player.
  */
  lemma QueriesAgree(scores: Scores, p: string, radius: nat, n: nat)
    requires p in scores
    ensures AroundOf(scores, p, radius).Returned? && TopOf(scores, n).Returned?
    ensures forall q | q in scores :: RankReply(scores, q).value in TopOf(scores, n).value <==> RankOf(scores, q) <= n
    ensures forall q | q in scores ::
              RankReply(scores, q).value in AroundOf(scores, p, radius).value
              <==> RankOf(scores, p) - radius <= RankOf(scores, q) <= RankOf(scores, p) + radius
    ensures RisingRanks(TopOf(scores, n).value) && RisingRanks(AroundOf(scores, p, radius).value)
    ensures forall e | e in AroundOf(scores, p, radius).value || e in TopOf(scores, n).value ::
              RankReply(scores, e.playerId) == Returned(e)
  {
    PlaceOf(scores, p);
    var size := |View(scores)|;
    var lo, hi := Clamp(RankOf(scores, p) - 1 - radius, 0, size), Clamp(RankOf(scores, p) + radius, 0, size);
    var cut := if n > size then size else n;
    assert View(scores)[0..cut] == View(scores)[..cut];
    forall q | q in scores
      ensures RankReply(scores, q).value in TopOf(scores, n).value <==> RankOf(scores, q) <= n
      ensures RankReply(scores, q).value in AroundOf(scores, p, radius).value
              <==> RankOf(scores, p) - radius <= RankOf(scores, q) <= RankOf(scores, p) + radius
    {
      PlaceOf(scores, q);
      WindowHolds(scores, lo, hi, q);
      WindowHolds(scores, 0, cut, q);
    }
    WindowRises(scores, lo, hi);
    WindowRises(scores, 0, cut);
    forall e | e in AroundOf(scores, p, radius).value || e in TopOf(scores, n).value
      ensures RankReply(scores, e.playerId) == Returned(e)
    {
      if e in AroundOf(scores, p, radius).value {
        WindowIsRanked(scores, lo, hi, e);
      } else {
        WindowIsRanked(scores, 0, cut, e);
      }
    }
  }

  /** What the handler reports of the player itself: its first entry, or zeros. */
  function SelfScan(entries: seq<Entry>, p: string): (int, int) {
    if entries == [] then (0, 0)
    else if entries[0].playerId == p then (entries[0].rank, entries[0].score)
    else SelfScan(entries[1..], p)
  }

  /** The handler's scan of an Around reply for the player itself. */
  method FindSelf(entries: seq<Entry>, playerId: string) returns (selfRank: int, selfScore: int)
    ensures (selfRank, selfScore) == SelfScan(entries, playerId)
  {
    selfRank, selfScore := 0, 0;
    for i := 0 to |entries|
      invariant SelfScan(entries[i..], playerId) == SelfScan(entries, playerId)
    {
      assert entries[i..][1..] == entries[i + 1..];
      if entries[i].playerId == playerId {
        return entries[i].rank, entries[i].score;
      }
    }
  }

  lemma {:induction false} ScanFinds(entries: seq<Entry>, p: string, e: Entry)
    requires e in entries && e.playerId == p && (forall x | x in entries && x.playerId == p :: x == e)
    ensures SelfScan(entries, p) == (e.rank, e.score)
  {
    assert entries[0] in entries;
    if entries[0].playerId != p {
      assert entries == [entries[0]] + entries[1..];
      ScanFinds(entries[1..], p, e);
    }
  }

  lemma {:induction false} ScanMisses(entries: seq<Entry>, p: string)
    requires forall x | x in entries :: x.playerId != p
    ensures SelfScan(entries, p) == (0, 0)
  {
    if entries != [] {
      assert entries[0] in entries;
      ScanMisses(entries[1..], p);
    }
  }

  /** A window of the view shows the player to the scan exactly when it reaches the player's rank. */
  lemma WindowScan(scores: Scores, lo: nat, hi: nat, p: string)
    requires p in scores && lo <= hi <= |View(scores)|
    ensures SelfScan(View(scores)[lo..hi], p) ==
            if lo < RankOf(scores, p) <= hi then (RankOf(scores, p), scores[p]) else (0, 0)
  {
    var window := View(scores)[lo..hi];
    var e := RankReply(scores, p).value;
    forall x | x in window && x.playerId == p ensures x == e {
      WindowIsRanked(scores, lo, hi, x);
    }
    WindowHolds(scores, lo, hi, p);
    if e in window {
      ScanFinds(window, p, e);
    } else {
      ScanMisses(window, p);
    }
  }

  /** The scan of an Around reply finds the rank and score that Rank returns. */
  lemma SelfScanAgrees(scores: Scores, p: string, radius: nat)
    requires p in scores
    ensures AroundOf(scores, p, radius).Returned?
    ensures SelfScan(AroundOf(scores, p, radius).value, p)
      == (RankReply(scores, p).value.rank, RankReply(scores, p).value.score)
  {
    PlaceOf(scores, p);
    var size := |View(scores)|;
    WindowScan(scores, Clamp(RankOf(scores, p) - 1 - radius, 0, size), Clamp(RankOf(scores, p) + radius, 0, size), p);
  }

  // ---- Rank moves under 64-bit totals ----

  /**
   A positive delta raises the stored score exactly when the sum fits 64 bits, and then ranks move minimally: the player
   climbs by the number of players it overtakes, each of them drops by one, every other rank stays. A sum that does not
   fit wraps and lowers the score.
  */
  lemma IncrementMovesMinimallyExactly(scores: Scores, p: string, delta: int)
    requires p in scores && 0 < delta <= MAX_INT64 && -MAX_INT64 - 1 <= scores[p] <= MAX_INT64
    ensures var after := scores[p := Int64(scores[p] + delta)];
      && (after[p] > scores[p] <==> scores[p] + delta <= MAX_INT64)
      && (scores[p] + delta > MAX_INT64 ==> after[p] < scores[p])
      && (scores[p] + delta <= MAX_INT64 ==>
            && RankOf(after, p) == RankOf(scores, p) - |Overtaken(scores, p, delta)|
            && (forall q | q in scores && q != p ::
                  RankOf(after, q) == RankOf(scores, q) + if q in Overtaken(scores, p, delta) then 1 else 0))
  {
    if scores[p] + delta <= MAX_INT64 {
      assert scores[p := Int64(scores[p] + delta)] == Bumped(scores, p, delta);
      RaiseMovesMinimally(scores, p, delta);
    } else {
      assert Int64(scores[p] + delta) == scores[p] + delta - 0x1_0000_0000_0000_0000;
    }
  }

  // ---- The in-memory leaderboard ----

  class Leaderboard {
    var scores: map<string, Scores>

    constructor ()
      ensures scores == map[]
    {
      scores := map[];
    }

    function ScoresOf(eventId: string): Scores
      reads this
    {
      if eventId in scores then scores[eventId] else map[]
    }

    method IncrBy(eventId: string, playerId: string, delta: int) returns (total: int)
      modifies this
      ensures total == Int64(ScoreOf(old(ScoresOf(eventId)), playerId) + delta)
      ensures var before := if eventId in old(scores) && playerId in old(scores)[eventId]
                            then old(scores)[eventId][playerId] else 0;
        && -0x8000_0000_0000_0000 <= total < 0x8000_0000_0000_0000
        && exists wraps: int :: total == before + delta + wraps * 0x1_0000_0000_0000_0000
      ensures scores == old(scores)[eventId := old(ScoresOf(eventId))[playerId := total]]
    {
      var inner: Scores := map[];
      if eventId in scores {
        inner := scores[eventId];
      } else {
        scores := scores[eventId := inner];
      }
      Int64Wraps(ScoreOf(inner, playerId) + delta);
      total := Int64(ScoreOf(inner, playerId) + delta);
      inner := inner[playerId := total];
      scores := scores[eventId := inner];
    }

    method Top(eventId: string, n: int) returns (r: Reply<seq<Entry>>)
      ensures r == TopOf(ScoresOf(eventId), n)
      ensures r == Panic <==> n < 0
      ensures r.Returned? ==> |r.value| == if n < |ScoresOf(eventId)| then n else |ScoresOf(eventId)|
    {
      var sorted := SortedLocked(eventId);
      var m := n;
      if m > |sorted| {
        m := |sorted|;
      }
      if m < 0 {
        return Panic;
      }
      return Returned(sorted[..m]);
    }

    method Rank(eventId: string, playerId: string) returns (r: Reply<Entry>)
      ensures r == RankReply(ScoresOf(eventId), playerId)
      ensures r == NotRanked <==> playerId !in ScoresOf(eventId)
    {
      var sorted := SortedLocked(eventId);
      for i := 0 to |sorted|
        invariant forall j | 0 <= j < i :: sorted[j].playerId != playerId
      {
        if sorted[i].playerId == playerId {
          PositionIsRank(sorted, ScoresOf(eventId), i);
          return Returned(sorted[i]);
        }
      }
      assert !Listed(sorted, playerId);
      return NotRanked;
    }

    method Around(eventId: string, playerId: string, radius: int) returns (r: Reply<seq<Entry>>)
      ensures r == AroundOf(ScoresOf(eventId), playerId, radius)
      ensures r == NotRanked <==> playerId !in ScoresOf(eventId)
      ensures r == Panic <==> playerId in ScoresOf(eventId) && radius < 0
    {
      var sorted := SortedLocked(eventId);
      var idx := -1;
      for i := 0 to |sorted|
        invariant idx == -1
        invariant forall j | 0 <= j < i :: sorted[j].playerId != playerId
      {
        if sorted[i].playerId == playerId {
          idx := i;
          PositionIsRank(sorted, ScoresOf(eventId), i);
          break;
        }
      }
      if idx < 0 {
        assert !Listed(sorted, playerId);
        return NotRanked;
      }
      var start := idx - radius;
      if start < 0 {
        start := 0;
      }
      var end := idx + radius + 1;
      if end > |sorted| {
        end := |sorted|;
      }
      if end - start < 0 {
        return Panic;
      }
      return Returned(sorted[start..end]);
    }

    /** Whatever order the map is visited in, the result is the view. */
    method SortedLocked(eventId: string) returns (entries: seq<Entry>)
      ensures entries == View(ScoresOf(eventId))
      ensures |entries| == |ScoresOf(eventId)|
      ensures forall i | 0 <= i < |entries| ::
        && entries[i].playerId in ScoresOf(eventId) && entries[i].score == ScoresOf(eventId)[entries[i].playerId]
        && entries[i].rank == i + 1
      ensures forall i, j | 0 <= i < j < |entries| ::
        && entries[i].score >= entries[j].score
        && (entries[i].score == entries[j].score ==>
              var larger, smaller := entries[i].playerId, entries[j].playerId;
              exists k: nat :: LargerAt(larger, smaller, k))
    {
      hide IsView, Sorted, LargerAt;
      ViewInOrder(ScoresOf(eventId));
      if eventId !in scores {
        return [];
      }
      var inner := scores[eventId];
      entries := [];
      var remaining := inner.Keys;
      while remaining != {}
        invariant remaining <= inner.Keys
        invariant DistinctIds(entries)
        invariant forall i | 0 <= i < |entries| ::
          entries[i].playerId in inner && entries[i].playerId !in remaining
            && inner[entries[i].playerId] == entries[i].score
        invariant forall p | p in inner && p !in remaining :: Listed(entries, p)
        decreases remaining
      {
        var p :| p in remaining;
        ListedSnoc(entries, Entry(p, inner[p], 0));
        entries := entries + [Entry(p, inner[p], 0)];
        remaining := remaining - {p};
      }
      SortedListingIsView(entries, inner);
      ghost var listing := entries;
      entries := Sorted(entries);
      ghost var sorted := entries;
      for i := 0 to |entries|
        invariant |entries| == |sorted|
        invariant forall j | 0 <= j < |sorted| :: entries[j] == if j < i then sorted[j].(rank := j + 1) else sorted[j]
      {
        entries := entries[i := entries[i].(rank := i + 1)];
      }
      assert entries == Ranked(Sorted(listing));
      ViewIsUnique(entries, View(inner), inner);
    }
  }
}

/**
 The ZSET leaderboard and its refinement of the in-memory one. The contract taken for Redis: a sorted set is kept in
 ascending (score, member) order with members compared byte-wise; scores are doubles, so sums are rounded; ZREVRANGE
 counts from the highest, takes an inclusive end, reads negative positions from the tail and clips to the set.
*/
module RedisLeaderboard {
  import opened Ranking
  import opened Leaderboard

  datatype Item = Item(score: int, member: string)

  type ZSet = seq<Item>

  const EXACT := 0x20_0000_0000_0000

  /** Rounding to a double keeps the integers it represents exactly; up to 2^53 those are all. */
  ghost predicate ExactTo53Bits(round: int -> int) {
    forall x | -EXACT <= x <= EXACT :: round(x) == x
  }

  /** Rounding of a double: exact up to 53 bits, and on 65-bit integers off by less than 2^63. */
  ghost predicate DoubleRounding(round: int -> int) {
    && ExactTo53Bits(round)
    && (forall x | -0x1_0000_0000_0000_0000 <= x <= 0x1_0000_0000_0000_0000 ::
          -0x8000_0000_0000_0000 < round(x) - x < 0x8000_0000_0000_0000)
  }

  predicate ItemBefore(a: Item, b: Item) {
    a.score < b.score || (a.score == b.score && Less(a.member, b.member))
  }

  // ---- Commands ----

  function Position(z: ZSet, member: string): int {
    if z == [] then -1
    else if z[|z| - 1].member == member then |z| - 1
    else Position(z[..|z| - 1], member)
  }

  function Removed(z: ZSet, member: string): ZSet {
    var i := Position(z, member);
    if 0 <= i < |z| then z[..i] + z[i + 1..] else z
  }

  function Place(z: ZSet, item: Item): ZSet {
    if z == [] || ItemBefore(z[|z| - 1], item) then z + [item]
    else Place(z[..|z| - 1], item) + [z[|z| - 1]]
  }

  function ZScore(z: ZSet, member: string): Reply<int> {
    var i := Position(z, member);
    if 0 <= i < |z| then Returned(z[i].score) else NotRanked
  }

  function ZIncrBy(z: ZSet, member: string, delta: int, round: int -> int): (ZSet, int) {
    var stored := ZScore(z, member);
    var score := round((if stored.Returned? then stored.value else 0) + round(delta));
    (Place(Removed(z, member), Item(score, member)), score)
  }

  function ZRevRank(z: ZSet, member: string): Reply<int> {
    var i := Position(z, member);
    if 0 <= i < |z| then Returned(|z| - 1 - i) else NotRanked
  }

  function ZRevRange(z: ZSet, start: int, stop: int): seq<Item> {
    var n := |z|;
    var from := if start < 0 then start + n else start;
    var to := if stop < 0 then stop + n else stop;
    var from' := if from < 0 then 0 else from;
    var to' := if to >= n then n - 1 else to;
    if from' > to' || from' >= n then []
    else seq(to' - from' + 1, k requires 0 <= k < to' - from' + 1 => z[n - 1 - from' - k])
  }

  // ---- The store ----

  class RedisLeaderboard {
    var zsets: map<string, ZSet>
    const round: int -> int

    constructor (round: int -> int)
      ensures zsets == map[] && this.round == round
    {
      zsets := map[];
      this.round := round;
    }

    static function Key(eventId: string): string {
      "ranking:event:" + eventId
    }

    function ZSetOf(eventId: string): ZSet
      reads this
    {
      if Key(eventId) in zsets then zsets[Key(eventId)] else []
    }

    method IncrBy(eventId: string, playerId: string, delta: int) returns (total: int)
      modifies this
      ensures (ZSetOf(eventId), total) == ZIncrBy(old(ZSetOf(eventId)), playerId, delta, round)
      ensures forall other | other != eventId :: ZSetOf(other) == old(ZSetOf(other))
    {
      var z;
      z, total := ZIncrBy(ZSetOf(eventId), playerId, delta, round).0,
        ZIncrBy(ZSetOf(eventId), playerId, delta, round).1;
      zsets := zsets[Key(eventId) := z];
      forall other | other != eventId ensures ZSetOf(other) == old(ZSetOf(other)) {
        assert Key(other)[14..] == other && Key(eventId)[14..] == eventId;
      }
    }

    method Top(eventId: string, n: int) returns (r: Reply<seq<Entry>>)
      ensures r == ZTop(ZSetOf(eventId), n)
    {
      if n <= 0 {
        return Returned([]);
      }
      var out := ToEntries(ZRevRange(ZSetOf(eventId), 0, n - 1), 0);
      return Returned(out);
    }

    /** Two commands; increments of others may come between them. */
    method Rank(eventId: string, playerId: string, meanwhile: seq<Increment>) returns (r: Reply<Entry>)
      modifies this
      ensures ZSetOf(eventId) == if ZRevRank(old(ZSetOf(eventId)), playerId).Returned?
                                 then RedisBoard(old(ZSetOf(eventId)), meanwhile, round) else old(ZSetOf(eventId))
      ensures r == SplitRank(old(ZSetOf(eventId)), RedisBoard(old(ZSetOf(eventId)), meanwhile, round), playerId)
    {
      hide RedisBoard, Position;
      var rank := ZRevRank(ZSetOf(eventId), playerId);
      if !rank.Returned? {
        return NotRanked;
      }
      Others(eventId, meanwhile);
      var score := ZScore(ZSetOf(eventId), playerId);
      if !score.Returned? {
        return NotRanked;
      }
      return Returned(Entry(playerId, score.value, rank.value + 1));
    }

    /** Two commands; increments of others may come between them. */
    method Around(eventId: string, playerId: string, radius: int,
                  meanwhile: seq<Increment>) returns (r: Reply<seq<Entry>>)
      modifies this
      ensures ZSetOf(eventId) == if ZRevRank(old(ZSetOf(eventId)), playerId).Returned?
                                 then RedisBoard(old(ZSetOf(eventId)), meanwhile, round) else old(ZSetOf(eventId))
      ensures r == SplitAround(old(ZSetOf(eventId)), RedisBoard(old(ZSetOf(eventId)), meanwhile, round), playerId,
        radius)
    {
      hide RedisBoard, Position, ZRevRange, Numbered;
      var rank := ZRevRank(ZSetOf(eventId), playerId);
      if !rank.Returned? {
        return NotRanked;
      }
      var start := rank.value - radius;
      if start < 0 {
        start := 0;
      }
      var end := rank.value + radius;
      Others(eventId, meanwhile);
      var out := ToEntries(ZRevRange(ZSetOf(eventId), start, end), start);
      return Returned(out);
    }

    /** Increments of other requests. */
    method Others(eventId: string, run: seq<Increment>)
      modifies this
      ensures ZSetOf(eventId) == RedisBoard(old(ZSetOf(eventId)), run, round)
      ensures forall other | other != eventId :: ZSetOf(other) == old(ZSetOf(other))
    {
      for i := 0 to |run|
        invariant RedisBoard(ZSetOf(eventId), run[i..], round) == RedisBoard(old(ZSetOf(eventId)), run, round)
        invariant forall other | other != eventId :: ZSetOf(other) == old(ZSetOf(other))
      {
        assert run[i..][1..] == run[i + 1..];
        var total := IncrBy(eventId, run[i].player, run[i].delta);
      }
    }

    /** Copies a reply, numbering from the given offset. */
    method ToEntries(res: seq<Item>, offset: int) returns (out: seq<Entry>)
      ensures out == Numbered(res, offset)
    {
      out := [];
      for i := 0 to |res|
        invariant out == Numbered(res[..i], offset)
      {
        out := out + [Entry(res[i].member, res[i].score, offset + i + 1)];
      }
      assert res[..|res|] == res;
    }
  }

  function Numbered(items: seq<Item>, offset: int): seq<Entry> {
    seq(|items|, i requires 0 <= i < |items| => Entry(items[i].member, items[i].score, offset + i + 1))
  }

  function ZTop(z: ZSet, n: int): Reply<seq<Entry>> {
    Returned(if n <= 0 then [] else Numbered(ZRevRange(z, 0, n - 1), 0))
  }

  /** Rank read from one set, score from a later one. */
  function SplitRank(z: ZSet, later: ZSet, p: string): Reply<Entry> {
    var rank, score := ZRevRank(z, p), ZScore(later, p);
    if rank.Returned? && score.Returned? then Returned(Entry(p, score.value, rank.value + 1)) else NotRanked
  }

  /** The window placed by one set and read from a later one. */
  function SplitAround(z: ZSet, later: ZSet, p: string, radius: int): Reply<seq<Entry>> {
    match ZRevRank(z, p)
    case Returned(rank) =>
      var start := if rank - radius < 0 then 0 else rank - radius;
      Returned(Numbered(ZRevRange(later, start, rank + radius), start))
    case _ => NotRanked
  }

  function ZRank(z: ZSet, p: string): Reply<Entry> {
    SplitRank(z, z, p)
  }

  function ZAround(z: ZSet, p: string, radius: int): Reply<seq<Entry>> {
    SplitAround(z, z, p, radius)
  }

  // ---- Refinement ----

  /** A sorted set read from its end, numbered. */
  function FromTop(z: ZSet): seq<Entry> {
    seq(|z|, i requires 0 <= i < |z| => Entry(z[|z| - 1 - i].member, z[|z| - 1 - i].score, i + 1))
  }

  ghost predicate Ascending(z: ZSet) {
    forall i, j | 0 <= i < j < |z| :: ItemBefore(z[i], z[j])
  }

  ghost predicate Has(z: ZSet, p: string) {
    exists i :: 0 <= i < |z| && z[i].member == p
  }

  /** The sorted set stores exactly the score map. */
  ghost predicate Stores(z: ZSet, scores: Scores) {
    && Ascending(z)
    && (forall i | 0 <= i < |z| :: z[i].member in scores && scores[z[i].member] == z[i].score)
    && (forall p | p in scores :: Has(z, p))
  }

  lemma DistinctMembers(z: ZSet, scores: Scores, i: nat, j: nat)
    requires Stores(z, scores) && i < j < |z|
    ensures z[i].member != z[j].member
  {
    if z[i].member == z[j].member { LessIsStrict(z[i].member); }
  }

  lemma FromTopIsView(z: ZSet, scores: Scores)
    requires Stores(z, scores)
    ensures IsView(FromTop(z), scores)
  {
    var v := FromTop(z);
    forall i, j | 0 <= i < j < |v| ensures Before(v[i].score, v[i].playerId, v[j].score, v[j].playerId) {
      assert ItemBefore(z[|z| - 1 - j], z[|z| - 1 - i]);
    }
    hide Ascending;
    forall p | p in scores ensures Listed(v, p) {
      assert Has(z, p);
      var i :| 0 <= i < |z| && z[i].member == p;
      assert v[|z| - 1 - i].playerId == p;
    }
  }

  lemma StoredIsView(z: ZSet, scores: Scores)
    requires Stores(z, scores)
    ensures IsView(FromTop(z), scores) && FromTop(z) == View(scores)
  {
    hide View, IsView;
    var v := FromTop(z);
    FromTopIsView(z, scores);
    ViewIsUnique(v, View(scores), scores);
  }

  lemma {:induction false} PositionFinds(z: ZSet, p: string)
    ensures -1 <= Position(z, p) < |z|
    ensures 0 <= Position(z, p) ==> z[Position(z, p)].member == p
    ensures Position(z, p) == -1 ==> !Has(z, p)
  {
    if z != [] { PositionFinds(z[..|z| - 1], p); }
  }

  lemma FoundExactly(z: ZSet, scores: Scores, p: string)
    requires Stores(z, scores)
    ensures p in scores <==> 0 <= Position(z, p) < |z|
    ensures p in scores ==> z[Position(z, p)] == Item(scores[p], p)
  {
    PositionFinds(z, p);
    if p in scores { assert Has(z, p); }
  }

  lemma RankAtPlace(z: ZSet, scores: Scores, i: nat)
    requires Stores(z, scores) && i < |z|
    ensures z[i].member in scores && RankOf(scores, z[i].member) == |z| - i
  {
    hide Stores, View, RankOf;
    StoredIsView(z, scores);
    var v := FromTop(z);
    assert v[|z| - 1 - i].playerId == z[i].member;
    PositionIsRank(v, scores, |z| - 1 - i);
  }

  /** The place of a member counted from the top is its rank. */
  lemma PositionFromTop(z: ZSet, scores: Scores, p: string)
    requires Stores(z, scores) && p in scores
    ensures 0 <= Position(z, p) < |z| && RankOf(scores, p) == |z| - Position(z, p)
  {
    FoundExactly(z, scores, p);
    RankAtPlace(z, scores, Position(z, p));
  }

  lemma RevRangeIsSlice(z: ZSet, start: nat, stop: nat)
    requires start <= stop + 1
    ensures Numbered(ZRevRange(z, start, stop), start) == FromTop(z)[Clamp(start, 0, |z|)..Clamp(stop + 1, 0, |z|)]
  {
  }

  lemma SameRank(z: ZSet, scores: Scores, p: string)
    requires Stores(z, scores)
    ensures ZRank(z, p) == RankReply(scores, p)
  {
    FoundExactly(z, scores, p);
    if p in scores { PositionFromTop(z, scores, p); }
  }

  /** Top agrees exactly when n is not negative; a negative n is where the in-memory slice would panic. */
  lemma SameTopExactly(z: ZSet, scores: Scores, n: int)
    requires Stores(z, scores)
    ensures ZTop(z, n) == TopOf(scores, n) <==> 0 <= n
  {
    hide Stores, View;
    StoredIsView(z, scores);
    if n > 0 {
      hide ZRevRange;
      RevRangeIsSlice(z, 0, n - 1);
    }
  }

  lemma ZAroundIsSlice(z: ZSet, p: string, radius: nat, rank: nat)
    requires ZRevRank(z, p) == Returned(rank) && rank < |z|
    ensures ZAround(z, p, radius)
      == Returned(FromTop(z)[Clamp(rank - radius, 0, |z|)..Clamp(rank + radius + 1, 0, |z|)])
  {
    hide ZRevRange, Numbered;
    RevRangeIsSlice(z, if rank - radius < 0 then 0 else rank - radius, rank + radius);
  }

  lemma RevRankIsRank(z: ZSet, scores: Scores, p: string)
    requires Stores(z, scores) && p in scores
    ensures 1 <= RankOf(scores, p) <= |z| && ZRevRank(z, p) == Returned(RankOf(scores, p) - 1)
  {
    PositionFromTop(z, scores, p);
  }

  lemma SameAround(z: ZSet, scores: Scores, p: string, radius: nat)
    requires Stores(z, scores) && p in scores
    ensures ZAround(z, p, radius) == AroundOf(scores, p, radius)
  {
    hide Stores, RankOf, View, ZAround, ZRevRank;
    RevRankIsRank(z, scores, p);
    ZAroundIsSlice(z, p, radius, RankOf(scores, p) - 1);
    StoredIsView(z, scores);
  }

  /** Around agrees exactly when the radius is not negative or the player is not ranked. */
  lemma SameAroundExactly(z: ZSet, scores: Scores, p: string, radius: int)
    requires Stores(z, scores)
    ensures ZAround(z, p, radius) == AroundOf(scores, p, radius) <==> 0 <= radius || p !in scores
  {
    FoundExactly(z, scores, p);
    if p in scores && 0 <= radius { SameAround(z, scores, p, radius); }
  }

  // ---- Increments between the two commands ----

  lemma SplitAroundIsSlice(z: ZSet, later: ZSet, scores: Scores, p: string, radius: nat)
    requires Stores(z, scores) && p in scores
    ensures SplitAround(z, later, p, radius) ==
            Returned(FromTop(later)[Clamp(RankOf(scores, p) - 1 - radius, 0, |later|)
                                    ..Clamp(RankOf(scores, p) + radius, 0, |later|)])
  {
    hide Stores, RankOf, ZRevRange, Numbered;
    RevRankIsRank(z, scores, p);
    var rank := RankOf(scores, p) - 1;
    RevRangeIsSlice(later, if rank - radius < 0 then 0 else rank - radius, rank + radius);
  }

  /**
   When increments come between the two commands of Around, the window still shows the player, with its later rank and
   score, exactly when its rank moved by at most the radius; otherwise the handler reports rank 0.
  */
  lemma SplitWindowExactly(z: ZSet, scores: Scores, later: ZSet, after: Scores, p: string, radius: nat)
    requires Stores(z, scores) && Stores(later, after) && p in scores && p in after
    ensures SplitAround(z, later, p, radius).Returned?
    ensures SelfScan(SplitAround(z, later, p, radius).value, p) ==
            if RankOf(scores, p) - radius <= RankOf(after, p) <= RankOf(scores, p) + radius
            then (RankOf(after, p), after[p]) else (0, 0)
  {
    hide Stores, RankOf, View, SplitAround, SelfScan;
    SplitAroundIsSlice(z, later, scores, p, radius);
    StoredIsView(later, after);
    PlaceOf(after, p);
    RevRankIsRank(z, scores, p);
    var lo := Clamp(RankOf(scores, p) - 1 - radius, 0, |later|);
    var hi := Clamp(RankOf(scores, p) + radius, 0, |later|);
    WindowScan(after, lo, hi, p);
  }

  /** Rank with increments in between answers as one of the two boards would exactly when rank or score did not move. */
  lemma SplitRankExactly(z: ZSet, scores: Scores, later: ZSet, after: Scores, p: string)
    requires Stores(z, scores) && Stores(later, after) && p in scores && p in after
    ensures SplitRank(z, later, p) == Returned(Entry(p, after[p], RankOf(scores, p)))
    ensures SplitRank(z, later, p) == RankReply(scores, p) || SplitRank(z, later, p) == RankReply(after, p)
            <==> scores[p] == after[p] || RankOf(scores, p) == RankOf(after, p)
  {
    hide Stores, RankOf;
    RevRankIsRank(z, scores, p);
    ScoreIsStored(later, after, p);
  }

  // ---- ZINCRBY keeps the refinement ----

  lemma {:induction false} PlaceMembers(z: ZSet, item: Item, x: Item)
    ensures x in Place(z, item) <==> x in z || x == item
  {
    if z != [] && !ItemBefore(z[|z| - 1], item) {
      PlaceMembers(z[..|z| - 1], item, x);
      assert z == z[..|z| - 1] + [z[|z| - 1]];
    }
  }

  lemma ItemTransitive(a: Item, b: Item, c: Item)
    requires ItemBefore(a, b) && ItemBefore(b, c)
    ensures ItemBefore(a, c)
  {
    if a.score == b.score == c.score { LessTransitive(a.member, b.member, c.member); }
  }

  lemma AscendingSnoc(z: ZSet, x: Item)
    requires Ascending(z) && (forall y | y in z :: ItemBefore(y, x))
    ensures Ascending(z + [x])
  {
    forall i, j | 0 <= i < j < |z + [x]| ensures ItemBefore((z + [x])[i], (z + [x])[j]) {
      assert z[i] in z;
    }
  }

  lemma {:induction false} PlaceAscending(z: ZSet, item: Item)
    requires Ascending(z) && (forall y | y in z :: y.member != item.member)
    ensures Ascending(Place(z, item))
  {
    if z == [] {
    } else {
      var n := |z| - 1;
      var last := z[n];
      assert last in z;
      if ItemBefore(last, item) {
        forall y | y in z ensures ItemBefore(y, item) {
          var k :| 0 <= k < |z| && z[k] == y;
          if k < n { ItemTransitive(y, last, item); }
        }
        AscendingSnoc(z, item);
      } else {
        assert forall y | y in z[..n] :: y in z;
        PlaceAscending(z[..n], item);
        LessTotal(last.member, item.member);
        forall y | y in Place(z[..n], item) ensures ItemBefore(y, last) {
          PlaceMembers(z[..n], item, y);
          if y in z[..n] {
            var k :| 0 <= k < n && z[..n][k] == y;
            assert z[k] == y;
          }
        }
        AscendingSnoc(Place(z[..n], item), last);
      }
    }
  }

  lemma RemovedItems(z: ZSet, scores: Scores, p: string, k: nat)
    requires Stores(z, scores) && k < |Removed(z, p)|
    ensures var i := Position(z, p);
      var j := if i < 0 || k < i then k else k + 1;
      j < |z| && Removed(z, p)[k] == z[j] && z[j].member != p
  {
    hide Stores, Position;
    PositionFinds(z, p);
    var i := Position(z, p);
    if 0 <= i {
      if k < i { DistinctMembers(z, scores, k, i); } else { DistinctMembers(z, scores, i, k + 1); }
    }
  }

  lemma WithoutKeeps(z: ZSet, i: nat, q: string)
    requires i < |z| && Has(z, q) && z[i].member != q
    ensures Has(z[..i] + z[i + 1..], q)
  {
    var k :| 0 <= k < |z| && z[k].member == q;
    assert (z[..i] + z[i + 1..])[if k < i then k else k - 1].member == q;
  }

  lemma RemovedKeeps(z: ZSet, scores: Scores, p: string, q: string)
    requires Stores(z, scores) && q in scores && q != p
    ensures Has(Removed(z, p), q)
  {
    PositionFinds(z, p);
    assert Has(z, q);
    if 0 <= Position(z, p) { WithoutKeeps(z, Position(z, p), q); }
  }

  lemma RemovedStores(z: ZSet, scores: Scores, p: string)
    requires Stores(z, scores)
    ensures Stores(Removed(z, p), scores - {p})
  {
    var r := Removed(z, p);
    forall k, l | 0 <= k < l < |r| ensures ItemBefore(r[k], r[l]) {
      RemovedItems(z, scores, p, k);
      RemovedItems(z, scores, p, l);
    }
    forall k | 0 <= k < |r| ensures r[k].member in scores - {p} && (scores - {p})[r[k].member] == r[k].score {
      RemovedItems(z, scores, p, k);
    }
    forall q | q in scores - {p} ensures Has(r, q) {
      RemovedKeeps(z, scores, p, q);
    }
  }

  lemma PlaceStores(z: ZSet, scores: Scores, p: string, score: int)
    requires Stores(z, scores) && p !in scores
    ensures Stores(Place(z, Item(score, p)), scores[p := score])
  {
    var item := Item(score, p);
    var z' := Place(z, item);
    forall y | y in z ensures y.member != p {
      var k :| 0 <= k < |z| && z[k] == y;
    }
    PlaceAscending(z, item);
    forall i | 0 <= i < |z'|
      ensures z'[i].member in scores[p := score] && scores[p := score][z'[i].member] == z'[i].score {
      PlaceMembers(z, item, z'[i]);
    }
    forall q | q in scores[p := score] ensures Has(z', q) {
      var x := item;
      if q != p {
        assert Has(z, q);
        var k :| 0 <= k < |z| && z[k].member == q;
        x := z[k];
      }
      PlaceMembers(z, item, x);
      var i :| 0 <= i < |z'| && z'[i] == x;
    }
  }

  lemma ScoreIsStored(z: ZSet, scores: Scores, p: string)
    requires Stores(z, scores)
    ensures ZScore(z, p) == if p in scores then Returned(scores[p]) else NotRanked
  {
    FoundExactly(z, scores, p);
  }

  /** The set after one member's total was replaced. */
  function Incremented(z: ZSet, p: string, total: int): ZSet {
    Place(Removed(z, p), Item(total, p))
  }

  lemma IncrementStores(z: ZSet, scores: Scores, p: string, total: int)
    requires Stores(z, scores)
    ensures Stores(Incremented(z, p, total), scores[p := total])
  {
    RemovedStores(z, scores, p);
    PlaceStores(Removed(z, p), scores - {p}, p, total);
    assert (scores - {p})[p := total] == scores[p := total];
  }

  lemma IncrementIsRounded(z: ZSet, p: string, stored: int, delta: int, round: int -> int)
    requires ZScore(z, p) == Returned(stored) || (ZScore(z, p) == NotRanked && stored == 0)
    requires round(delta) == delta
    ensures ZIncrBy(z, p, delta, round) == (Incremented(z, p, round(stored + delta)), round(stored + delta))
  {
  }

  // ---- Runs ----

  datatype Increment = Increment(player: string, delta: int)

  /** The in-memory board of one event after some increments. */
  function InmemBoard(scores: Scores, run: seq<Increment>): Scores
    decreases |run|
  {
    if run == [] then scores
    else InmemBoard(scores[run[0].player := Int64(ScoreOf(scores, run[0].player) + run[0].delta)], run[1..])
  }

  /** The totals those increments returned. */
  function InmemTotals(scores: Scores, run: seq<Increment>): seq<int>
    decreases |run|
  {
    if run == [] then []
    else
      var total := Int64(ScoreOf(scores, run[0].player) + run[0].delta);
      [total] + InmemTotals(scores[run[0].player := total], run[1..])
  }

  function RedisBoard(z: ZSet, run: seq<Increment>, round: int -> int): ZSet
    decreases |run|
  {
    if run == [] then z else RedisBoard(ZIncrBy(z, run[0].player, run[0].delta, round).0, run[1..], round)
  }

  function RedisTotals(z: ZSet, run: seq<Increment>, round: int -> int): seq<int>
    decreases |run|
  {
    if run == [] then []
    else
      var (z', total) := ZIncrBy(z, run[0].player, run[0].delta, round);
      [total] + RedisTotals(z', run[1..], round)
  }

  /** No single increment leaves the range in which every integer is a double. */
  predicate SmallDeltas(run: seq<Increment>) {
    forall k | 0 <= k < |run| :: -EXACT <= run[k].delta <= EXACT
  }

  predicate InInt64(n: int) {
    -MAX_INT64 - 1 <= n <= MAX_INT64
  }

  /** Every running total is a 64-bit integer that a double represents exactly. */
  predicate StaysDouble(scores: Scores, run: seq<Increment>, round: int -> int)
    decreases |run|
  {
    run == [] ||
    (var total := ScoreOf(scores, run[0].player) + run[0].delta;
     InInt64(total) && round(total) == total && StaysDouble(scores[run[0].player := total], run[1..], round))
  }

  ghost predicate StoredInInt64(scores: Scores) {
    forall p | p in scores :: InInt64(scores[p])
  }

  /** A 64-bit sum that wraps is off by 2^64 at least. */
  lemma {:induction false} WrapIsFar(n: int)
    ensures InInt64(Int64(n))
    ensures Int64(n) == n <==> InInt64(n)
    ensures n > MAX_INT64 ==> Int64(n) <= n - 0x1_0000_0000_0000_0000
    ensures n < -MAX_INT64 - 1 ==> Int64(n) >= n + 0x1_0000_0000_0000_0000
    decreases if n < 0 then -n - 1 else n
  {
    if n > MAX_INT64 {
      WrapIsFar(n - 0x1_0000_0000_0000_0000);
    } else if n < -MAX_INT64 - 1 {
      WrapIsFar(n + 0x1_0000_0000_0000_0000);
    }
  }

  /** The rounded and the wrapped total agree exactly when neither changed the true one. */
  lemma RoundedIsWrappedExactly(stored: int, delta: int, round: int -> int)
    requires DoubleRounding(round) && InInt64(stored) && -EXACT <= delta <= EXACT
    ensures var total := stored + delta;
      round(total) == Int64(total) <==> InInt64(total) && round(total) == total
  {
    var total := stored + delta;
    WrapIsFar(total);
    assert -0x8000_0000_0000_0000 < round(total) - total < 0x8000_0000_0000_0000;
  }

  /**
   One increment: the returned totals are equal exactly when the true total is a double, and then the boards are too.
  */
  lemma IncrementAgreesExactly(z: ZSet, scores: Scores, p: string, delta: int, round: int -> int)
    requires Stores(z, scores) && ExactTo53Bits(round) && -EXACT <= delta <= EXACT
    ensures var total := ScoreOf(scores, p) + delta;
      && ZIncrBy(z, p, delta, round).1 == round(total)
      && (round(total) == Int64(total) ==> Stores(ZIncrBy(z, p, delta, round).0, scores[p := Int64(total)]))
  {
    hide Stores;
    var total := ScoreOf(scores, p) + delta;
    assert round(delta) == delta;
    assert ZIncrBy(z, p, delta, round) == (Incremented(z, p, round(total)), round(total)) by {
      ScoreIsStored(z, scores, p);
      IncrementIsRounded(z, p, ScoreOf(scores, p), delta, round);
    }
    IncrementStores(z, scores, p, round(total));
  }

  /**
   The exact condition: the two boards return the same totals over a run exactly when every running total is a 64-bit
   integer that a double represents, and then the sorted set still stores exactly the score map.
  */
  lemma {:induction false} RunsAgreeExactly(z: ZSet, scores: Scores, run: seq<Increment>, round: int -> int)
    requires Stores(z, scores) && StoredInInt64(scores) && DoubleRounding(round) && SmallDeltas(run)
    ensures RedisTotals(z, run, round) == InmemTotals(scores, run) <==> StaysDouble(scores, run, round)
    ensures StaysDouble(scores, run, round) ==> Stores(RedisBoard(z, run, round), InmemBoard(scores, run))
    decreases |run|
  {
    hide Stores, ZIncrBy, Int64;
    if run != [] {
      var p, d := run[0].player, run[0].delta;
      var total := ScoreOf(scores, p) + d;
      var (z', returned) := ZIncrBy(z, p, d, round);
      IncrementAgreesExactly(z, scores, p, d, round);
      RoundedIsWrappedExactly(ScoreOf(scores, p), d, round);
      hide DoubleRounding, ExactTo53Bits;
      var redis, inmem := RedisTotals(z, run, round), InmemTotals(scores, run);
      assert redis == [returned] + RedisTotals(z', run[1..], round);
      assert inmem == [Int64(total)] + InmemTotals(scores[p := Int64(total)], run[1..]);
      assert redis[1..] == RedisTotals(z', run[1..], round);
      assert inmem[1..] == InmemTotals(scores[p := Int64(total)], run[1..]);
      assert redis[0] == round(total) && inmem[0] == Int64(total);
      if round(total) == Int64(total) {
        RunsAgreeExactly(z', scores[p := total], run[1..], round);
      }
    }
  }

  /** Every running total stays within 53 bits. */
  predicate StaysExact(scores: Scores, run: seq<Increment>)
    decreases |run|
  {
    run == [] ||
    (var total := ScoreOf(scores, run[0].player) + run[0].delta;
     -EXACT <= total <= EXACT && StaysExact(scores[run[0].player := total], run[1..]))
  }

  lemma {:induction false} ExactIsDouble(scores: Scores, run: seq<Increment>, round: int -> int)
    requires DoubleRounding(round) && StaysExact(scores, run)
    ensures StaysDouble(scores, run, round)
    decreases |run|
  {
    if run != [] {
      var total := ScoreOf(scores, run[0].player) + run[0].delta;
      ExactIsDouble(scores[run[0].player := total], run[1..], round);
    }
  }

  /** Over any run of increments with totals within 53 bits the two boards return the same totals and store the same. */
  lemma RunsAgree(z: ZSet, scores: Scores, run: seq<Increment>, round: int -> int)
    requires Stores(z, scores) && StoredInInt64(scores) && DoubleRounding(round)
    requires SmallDeltas(run) && StaysExact(scores, run)
    ensures RedisTotals(z, run, round) == InmemTotals(scores, run)
    ensures Stores(RedisBoard(z, run, round), InmemBoard(scores, run))
  {
    hide Stores;
    ExactIsDouble(scores, run, round);
    RunsAgreeExactly(z, scores, run, round);
  }

  /**
   From empty boards: the increments of a run return the same totals exactly when every running total is a 64-bit
   integer that a double represents, and then every Rank, every Top with n >= 0 and every Around with radius >= 0 is
   answered alike.
  */
  lemma BoardsAgree(run: seq<Increment>, round: int -> int, p: string, n: nat, radius: nat)
    requires DoubleRounding(round) && SmallDeltas(run)
    ensures RedisTotals([], run, round) == InmemTotals(map[], run) <==> StaysDouble(map[], run, round)
    ensures StaysDouble(map[], run, round) ==>
      && ZTop(RedisBoard([], run, round), n) == TopOf(InmemBoard(map[], run), n)
      && ZRank(RedisBoard([], run, round), p) == RankReply(InmemBoard(map[], run), p)
      && ZAround(RedisBoard([], run, round), p, radius) == AroundOf(InmemBoard(map[], run), p, radius)
  {
    RunsAgreeExactly([], map[], run, round);
    if StaysDouble(map[], run, round) {
      hide Stores;
      var inmem, redis := InmemBoard(map[], run), RedisBoard([], run, round);
      SameTopExactly(redis, inmem, n);
      SameRank(redis, inmem, p);
      SameAroundExactly(redis, inmem, p, radius);
    }
  }

  // ---- An instance past 53 bits ----

  /** The largest delta the event service passes on. */
  const MAX_DELTA := 1_000_000

  function Times(p: string, delta: int, n: nat): seq<Increment> {
    seq(n, _ => Increment(p, delta))
  }

  lemma ClimbStep(p: string, from: nat, run: seq<Increment>, round: int -> int)
    requires ExactTo53Bits(round) && from + MAX_DELTA <= EXACT
    requires run != [] && run[0] == Increment(p, MAX_DELTA)
    ensures StaysDouble(map[p := from], run, round) <==> StaysDouble(map[p := from + MAX_DELTA], run[1..], round)
  {
    var total := from + MAX_DELTA;
    assert map[p := from][p := total] == map[p := total];
    assert round(total) == total;
  }

  /** Climbing by equal increments below 53 bits settles nothing about what comes after. */
  lemma {:induction false} ClimbIsDouble(p: string, from: nat, n: nat, rest: seq<Increment>, round: int -> int)
    requires ExactTo53Bits(round) && from + 1_000_000 * n <= EXACT
    ensures StaysDouble(map[p := from], Times(p, MAX_DELTA, n) + rest, round)
            <==> StaysDouble(map[p := from + 1_000_000 * n], rest, round)
    decreases n
  {
    hide StaysDouble, ExactTo53Bits;
    var run := Times(p, MAX_DELTA, n) + rest;
    if n == 0 {
      assert run == rest;
    } else {
      assert run[0] == Increment(p, MAX_DELTA) && run[1..] == Times(p, MAX_DELTA, n - 1) + rest;
      ClimbStep(p, from, run, round);
      ClimbIsDouble(p, from + MAX_DELTA, n - 1, rest, round);
    }
  }

  /** A run of receivable increments that ends one past 2^53, which is no double: there the boards part. */
  lemma ReceivableRunParts(p: string, round: int -> int)
    requires DoubleRounding(round) && round(EXACT + 1) != EXACT + 1
    ensures var run := [Increment(p, 740_992)] + Times(p, MAX_DELTA, 9_007_199_254) + [Increment(p, 1)];
      && (forall k | 0 <= k < |run| :: 0 < run[k].delta <= MAX_DELTA)
      && RedisTotals([], run, round) != InmemTotals(map[], run)
  {
    hide RedisTotals, InmemTotals;
    var climb, last := Times(p, MAX_DELTA, 9_007_199_254), [Increment(p, 1)];
    var run := [Increment(p, 740_992)] + climb + last;
    assert run[1..] == climb + last && last[1..] == [];
    ClimbIsDouble(p, 740_992, 9_007_199_254, last, round);
    assert 740_992 + 1_000_000 * 9_007_199_254 == EXACT;
    assert !StaysDouble(map[p := EXACT], last, round);
    assert map[][p := 740_992] == map[p := 740_992];
    hide StaysDouble;
    RunsAgreeExactly([], map[], run, round);
  }
}

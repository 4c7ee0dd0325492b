/** Stored rolls and pity counters: the MySQL and in-memory repositories. */
module GachaStore {
  import opened GachaPool
  import opened GachaEngine
  import Keys

  datatype Pair = Pair(player: string, pool: string)

  datatype Roll = Roll(id: string, owner: Pair, cardId: string, rarity: Rarity, isPity: bool, pulledAt: int)
  {
    function ToMark(): Mark { Mark(rarity, isPity) }
  }

  /** Stored rolls, oldest first, and counters under the keys of a backend. */
  datatype Store<K(==)> = Store(rolls: seq<Roll>, pity: map<K, int>)

  /** How a repository keys its counters, what its counter column keeps of a number, and the pairs it tells apart. */
  datatype Backend<!K> = Backend(key: Pair -> K, column: int -> int, serves: Pair -> bool)

  /** A table keyed by the pair, with a 32-bit counter column. */
  const MYSQL: Backend<Pair> := Backend((p: Pair) => p, (n: int) => Int32(n), (_: Pair) => true)

  /** A map keyed by the joined ids. */
  const INMEM: Backend<string> :=
    Backend((p: Pair) => Keys.Joined(p.player, p.pool), (n: int) => n, (p: Pair) => '/' !in p.player)

  /** The keys of served pairs are different, and the column keeps every counter below 2^31. */
  ghost predicate Faithful<K>(b: Backend<K>) {
    && (forall p: Pair, q: Pair | b.serves(p) && b.serves(q) && b.key(p) == b.key(q) :: p == q)
    && (forall n | 0 <= n < 0x8000_0000 :: b.column(n) == n)
  }

  lemma MysqlIsFaithful()
    ensures Faithful(MYSQL)
  {
    forall n | 0 <= n < 0x8000_0000 ensures MYSQL.column(n) == n { Int32Exact(n); }
  }

  /** The joined key is as good as the pair for players without a slash. */
  lemma InmemIsFaithful()
    ensures Faithful(INMEM)
  {
    forall p: Pair, q: Pair | INMEM.serves(p) && INMEM.serves(q) && INMEM.key(p) == INMEM.key(q) ensures p == q {
      Keys.SeparatorFreeKeysArePairs('/', p.player, p.pool, q.player, q.pool);
    }
  }

  function CounterOf<K(==)>(b: Backend<K>, store: Store<K>, pair: Pair): int {
    if b.key(pair) in store.pity then store.pity[b.key(pair)] else 0
  }

  /** The conversion to the 32-bit counter column. */
  function Int32(n: int): int {
    var m := n % 0x1_0000_0000;
    if m < 0x8000_0000 then m else m - 0x1_0000_0000
  }

  lemma Int32Exact(n: int)
    ensures -0x8000_0000 <= Int32(n) < 0x8000_0000 && (Int32(n) - n) % 0x1_0000_0000 == 0
    ensures Int32(n) == n <==> -0x8000_0000 <= n < 0x8000_0000
  {
  }

  /** The stored history of one player in one pool. */
  function HistoryOf(rolls: seq<Roll>, pair: Pair): seq<Mark> {
    if rolls == [] then []
    else
      var earlier := HistoryOf(rolls[..|rolls| - 1], pair);
      if rolls[|rolls| - 1].owner == pair then earlier + [rolls[|rolls| - 1].ToMark()] else earlier
  }

  function MarksOf(rolls: seq<Roll>): seq<Mark> {
    seq(|rolls|, i requires 0 <= i < |rolls| => rolls[i].ToMark())
  }

  predicate AllOwnedBy(rolls: seq<Roll>, pair: Pair) {
    forall i | 0 <= i < |rolls| :: rolls[i].owner == pair
  }

  /** Appending one pair's rolls extends that pair's history by their marks and leaves every other history alone. */
  lemma {:induction false} HistoryOfAppend(rolls: seq<Roll>, more: seq<Roll>, owner: Pair, pair: Pair)
    requires AllOwnedBy(more, owner)
    ensures HistoryOf(rolls + more, pair) ==
            if pair == owner then HistoryOf(rolls, pair) + MarksOf(more) else HistoryOf(rolls, pair)
  {
    if more == [] {
      assert rolls + more == rolls;
      assert HistoryOf(rolls, pair) + MarksOf(more) == HistoryOf(rolls, pair);
    } else {
      var n := |more| - 1;
      HistoryOfAppend(rolls, more[..n], owner, pair);
      assert (rolls + more)[..|rolls + more| - 1] == rolls + more[..n];
      assert MarksOf(more) == MarksOf(more[..n]) + [more[n].ToMark()];
      assert HistoryOf(rolls, pair) + MarksOf(more) == HistoryOf(rolls, pair) + MarksOf(more[..n]) + [more[n].ToMark()];
    }
  }

  function Appended<K(==)>(b: Backend<K>, store: Store<K>, rolls: seq<Roll>, pair: Pair, counter: int): Store<K> {
    Store(store.rolls + rolls, store.pity[b.key(pair) := b.column(counter)])
  }

  /** Where the batch write goes wrong. A failing commit may or may not have been applied. */
  datatype WriteFault = NoFault | AtBegin | AtInsert(k: nat) | AtUpsert | AtCommit(applied: bool)

  /** The fault strikes a write of n rolls. */
  predicate WriteFails(fault: WriteFault, n: nat) {
    !fault.NoFault? && (fault.AtInsert? ==> fault.k < n)
  }

  predicate FreshIds(stored: seq<Roll>, rolls: seq<Roll>) {
    && (forall i, j | 0 <= i < |rolls| && 0 <= j < |stored| :: rolls[i].id != stored[j].id)
    && (forall i, j | 0 <= i < j < |rolls| :: rolls[i].id != rolls[j].id)
  }

  /** Rolls are fresh exactly when the primary key stays unique with them. */
  lemma FreshExactly(stored: seq<Roll>, rolls: seq<Roll>)
    requires forall i, j | 0 <= i < j < |stored| :: stored[i].id != stored[j].id
    ensures var all := stored + rolls;
      FreshIds(stored, rolls) <==> forall i, j | 0 <= i < j < |all| :: all[i].id != all[j].id
  {
    var all := stored + rolls;
    if forall i, j | 0 <= i < j < |all| :: all[i].id != all[j].id {
      forall i, j | 0 <= i < |rolls| && 0 <= j < |stored| ensures rolls[i].id != stored[j].id {
        assert all[j].id != all[|stored| + i].id;
      }
      forall i, j | 0 <= i < j < |rolls| ensures rolls[i].id != rolls[j].id {
        assert all[|stored| + i].id != all[|stored| + j].id;
      }
    }
  }

  class MysqlGachaRepo {
    var store: Store<Pair>

    constructor ()
      ensures store == Store([], map[])
    {
      store := Store([], map[]);
    }

    method GetPity(pair: Pair) returns (c: int)
      ensures c == CounterOf(MYSQL, store, pair) == if pair in store.pity then store.pity[pair] else 0
    {
      c := if pair in store.pity then store.pity[pair] else 0;
    }

    /**
     All or nothing: the whole batch and the counter become visible together at the commit, or nothing does. A clash
     on the roll id, which is the primary key, is one of the insert failures.
    */
    method InsertRollsAndUpdatePity(rolls: seq<Roll>, pair: Pair, newCounter: int, fault: WriteFault) returns (ok: bool)
      modifies this
      ensures ok ==> store == Appended(MYSQL, old(store), rolls, pair, newCounter)
      ensures !ok ==>
        store == if fault == AtCommit(true) && FreshIds(old(store).rolls, rolls)
                 then Appended(MYSQL, old(store), rolls, pair, newCounter)
                 else old(store)
      ensures ok <==> !WriteFails(fault, |rolls|) && FreshIds(old(store).rolls, rolls)
      ensures fault.AtBegin? || fault.AtUpsert? || fault.AtCommit? || (fault.AtInsert? && fault.k < |rolls|) ==> !ok
      ensures ok ==> store.rolls == old(store).rolls + rolls
      ensures ok && -0x8000_0000 <= newCounter < 0x8000_0000 ==> store.pity == old(store).pity[pair := newCounter]
    {
      Int32Exact(newCounter);
      if fault.AtBegin? {
        return false;
      }
      var staged := store.rolls;
      for k := 0 to |rolls|
        invariant store == old(store)
        invariant staged == store.rolls + rolls[..k]
        invariant fault.AtInsert? ==> k <= fault.k
        invariant FreshIds(store.rolls, rolls[..k])
      {
        if fault == AtInsert(k) {
          return false;
        }
        if i :| 0 <= i < |staged| && staged[i].id == rolls[k].id {
          if i < |store.rolls| {
            assert store.rolls[i].id == rolls[k].id;
          } else {
            assert rolls[i - |store.rolls|].id == rolls[k].id;
          }
          return false;
        }
        assert forall j | 0 <= j < |store.rolls| :: staged[j] == store.rolls[j];
        assert forall j | 0 <= j < k :: staged[|store.rolls| + j] == rolls[j];
        staged := staged + [rolls[k]];
      }
      assert rolls[..|rolls|] == rolls;
      if fault.AtUpsert? {
        return false;
      }
      var counters := store.pity[pair := Int32(newCounter)];
      if fault.AtCommit? {
        if fault.applied {
          store := Store(staged, counters);
        }
        return false;
      }
      store := Store(staged, counters);
      return true;
    }
  }

  /** All rolls of a player, newest first. */
  function NewestFirst(rolls: seq<Roll>, player: string): seq<Roll> {
    if rolls == [] then []
    else
      var last := rolls[|rolls| - 1];
      var older := NewestFirst(rolls[..|rolls| - 1], player);
      if last.owner.player == player then [last] + older else older
  }

  /** The positions of a player's rolls after one. */
  ghost function Newer(rolls: seq<Roll>, player: string, i: int): set<int> {
    set j | i < j < |rolls| && 0 <= j && rolls[j].owner.player == player
  }

  /** One stored roll more is newer than all before it. */
  lemma NewerSnoc(rolls: seq<Roll>, player: string, i: int)
    requires rolls != [] && -1 <= i < |rolls| - 1
    ensures var n := |rolls| - 1;
      |Newer(rolls, player, i)|
      == |Newer(rolls[..n], player, i)| + if rolls[n].owner.player == player then 1 else 0
  {
    var n := |rolls| - 1;
    var before := Newer(rolls[..n], player, i);
    assert Newer(rolls, player, i) == if rolls[n].owner.player == player then before + {n} else before;
  }

  /** The place of a roll among the player's rolls, newest first, is the number of newer ones. */
  lemma {:induction false} NewestFirstPlaces(rolls: seq<Roll>, player: string)
    ensures |NewestFirst(rolls, player)| == |Newer(rolls, player, -1)|
    ensures forall i | 0 <= i < |rolls| && rolls[i].owner.player == player ::
              |Newer(rolls, player, i)| < |NewestFirst(rolls, player)|
              && NewestFirst(rolls, player)[|Newer(rolls, player, i)|] == rolls[i]
  {
    if rolls == [] {
      assert Newer(rolls, player, -1) == {};
    } else {
      var n := |rolls| - 1;
      NewestFirstPlaces(rolls[..n], player);
      NewerSnoc(rolls, player, -1);
      assert Newer(rolls, player, n) == {};
      hide Newer;
      forall i | 0 <= i < |rolls| && rolls[i].owner.player == player
        ensures |Newer(rolls, player, i)| < |NewestFirst(rolls, player)|
        ensures NewestFirst(rolls, player)[|Newer(rolls, player, i)|] == rolls[i]
      {
        if i < n {
          NewerSnoc(rolls, player, i);
          assert rolls[..n][i] == rolls[i];
        }
      }
    }
  }

  /** So it is in what a limit leaves of them. */
  lemma ListedPlaces(rolls: seq<Roll>, player: string, limit: nat, out: seq<Roll>)
    requires var all := NewestFirst(rolls, player); out == if |all| <= limit then all else all[..limit]
    ensures var total := |Newer(rolls, player, -1)|;
      |out| == if total <= limit then total else limit
    ensures forall i | 0 <= i < |rolls| && rolls[i].owner.player == player && |Newer(rolls, player, i)| < limit ::
      |Newer(rolls, player, i)| < |out| && out[|Newer(rolls, player, i)|] == rolls[i]
  {
    NewestFirstPlaces(rolls, player);
    hide NewestFirst, Newer;
  }

  class InmemGachaRepo {
    var rolls: seq<Roll>
    var pity: map<string, int>

    constructor ()
      ensures rolls == [] && pity == map[]
    {
      rolls, pity := [], map[];
    }

    function AsStore(): Store<string>
      reads this
    {
      Store(rolls, pity)
    }

    method GetPity(pair: Pair) returns (c: int)
      ensures c == CounterOf(INMEM, AsStore(), pair)
      ensures var k := pair.player + "/" + pair.pool;
        c == if k in pity then pity[k] else 0
    {
      var k := Keys.Joined(pair.player, pair.pool);
      c := if k in pity then pity[k] else 0;
    }

    /** Rolls and counter change together; among players without a slash in their id no other counter moves. */
    method InsertRollsAndUpdatePity(batch: seq<Roll>, pair: Pair, newCounter: int)
      modifies this
      ensures AsStore() == Appended(INMEM, old(AsStore()), batch, pair, newCounter)
      ensures CounterOf(INMEM, AsStore(), pair) == newCounter
      ensures rolls == old(rolls) + batch
      ensures pity == old(pity)[pair.player + "/" + pair.pool := newCounter]
      ensures forall other: Pair | other != pair && '/' !in other.player && '/' !in pair.player ::
                CounterOf(INMEM, AsStore(), other) == old(CounterOf(INMEM, AsStore(), other))
    {
      rolls := rolls + batch;
      pity := pity[Keys.Joined(pair.player, pair.pool) := newCounter];
      forall other: Pair | other != pair && '/' !in other.player && '/' !in pair.player
        ensures CounterOf(INMEM, AsStore(), other) == old(CounterOf(INMEM, AsStore(), other))
      {
        Keys.SeparatorFreeKeysArePairs('/', other.player, other.pool, pair.player, pair.pool);
      }
    }

    /**
     The newest limit rolls of the player, newest first: the place of a roll in the list is the number of the player's
     newer rolls, and rolls with limit newer ones are left out.
    */
    method ListRollsByPlayer(player: string, limit: nat) returns (out: seq<Roll>)
      ensures var all := NewestFirst(rolls, player);
        out == if |all| <= limit then all else all[..limit]
      ensures var total := |Newer(rolls, player, -1)|;
        |out| == if total <= limit then total else limit
      ensures forall i | 0 <= i < |rolls| && rolls[i].owner.player == player && |Newer(rolls, player, i)| < limit ::
        |Newer(rolls, player, i)| < |out| && out[|Newer(rolls, player, i)|] == rolls[i]
    {
      out := [];
      var i := |rolls| - 1;
      assert rolls[..|rolls|] == rolls;
      while i >= 0 && |out| < limit
        invariant -1 <= i < |rolls| && |out| <= limit
        invariant out + NewestFirst(rolls[..i + 1], player) == NewestFirst(rolls, player)
      {
        assert rolls[..i + 1][..i] == rolls[..i];
        if rolls[i].owner.player == player {
          out := out + [rolls[i]];
        }
        i := i - 1;
      }
      ListedPlaces(rolls, player, limit, out);
    }
  }
}

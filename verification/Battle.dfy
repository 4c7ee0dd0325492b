/** HP arithmetic of the battle domain and the in-memory repository. */
module BattleDomain {
  const MAX_DAMAGE_PER_REQUEST := 100_000
  const DEFAULT_INITIAL_HP := 10_000

  type Player = string

  predicate ValidDamage(damage: int) {
    1 <= damage <= MAX_DAMAGE_PER_REQUEST
  }

  /** The HP a player has, or starts with when no row exists. */
  function HpIn(rows: map<Player, int>, p: Player): int {
    if p in rows then rows[p] else DEFAULT_INITIAL_HP
  }

  /** One hit, clamped at zero. */
  function Hit(hp: int, damage: int): int {
    if hp - damage < 0 then 0 else hp - damage
  }

  /** A sequential history of hits, oldest first. */
  function HitAll(hp: int, damages: seq<int>): int {
    if damages == [] then hp else Hit(HitAll(hp, damages[..|damages| - 1]), damages[|damages| - 1])
  }

  function Total(damages: seq<int>): int {
    if damages == [] then 0 else Total(damages[..|damages| - 1]) + damages[|damages| - 1]
  }

  predicate NonNegative(damages: seq<int>) {
    forall i | 0 <= i < |damages| :: 0 <= damages[i]
  }

  /** Clamping at every hit is the same as clamping once at the end. */
  lemma {:induction false} HitAllClampsOnce(hp: int, damages: seq<int>)
    requires NonNegative(damages)
    ensures HitAll(hp, damages) ==
            if damages == [] then hp else if hp < Total(damages) then 0 else hp - Total(damages)
  {
    if |damages| > 1 {
      HitAllClampsOnce(hp, damages[..|damages| - 1]);
    } else if |damages| == 1 {
      assert damages[..0] == [];
    }
  }

  lemma {:induction false} TotalWithout(damages: seq<int>, k: nat)
    requires k < |damages|
    ensures Total(damages) == Total(Without(damages, k)) + damages[k]
  {
    var n := |damages| - 1;
    if k == n {
      assert Without(damages, k) == damages[..n];
    } else {
      var rest := Without(damages, k);
      assert rest[..n - 1] == Without(damages[..n], k);
      TotalWithout(damages[..n], k);
    }
  }

  function Without(damages: seq<int>, k: nat): seq<int>
    requires k < |damages|
  {
    damages[..k] + damages[k + 1..]
  }

  lemma MultisetWithout(damages: seq<int>, k: nat)
    requires k < |damages|
    ensures multiset(Without(damages, k)) == multiset(damages) - multiset{damages[k]}
  {
    assert damages == damages[..k] + ([damages[k]] + damages[k + 1..]);
  }

  lemma {:induction false} TotalIgnoresOrder(ds: seq<int>, es: seq<int>)
    requires multiset(ds) == multiset(es)
    ensures Total(ds) == Total(es)
    decreases |ds|
  {
    if ds == [] {
      assert |multiset(es)| == 0;
    } else {
      var n := |ds| - 1;
      assert ds[n] in multiset(es);
      var k :| 0 <= k < |es| && es[k] == ds[n];
      MultisetWithout(es, k);
      MultisetWithout(ds, n);
      TotalIgnoresOrder(Without(ds, n), Without(es, k));
      TotalWithout(es, k);
      TotalWithout(ds, n);
    }
  }

  /** Any two orders of the same hits leave the same HP, so V1 and V2 agree once they applied the same damages. */
  lemma HitOrderIrrelevant(hp: int, ds: seq<int>, es: seq<int>)
    requires multiset(ds) == multiset(es)
    requires NonNegative(ds)
    ensures HitAll(hp, ds) == HitAll(hp, es)
  {
    forall i | 0 <= i < |es| ensures 0 <= es[i] {
      assert es[i] in multiset(ds);
    }
    TotalIgnoresOrder(ds, es);
    HitAllClampsOnce(hp, ds);
    HitAllClampsOnce(hp, es);
    assert |ds| == |multiset(ds)| == |multiset(es)| == |es|;
  }
}

/** The mutex-guarded map repository. Each method body is one critical section. */
module BattleRepoInmem {
  import opened BattleDomain

  datatype Lookup = Found(hp: int) | NotFound

  class BattleRepo {
    var hpByPlayer: map<Player, int>

    constructor ()
      ensures hpByPlayer == map[]
    {
      hpByPlayer := map[];
    }

    method ApplyDamageNaive(player: Player, damage: int) returns (hp: int)
      modifies this
      ensures hp == Hit(HpIn(old(hpByPlayer), player), damage)
      ensures hpByPlayer == old(hpByPlayer)[player := hp]
      ensures var before := if player in old(hpByPlayer) then old(hpByPlayer)[player] else 10_000;
        if before < damage then hp == 0 else hp == before - damage
    {
      if player in hpByPlayer {
        hp := hpByPlayer[player];
      } else {
        hp := DEFAULT_INITIAL_HP;
      }
      hp := hp - damage;
      if hp < 0 {
        hp := 0;
      }
      hpByPlayer := hpByPlayer[player := hp];
    }

    method Get(player: Player) returns (r: Lookup)
      ensures r == if player in hpByPlayer then Found(hpByPlayer[player]) else NotFound
    {
      if player in hpByPlayer {
        r := Found(hpByPlayer[player]);
      } else {
        r := NotFound;
      }
    }

    method Reset(player: Player, hp: int)
      modifies this
      ensures hpByPlayer == old(hpByPlayer)[player := hp]
    {
      hpByPlayer := hpByPlayer[player := hp];
    }
  }
}

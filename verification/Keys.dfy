/** Map keys built by joining two ids with a separator. */
module Keys {
  function JoinedBy(sep: char, first: string, second: string): string {
    first + [sep] + second
  }

  /** The in-memory repositories join with a slash. */
  function Joined(first: string, second: string): string {
    JoinedBy('/', first, second)
  }

  /** The first id a, followed by the separator, begins b. */
  predicate Continues(sep: char, b: string, a: string) {
    a + [sep] <= b
  }

  /** A joined key determines its second id once the first is known. */
  lemma SecondFromKey(sep: char, first: string, s: string, t: string)
    requires JoinedBy(sep, first, s) == JoinedBy(sep, first, t)
    ensures s == t
  {
    assert JoinedBy(sep, first, s)[|first| + 1..] == s;
    assert JoinedBy(sep, first, t)[|first| + 1..] == t;
  }

  /** Two different first ids can share a key exactly when one of them continues the other after the separator. */
  lemma KeysCollideExactly(sep: char, a: string, b: string)
    requires a != b
    ensures (exists s, t :: s != "" && t != "" && JoinedBy(sep, a, s) == JoinedBy(sep, b, t))
            <==> Continues(sep, b, a) || Continues(sep, a, b)
  {
    if s, t :| s != "" && t != "" && JoinedBy(sep, a, s) == JoinedBy(sep, b, t) {
      CollisionShowsPrefix(sep, a, b, s, t);
    }
    if Continues(sep, b, a) { PrefixCollides(sep, a, b, "x"); }
    if Continues(sep, a, b) { PrefixCollides(sep, b, a, "x"); }
  }

  lemma CollisionShowsPrefix(sep: char, a: string, b: string, s: string, t: string)
    requires a != b && JoinedBy(sep, a, s) == JoinedBy(sep, b, t)
    ensures Continues(sep, b, a) || Continues(sep, a, b)
  {
    var k := JoinedBy(sep, a, s);
    assert k[..|a|] == a && k[..|b|] == b;
    if |a| < |b| {
      assert k[..|b|][..|a| + 1] == k[..|a| + 1] == a + [sep];
    } else if |b| < |a| {
      assert k[..|a|][..|b| + 1] == k[..|b| + 1] == b + [sep];
    }
  }

  /** Every second id of the longer first id is reached from the shorter one, too. */
  lemma PrefixCollides(sep: char, a: string, b: string, t: string)
    requires Continues(sep, b, a)
    ensures JoinedBy(sep, a, JoinedBy(sep, b[|a| + 1..], t)) == JoinedBy(sep, b, t)
    ensures JoinedBy(sep, b[|a| + 1..], t) != ""
  {
    assert b == a + [sep] + b[|a| + 1..];
    assert |JoinedBy(sep, b[|a| + 1..], t)| >= 1;
  }

  lemma ContinuesHasSeparator(sep: char, a: string, b: string)
    requires Continues(sep, b, a)
    ensures sep in b
  {
    assert b[|a|] == (a + [sep])[|a|] == sep;
  }

  /** Without the separator in the first id, a joined key behaves like the pair. */
  lemma SeparatorFreeKeysArePairs(sep: char, a: string, s: string, b: string, t: string)
    requires sep !in a && sep !in b
    ensures JoinedBy(sep, a, s) == JoinedBy(sep, b, t) <==> a == b && s == t
  {
    if JoinedBy(sep, a, s) == JoinedBy(sep, b, t) {
      if a == b {
        SecondFromKey(sep, a, s, t);
      } else {
        CollisionShowsPrefix(sep, a, b, s, t);
        if Continues(sep, b, a) { ContinuesHasSeparator(sep, a, b); } else { ContinuesHasSeparator(sep, b, a); }
      }
    }
  }
}

/** Stores that share one table or collection under key prefixes (-kv-key-prefix). */
module KeyPrefix {
  /** The key a store with a prefix uses. */
  function Full(prefix: string, key: string): string {
    if prefix == "" then key else prefix + "/" + key
  }

  /** Under one prefix distinct keys stay distinct. */
  lemma SameKeyIff(prefix: string, k1: string, k2: string)
    ensures Full(prefix, k1) == Full(prefix, k2) <==> k1 == k2
  {
    if prefix != "" {
      assert Full(prefix, k1)[|prefix| + 1..] == k1 && Full(prefix, k2)[|prefix| + 1..] == k2;
    }
  }

  /** Store 1's prefix is empty or a path above store 2's, and its key is the rest of the way. */
  predicate Above(p1: string, k1: string, p2: string, k2: string) {
    if p1 == "" then k1 == Full(p2, k2)
    else |p1| < |p2| && p2[..|p1|] == p1 && p2[|p1|] == '/' && k1 == p2[|p1| + 1..] + "/" + k2
  }

  lemma AboveShares(p1: string, k1: string, p2: string, k2: string)
    requires Above(p1, k1, p2, k2)
    ensures Full(p1, k1) == Full(p2, k2)
  {
    if p1 != "" {
      var n := |p1|;
      assert p2 == p2[..n] + [p2[n]] + p2[n + 1..];
    }
  }

  lemma SharesIsAbove(p1: string, k1: string, p2: string, k2: string)
    requires Full(p1, k1) == Full(p2, k2) && |p1| <= |p2|
    ensures p1 == p2 || Above(p1, k1, p2, k2)
  {
    if p1 != "" {
      var n, f := |p1|, Full(p2, k2);
      assert f == p1 + "/" + k1 && f == p2 + "/" + k2;
      assert p2[..n] == f[..n] == p1;
      if n == |p2| {
        assert p2[..n] == p2;
      } else {
        assert p2[n] == f[n] == '/';
        assert k1 == f[n + 1..] == p2[n + 1..] + "/" + k2;
      }
    }
  }

  /** Two stores of different prefixes use one key exactly when one prefix is empty or a path above the other
      and the keys make up the difference; so stores whose prefixes are single names never do. */
  lemma SharedIff(p1: string, k1: string, p2: string, k2: string)
    requires p1 != p2
    ensures Full(p1, k1) == Full(p2, k2) <==> Above(p1, k1, p2, k2) || Above(p2, k2, p1, k1)
    ensures p1 != "" && p2 != "" && '/' !in p1 && '/' !in p2 ==> Full(p1, k1) != Full(p2, k2)
  {
    if Full(p1, k1) == Full(p2, k2) {
      if |p1| <= |p2| {
        SharesIsAbove(p1, k1, p2, k2);
      } else {
        SharesIsAbove(p2, k2, p1, k1);
      }
    }
    if Above(p1, k1, p2, k2) {
      AboveShares(p1, k1, p2, k2);
    }
    if Above(p2, k2, p1, k1) {
      AboveShares(p2, k2, p1, k1);
    }
  }
}

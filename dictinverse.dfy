/** Python's `{v: k for k, v in d.items()}` on a dictionary whose values are distinct. */
module DictInverse {

  /** A map without two keys sharing a value. */
  ghost predicate Injective(m: map<int, string>)
  {
    forall i, j :: i in m && j in m && m[i] == m[j] ==> i == j
  }

  /**
   * The map from each value of an injective map back to its key: every key
   * comes back from its value, and every value leads to a key holding it.
   */
  function Invert(m: map<int, string>): (r: map<string, int>)
    requires Injective(m)
    ensures forall k :: k in m ==> m[k] in r && r[m[k]] == k
    ensures forall v :: v in r ==> r[v] in m && m[r[v]] == v
  {
    map k | k in m :: m[k] := k
  }
}

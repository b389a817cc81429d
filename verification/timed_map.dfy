/** In-memory maps that are pruned in place, as the gateway's trackers do it. */
module TimedMap {

  function Kept<V>(m: map<string, V>, keep: V -> bool): map<string, V> {
    map k | k in m && keep(m[k]) :: m[k]
  }

  // for (const [k, v] of m) if (!keep(v)) m.delete(k)
  method Prune<V>(m: map<string, V>, keep: V -> bool) returns (r: map<string, V>)
    ensures r == Kept(m, keep)
  {
    r := m;
    var todo := m.Keys;
    while todo != {}
      invariant todo <= m.Keys
      invariant r == map k | k in m && (k in todo || keep(m[k])) :: m[k]
      decreases |todo|
    {
      var k :| k in todo;
      if !keep(m[k]) {
        r := r - {k};
      }
      todo := todo - {k};
    }
  }
}

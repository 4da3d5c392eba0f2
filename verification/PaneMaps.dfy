/** The per-pane memories are maps keyed by pane id, and every operation on them
    changes one pane or forgets the panes outside a set. */
module PaneMaps {
  import opened Prelude

  function At<V>(m: map<string, V>, id: string): Option<V> {
    if id in m then Some(m[id]) else None
  }

  function Put<V>(m: map<string, V>, id: string, e: Option<V>): map<string, V> {
    if e.Some? then m[id := e.value] else m - {id}
  }

  function Keep<V>(m: map<string, V>, ids: seq<string>): (r: map<string, V>)
    ensures forall id :: At(r, id) == if id in ids then At(m, id) else None
  {
    map id | id in m && id in ids :: m[id]
  }

  /** The loop behind both Retain methods: a set of the ids to keep, then one
      deletion per entry outside it. The set is walked in no particular order. */
  method Retained<V>(m: map<string, V>, keep: seq<string>) returns (r: map<string, V>)
    ensures r == Keep(m, keep)
  {
    if |keep| == 0 {
      return map[];
    }
    var ids: set<string> := {};
    for i := 0 to |keep|
      invariant ids == set k | 0 <= k < i :: keep[k]
    {
      ids := ids + {keep[i]};
    }
    assert forall id :: id in ids <==> id in keep;
    r := m;
    var left := m.Keys;
    while left != {}
      invariant left <= m.Keys
      invariant r.Keys <= m.Keys && forall id | id in r :: r[id] == m[id]
      invariant forall id | id in m && id !in left :: id in r <==> id in ids
      invariant forall id | id in left :: id in r
      decreases |left|
    {
      var id :| id in left;
      left := left - {id};
      if id !in ids {
        r := r - {id};
      }
    }
  }

  lemma PutTwice<V>(m: map<string, V>, id: string)
    ensures forall a: Option<V>, b: Option<V> :: Put(Put(m, id, a), id, b) == Put(m, id, b)
  {
  }
}

/** The semantic cache of generated queries: a flat vector index of the
    embeddings of the questions asked, and a dictionary from the position of
    each vector to the question and the SQL generated for it. The embedding
    model and the distance are parameters of the cache. */
module QueryCache {
  import opened Wrappers

  /** One value of `query_dict`: `{"nl": ..., "sql": ...}`. The SQL is
      `None` when generation failed: the page stores the result of
      `generate_sql` whatever it is, so a failed generation is cached too. */
  datatype Entry = Entry(nl: string, sql: Option<string>)

  /** The default `similarity_threshold` of `retrieve_query`. */
  const DefaultThreshold: real := 0.5

  /** The positions of an index holding `n` vectors. */
  function KeysBelow(n: nat): set<nat> {
    if n == 0 then {} else KeysBelow(n - 1) + {n - 1}
  }

  /** The positions are `0` to `n - 1`, and there are `n` of them. */
  lemma {:induction false} KeysBelowCard(n: nat)
    ensures forall k: nat :: k in KeysBelow(n) <==> k < n
    ensures |KeysBelow(n)| == n
    decreases n
  {
    if n > 0 {
      var below := KeysBelow(n - 1);
      KeysBelowCard(n - 1);
      assert n - 1 !in below;
      assert KeysBelow(n) == below + {n - 1};
      assert |below + {n - 1}| == |below| + 1;
    }
  }

  /** `i` is the position a one-nearest-neighbour search of `xs` for `v`
      reports: no vector is closer, and every vector before it is farther
      (the scan keeps the first of equally close vectors). */
  predicate IsNearest<V>(dist: (V, V) -> real, v: V, xs: seq<V>, i: nat) {
    i < |xs| &&
    (forall k :: 0 <= k < |xs| ==> dist(v, xs[i]) <= dist(v, xs[k])) &&
    (forall k :: 0 <= k < i ==> dist(v, xs[i]) < dist(v, xs[k]))
  }

  /** A position before the nearest one is farther, so it is not nearest. */
  lemma NearestIsFirst<V>(dist: (V, V) -> real, v: V, xs: seq<V>, i: nat, j: nat)
    requires IsNearest(dist, v, xs, i)
    ensures j < i ==> !IsNearest(dist, v, xs, j)
  {
    if j < i {
      assert dist(v, xs[i]) < dist(v, xs[j]);
    }
  }

  /** The search has one answer at most. */
  lemma NearestUnique<V>(dist: (V, V) -> real, v: V, xs: seq<V>, i: nat, j: nat)
    requires IsNearest(dist, v, xs, i) && IsNearest(dist, v, xs, j)
    ensures i == j
  {
    NearestIsFirst(dist, v, xs, i, j);
    NearestIsFirst(dist, v, xs, j, i);
  }

  /** With a vector equal to `v` stored at `j`, a distance that is never
      negative and is zero from a vector to itself, the nearest vector is at
      distance zero: below any positive threshold. */
  lemma StoredIsRecalled<V>(dist: (V, V) -> real, v: V, xs: seq<V>, j: nat, i: nat)
    requires j < |xs| && xs[j] == v && dist(v, v) == 0.0
    requires forall x :: 0.0 <= dist(v, x)
    requires IsNearest(dist, v, xs, i)
    ensures dist(v, xs[i]) == 0.0 < DefaultThreshold
  {
    assert dist(v, xs[i]) <= dist(v, xs[j]);
    assert 0.0 <= dist(v, xs[i]);
  }

  /** `index` together with `query_dict`. */
  class Cache<V> {
    /** `model.encode`; `None` when encoding raises. */
    const embed: string -> Option<V>
    /** The distance `IndexFlatL2` reports. */
    const dist: (V, V) -> real
    /** The vectors added to the index, in order. */
    var index: seq<V>
    /** `query_dict`. */
    var entries: map<nat, Entry>

    /** The dictionary has exactly one entry per stored vector, keyed by the
        vector's position. */
    ghost predicate Valid()
      reads this
    {
      entries.Keys == KeysBelow(|index|)
    }

    /** The module-level initialisation: an empty index and dictionary. */
    constructor(embed: string -> Option<V>, dist: (V, V) -> real)
      ensures Valid()
      ensures this.embed == embed && this.dist == dist
      ensures index == [] && entries == map[]
    {
      this.embed := embed;
      this.dist := dist;
      index := [];
      entries := map[];
    }

    /** `store_query(nl_query, sql_query)`: one more vector, and one more
        entry keyed by the dictionary's previous size, which is the new
        vector's position. Nothing is deduplicated and no earlier entry
        changes. When encoding fails nothing is stored. */
    method Store(nl: string, sql: Option<string>)
      requires Valid()
      modifies this
      ensures Valid()
      ensures embed(nl).None? ==> index == old(index) && entries == old(entries)
      ensures embed(nl).Some? ==> index == old(index) + [embed(nl).value]
      ensures embed(nl).Some? ==> |old(entries)| == |old(index)| &&
                                  entries == old(entries)[|old(entries)| := Entry(nl, sql)]
      ensures forall k :: k in old(entries) ==> k in entries && entries[k] == old(entries)[k]
    {
      match embed(nl)
      case None =>
      case Some(v) =>
        KeysBelowCard(|index|);
        assert |entries| == |entries.Keys|;
        var key := |entries|;
        index := index + [v];
        entries := entries[key := Entry(nl, sql)];
        assert entries.Keys == old(entries).Keys + {key};
    }

    /** `index.search(embedding, 1)`: the position of the nearest vector,
        `None` for an empty index. */
    method Nearest(v: V) returns (best: Option<nat>)
      ensures best.None? <==> |index| == 0
      ensures best.Some? ==> IsNearest(dist, v, index, best.value)
    {
      if |index| == 0 {
        return None;
      }
      var b := 0;
      for i := 1 to |index|
        invariant b < i
        invariant forall k :: 0 <= k < i ==> dist(v, index[b]) <= dist(v, index[k])
        invariant forall k :: 0 <= k < b ==> dist(v, index[b]) < dist(v, index[k])
      {
        if dist(v, index[i]) < dist(v, index[b]) {
          b := i;
        }
      }
      return Some(b);
    }

    /** `retrieve_query(nl_query, similarity_threshold)`: the entry stored at
        the nearest vector's position, when that vector is strictly closer
        than the threshold and the position has an entry; `None` otherwise,
        and `None` when encoding fails. Nothing changes. */
    method Retrieve(nl: string, threshold: real := DefaultThreshold) returns (r: Option<Entry>)
      ensures embed(nl).None? || |index| == 0 ==> r.None?
      ensures r.Some? <==> (embed(nl).Some? &&
        exists i: nat :: IsNearest(dist, embed(nl).value, index, i) &&
                         dist(embed(nl).value, index[i]) < threshold && i in entries)
      ensures r.Some? ==>
        exists i: nat :: IsNearest(dist, embed(nl).value, index, i) && i in entries && r.value == entries[i]
    {
      match embed(nl)
      case None =>
        r := None;
      case Some(v) =>
        var best := Nearest(v);
        match best
        case None =>
          r := None;
        case Some(i) =>
          forall j | IsNearest(dist, v, index, j) ensures j == i {
            NearestUnique(dist, v, index, i, j);
          }
          if dist(v, index[i]) < threshold && i in entries {
            r := Some(entries[i]);
          } else {
            r := None;
          }
    }
  }

  /** A question asked again after it was stored is answered from the cache
      with the default threshold: its own vector is in the index at a
      position that has an entry, and the nearest vector is as close. */
  lemma RecallAfterStore<V>(c: Cache<V>, nl: string, j: nat, i: nat)
    requires c.Valid() && c.embed(nl).Some?
    requires j < |c.index| && c.index[j] == c.embed(nl).value
    requires c.dist(c.embed(nl).value, c.embed(nl).value) == 0.0
    requires forall x :: 0.0 <= c.dist(c.embed(nl).value, x)
    requires IsNearest(c.dist, c.embed(nl).value, c.index, i)
    ensures i in c.entries && c.dist(c.embed(nl).value, c.index[i]) < DefaultThreshold
  {
    KeysBelowCard(|c.index|);
    StoredIsRecalled(c.dist, c.embed(nl).value, c.index, j, i);
  }
}

/** The search backend as the service uses it: named indices holding stored
    documents, an existence check, deletion by name and bulk insertion
    (backend/cinema/app.py:94-101). Scoring, analysis and query evaluation
    belong to the engine and are not modelled here. */
module SearchBackend {
  import opened Types

  /** One bulk action: store `source` in the index named `index`. */
  datatype Action = Action(index: string, source: Json)

  type Indices = map<string, seq<Json>>

  /** The documents an index holds, or none when it does not exist. */
  function Stored(m: Indices, name: string): seq<Json> {
    if name in m then m[name] else []
  }

  /** The effect of a bulk request: each action, in order, adds its document to
      its index, creating the index when it does not exist yet. */
  function ApplyBulk(m: Indices, actions: seq<Action>): Indices {
    if actions == [] then m
    else
      var before := ApplyBulk(m, actions[..|actions| - 1]);
      var a := actions[|actions| - 1];
      before[a.index := Stored(before, a.index) + [a.source]]
  }

  /** `[{"_index": name, "_source": doc} for doc in docs]` */
  function Actions(name: string, docs: seq<Json>): seq<Action> {
    seq(|docs|, i requires 0 <= i < |docs| => Action(name, docs[i]))
  }

  /** A bulk request of the actions for `docs` appends exactly `docs`, in
      order, to the one index it names and touches no other; with no documents
      it does nothing at all, so it does not create the index either. */
  lemma {:induction false} BulkIntoOneIndex(m: Indices, name: string, docs: seq<Json>)
    ensures ApplyBulk(m, Actions(name, docs))
            == if docs == [] then m else m[name := Stored(m, name) + docs]
    decreases |docs|
  {
    if docs != [] {
      var n := |docs| - 1;
      var acts := Actions(name, docs);
      assert acts[..n] == Actions(name, docs[..n]);
      assert acts[n] == Action(name, docs[n]);
      BulkIntoOneIndex(m, name, docs[..n]);
      var before := ApplyBulk(m, acts[..n]);
      assert Stored(before, name) == Stored(m, name) + docs[..n];
      assert Stored(m, name) + docs[..n] + [docs[n]] == Stored(m, name) + docs;
      assert ApplyBulk(m, acts) == before[name := Stored(before, name) + [docs[n]]];
    }
  }

  /** The cluster the service talks to. */
  class SearchCluster {
    var indices: Indices

    constructor (initial: Indices)
      ensures indices == initial
    {
      indices := initial;
    }

    /** `es_client.indices.exists(index=name)` */
    predicate Exists(name: string)
      reads this
    {
      name in indices
    }

    /** `es_client.indices.delete(index=name, ignore_unavailable=True)`: a
        missing index is not an error. */
    method Delete(name: string)
      modifies this
      ensures indices == old(indices) - {name}
    {
      indices := indices - {name};
    }

    /** `helpers.bulk(es_client, actions)` */
    method Bulk(actions: seq<Action>)
      modifies this
      ensures indices == ApplyBulk(old(indices), actions)
    {
      indices := ApplyBulk(indices, actions);
    }
  }
}

/**
 * The ETL class of postgres_to_es/services/db_classes.py: a column cache, a
 * batching extractor, a per-row transformer, a bulk loader and the cycle
 * that strings them together and persists the `last_modified` watermark.
 * Each method is proved against the specification functions of EtlSpec.
 */
module DbClasses {
  import opened EtlSpec

  /** The state store, as a key/value map. */
  class StateStore {
    var values: map<string, StateValue>
    /** What the key-less `get_state()` returns. */
    const keyless: StateValue

    constructor (values: map<string, StateValue>, keyless: StateValue)
      ensures this.values == values && this.keyless == keyless
    {
      this.values := values;
      this.keyless := keyless;
    }

    /** `get_state(key)`: the stored value, None when the key was never set. */
    function Get(key: string): (v: StateValue)
      reads this
      ensures key in values ==> v == values[key]
      ensures key !in values ==> v.Null?
    {
      if key in values then values[key] else Null
    }

    /** `set_state({key: v})` */
    method Set(key: string, v: StateValue)
      modifies this
      ensures values == old(values)[key := v]
    {
      values := values[key := v];
    }
  }

  /** The Elasticsearch client, as the log of the bulk requests it received. */
  class SearchIndex {
    var requests: seq<BulkRequest>

    constructor ()
      ensures requests == []
    {
      requests := [];
    }

    /** `es.bulk(index=..., body=...)`; its reply only feeds logging. */
    method Bulk(index: string, body: string)
      modifies this
      ensures requests == old(requests) + [BulkRequest(index, body)]
    {
      requests := requests + [BulkRequest(index, body)];
    }
  }

  /**
   * The person loop of `transform`: each person with a known role is appended,
   * as `{"id", "name"}`, to the list of that role; any other role is dropped.
   */
  method ClassifyPersons(persons: seq<PersonRow>) returns (roles: Roles)
    ensures roles == RolesOf(persons)
  {
    var directors: seq<PersonRef> := [];
    var actors: seq<PersonRef> := [];
    var writers: seq<PersonRef> := [];
    var i := 0;
    while i < |persons|
      invariant i <= |persons|
      invariant directors == RoleRefs(persons[..i], DIRECTOR)
      invariant actors == RoleRefs(persons[..i], ACTOR)
      invariant writers == RoleRefs(persons[..i], WRITER)
    {
      var p := persons[i];
      var personData := PersonRef(p.id, p.fullName);
      if p.role == DIRECTOR {
        directors := directors + [personData];
      } else if p.role == ACTOR {
        actors := actors + [personData];
      } else if p.role == WRITER {
        writers := writers + [personData];
      }
      assert persons[..i + 1][..i] == persons[..i];
      i := i + 1;
    }
    assert persons[..i] == persons;
    roles := Roles(directors, actors, writers);
  }

  /**
   * The `while results := fetchmany(BATCH_SIZE)` loop of `get_data` over the
   * result set `results`: collects each non-empty answer until one is empty,
   * or until the fetch that `fault` names raises.
   */
  method FetchBatches(results: seq<FilmRow>, fault: Option<nat>) returns (batches: seq<seq<FilmRow>>)
    requires fault != Some(0)
    ensures batches == Fetched(Chunks(results, BATCH_SIZE), fault)
  {
    ghost var chunks := Chunks(results, BATCH_SIZE);
    batches := [];
    var pos := 0;
    var fetch := 1;
    while true
      invariant pos <= |results|
      invariant batches + ChunksFrom(results, BATCH_SIZE, pos) == chunks
      invariant |batches| == fetch - 1
      invariant fault.Some? ==> fault.value >= fetch
      decreases |results| - pos
    {
      PrefixOfAppend(batches, ChunksFrom(results, BATCH_SIZE, pos));
      if fault == Some(fetch) {
        FetchedAfter(chunks, fault, fetch - 1);
        return;
      }
      var end := FetchEnd(results, BATCH_SIZE, pos);
      var chunk := results[pos..end];
      ChunksStep(results, BATCH_SIZE, pos);
      if chunk == [] {
        FetchedAfter(chunks, fault, fetch - 1);
        return;
      }
      AppendAssoc(batches, [chunk], ChunksFrom(results, BATCH_SIZE, end));
      batches := batches + [chunk];
      pos, fetch := end, fetch + 1;
    }
  }

  class ETL {
    /** What the Postgres cursor answers. */
    const pg: Postgres
    const es: SearchIndex
    const indexName: string
    const state: StateStore
    /** `json.dumps` */
    const ser: BulkEntry -> string
    var columnsCache: map<string, seq<string>>

    constructor (pg: Postgres, es: SearchIndex, indexName: string, state: StateStore, ser: BulkEntry -> string)
      ensures this.pg == pg && this.es == es && this.indexName == indexName
      ensures this.state == state && this.ser == ser
      ensures columnsCache == map[]
    {
      this.pg := pg;
      this.es := es;
      this.indexName := indexName;
      this.state := state;
      this.ser := ser;
      columnsCache := map[];
    }

    /**
     * `get_columns(table)`: a cached table answers from the cache with no
     * query; a successful lookup is stored and returned; a failed one returns
     * [] and leaves the cache as it was.
     */
    method GetColumns(table: string) returns (columns: seq<string>)
      modifies this`columnsCache
      ensures columnsCache == CacheAfter(pg, old(columnsCache), table)
      ensures table in old(columnsCache) ==> columnsCache == old(columnsCache)
      ensures table in columnsCache ==> columns == columnsCache[table]
      ensures table !in columnsCache ==> columns == [] && columnsCache == old(columnsCache)
    {
      if table in columnsCache {
        return columnsCache[table];
      }
      if table !in pg.columns {
        // the lookup raised; the error is logged
        return [];
      }
      columns := pg.columns[table];
      columnsCache := columnsCache[table := columns];
    }

    /**
     * `get_data()`: reads the watermark (`datetime.min` when unset), runs the
     * film_work query and collects its batches; an exception from the query
     * ends it silently with none.
     */
    method GetData() returns (batches: seq<seq<FilmRow>>)
      ensures batches == Batches(pg, Watermark(state.Get(LAST_MODIFIED)))
    {
      var stored := state.Get(LAST_MODIFIED);
      var lastModified := if stored.Null? then DATETIME_MIN else stored.at;
      if pg.fault == Some(0) {
        return [];
      }
      batches := FetchBatches(Selected(pg.filmWork, lastModified), pg.fault);
    }

    /**
     * `transform(row)`: looks up the film_work columns, the film's genres and
     * persons, and builds the document from the first person, or gives None
     * when there is none.
     */
    method Transform(row: FilmRow) returns (doc: Option<Document>)
      modifies this`columnsCache
      ensures doc == TransformOf(pg, row)
      ensures columnsCache == CacheAfter(pg, old(columnsCache), FILM_WORK)
    {
      var columns := GetColumns(FILM_WORK);
      var genres := GenresOf(pg, row.id);
      var persons := PersonsOf(pg, row.id);
      if persons == [] {
        return None;
      }
      var roles := ClassifyPersons(persons[..1]);
      doc := Some(DocumentOf(row, genres, roles));
    }

    /**
     * `load_data(docs)`: pairs every truthy document with its index action and,
     * when that list is not empty, sends it as one newline-delimited bulk request.
     */
    method LoadData(docs: seq<Option<Document>>)
      modifies es
      ensures es.requests == old(es.requests) + LoadRequests(indexName, ser, docs)
    {
      var bulkData: seq<BulkEntry> := [];
      var i := 0;
      while i < |docs|
        invariant i <= |docs|
        invariant bulkData == BulkEntries(indexName, docs[..i])
      {
        var d := docs[i];
        if d.Some? {
          bulkData := bulkData + [IndexAction(indexName, d.value.id), Source(d.value)];
        }
        assert docs[..i + 1][..i] == docs[..i];
        i := i + 1;
      }
      assert docs[..i] == docs;
      if bulkData != [] {
        es.Bulk(indexName, JoinLines(Serialized(ser, bulkData)) + "\n");
      }
    }

    /**
     * The body of the batch loop of `etl()` for a non-empty batch: transforms
     * every row, loads the documents, and stores the `modified` of the last
     * row that produced a document (or the key-less state value) unless it is None.
     */
    method ProcessBatch(results: seq<FilmRow>)
      requires results != []
      modifies this`columnsCache, state, es
      ensures state.values == CommitBatch(pg, state.keyless, old(state.values), results)
      ensures es.requests == old(es.requests) + LoadRequests(indexName, ser, Produced(pg, results))
      ensures columnsCache == CacheAfter(pg, old(columnsCache), FILM_WORK)
    {
      var transformed, lastModified := TransformRows(results, state.keyless);
      LoadData(transformed);
      if !lastModified.Null? {
        state.Set(LAST_MODIFIED, lastModified);
      }
    }

    /**
     * The row loop of `etl()`: collects the documents `transform` returns and
     * remembers the `modified` of the last row that gave one, starting from
     * `initial`, the key-less state value.
     */
    method TransformRows(results: seq<FilmRow>, initial: StateValue)
      returns (transformed: seq<Option<Document>>, lastModified: StateValue)
      modifies this`columnsCache
      ensures transformed == Produced(pg, results)
      ensures lastModified == LastModified(pg, results, initial)
      ensures columnsCache == if results == [] then old(columnsCache) else CacheAfter(pg, old(columnsCache), FILM_WORK)
    {
      ghost var cache0 := columnsCache;
      transformed, lastModified := [], initial;
      var i := 0;
      while i < |results|
        invariant i <= |results|
        invariant transformed == Produced(pg, results[..i])
        invariant lastModified == LastModified(pg, results[..i], initial)
        invariant columnsCache == if i == 0 then cache0 else CacheAfter(pg, cache0, FILM_WORK)
      {
        var row := results[i];
        var doc := Transform(row);
        CacheAfterIdempotent(pg, cache0, FILM_WORK);
        if doc.Some? {
          transformed := transformed + [doc];
          var columns := GetColumns(FILM_WORK);
          lastModified := Stamp(row.modified);
        }
        assert results[..i + 1] == results[..i] + [row];
        ProducedStep(pg, results[..i], row, initial);
        i := i + 1;
      }
      assert results[..i] == results;
    }

    /** `etl()`: one cycle, the batches of `get_data` one after another. */
    method Etl()
      modifies this`columnsCache, state, es
      ensures var bs := Batches(pg, Watermark(old(state.Get(LAST_MODIFIED))));
        && state.values == CommitAll(pg, state.keyless, old(state.values), bs)
        && es.requests == old(es.requests) + Requests(pg, indexName, ser, bs)
        && columnsCache == if Flatten(bs) == [] then old(columnsCache) else CacheAfter(pg, old(columnsCache), FILM_WORK)
    {
      var batches := GetData();
      RunBatches(batches);
    }

    /**
     * The `for results in self.get_data()` loop of `etl()`: an empty batch is
     * skipped, every other one goes through ProcessBatch.
     */
    method RunBatches(batches: seq<seq<FilmRow>>)
      modifies this`columnsCache, state, es
      ensures state.values == CommitAll(pg, state.keyless, old(state.values), batches)
      ensures es.requests == old(es.requests) + Requests(pg, indexName, ser, batches)
      ensures columnsCache == if Flatten(batches) == [] then old(columnsCache) else CacheAfter(pg, old(columnsCache), FILM_WORK)
    {
      ghost var values0, requests0, cache0 := state.values, es.requests, columnsCache;
      ghost var done: seq<seq<FilmRow>> := [];
      var k := 0;
      while k < |batches|
        invariant k <= |batches| && done == batches[..k]
        invariant state.values == CommitAll(pg, state.keyless, values0, done)
        invariant es.requests == requests0 + Requests(pg, indexName, ser, done)
        invariant columnsCache == if Flatten(done) == [] then cache0 else CacheAfter(pg, cache0, FILM_WORK)
      {
        var results := batches[k];
        CycleStep(pg, state.keyless, values0, indexName, ser, done, results);
        CacheAfterIdempotent(pg, cache0, FILM_WORK);
        if results != [] {
          ghost var sent := Requests(pg, indexName, ser, done);
          ProcessBatch(results);
          AppendAssoc(requests0, sent, LoadRequests(indexName, ser, Produced(pg, results)));
        }
        PrefixStep(batches, k);
        done := done + [results];
        k := k + 1;
      }
      assert batches[..k] == batches;
    }
  }
}

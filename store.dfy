/**
 * The content store (one file per document id), the per-collection index
 * table, and the operations that keep the table in step with the files:
 * `_update_index_for`, `_try_reindex_file`, `reindex`, `save`, `get`, and
 * `declare_collection`. The YAML codec and the SHA-1 digest are parameters.
 */
module Store {
  import opened Values
  import opened Stringifier

  newtype byte = x: int | 0 <= x < 256
  type Bytes = seq<byte>

  /** One index-table row: the stringified indexed fields, in column order, then `_hash`. */
  datatype Row = Row(columns: seq<Value>, hash: string)

  /** The index table, keyed by `_id` (delete-then-insert keeps one row per id). */
  type Table = map<string, Row>

  /** The collection directory: document id to file bytes. */
  type Files = map<string, Bytes>

  predicate Distinct(s: seq<string>) {
    forall i, j :: 0 <= i < j < |s| ==> s[i] != s[j]
  }

  function AddColumns(acc: seq<string>, rest: seq<string>): (r: seq<string>)
    requires Distinct(acc)
    ensures Distinct(r)
    ensures forall f :: f in r <==> f in acc || f in rest
    ensures |acc| <= |r| && r[..|acc|] == acc
    decreases |rest|
  {
    if rest == [] then acc
    else AddColumns(if rest[0] in acc then acc else acc + [rest[0]], rest[1..])
  }

  /**
   * `list(set(['_id']) | set(indexes))`: the indexed columns, `_id` among
   * them, each once.
   */
  function IndexColumns(indexes: seq<string>): (r: seq<string>)
    ensures "_id" in r
    ensures forall f :: f in r <==> f == "_id" || f in indexes
    ensures Distinct(r)
  {
    AddColumns(["_id"], indexes)
  }

  /** `[stringify(doc.get(f)) for f in indexes]`. */
  function RowValues(indexes: seq<string>, doc: Doc): seq<Value> {
    seq(|indexes|, k requires 0 <= k < |indexes| => Stringify(Lookup(doc, indexes[k])))
  }

  function IndexRow(indexes: seq<string>, doc: Doc, h: string): Row {
    Row(RowValues(indexes, doc), h)
  }

  /**
   * `Collection.get`: no file gives None; a file the loader rejects raises;
   * otherwise the decoded mapping with `_id` set to the id.
   */
  function Resolve(files: Files, decode: Bytes -> Option<Doc>, id: string): (r: Result<Option<Doc>>)
    ensures r == Ok(None) <==> id !in files
    ensures r.Err? <==> id in files && decode(files[id]).None?
    ensures r.Err? ==> r.error == DecodeFailure(id)
    ensures r.Ok? && r.value.Some? ==>
      var d := r.value.value;
      && id in files && decode(files[id]).Some?
      && "_id" in d && d["_id"] == Text(id)
      && d.Keys == decode(files[id]).value.Keys + {"_id"}
      && (forall f :: f in d && f != "_id" ==> d[f] == decode(files[id]).value[f])
  {
    if id !in files then Ok(None)
    else match decode(files[id])
      case None => Err(DecodeFailure(id))
      case Some(d) => Ok(Some(d["_id" := Text(id)]))
  }

  /** The row for id was derived from the file's current content. */
  predicate Fresh(files: Files, table: Table, hash: Bytes -> string, id: string) {
    id in files && id in table && table[id].hash == hash(files[id])
  }

  /** Every document file has an up-to-date row. */
  predicate Consistent(files: Files, table: Table, hash: Bytes -> string) {
    forall id :: id in files ==> Fresh(files, table, hash, id)
  }

  /**
   * `_try_reindex_file`: nothing to do when the recorded hash matches the
   * file's; otherwise load the document and replace its row with one that
   * carries the file's hash. A load failure propagates.
   */
  function ReindexFile(files: Files, table: Table, decode: Bytes -> Option<Doc>, hash: Bytes -> string,
                       indexes: seq<string>, id: string): Result<Table>
    requires id in files
  {
    var h := hash(files[id]);
    if id in table && table[id].hash == h then Ok(table)
    else match Resolve(files, decode, id)
      case Err(e) => Err(e)
      case Ok(None) => Ok(table)
      case Ok(Some(doc)) => Ok(table[id := IndexRow(indexes, doc, h)])
  }

  /**
   * The outcome of a reindex pass: the table it reached, how many listed
   * files it handled, and the error it stopped on, if any. Each rebuilt row
   * is committed as soon as it is written, so a pass that raises still
   * leaves the rows it rebuilt before the failing file.
   */
  datatype Pass = Pass(table: Table, done: nat, error: Option<Error>)

  /** `Collection.reindex`: `_try_reindex_file` for each listed file in turn; the first failure stops it. */
  function ReindexAll(files: Files, table: Table, decode: Bytes -> Option<Doc>, hash: Bytes -> string,
                      indexes: seq<string>, order: seq<string>): Pass
    requires forall k :: 0 <= k < |order| ==> order[k] in files
    decreases |order|
  {
    if order == [] then Pass(table, 0, None)
    else match ReindexFile(files, table, decode, hash, indexes, order[0])
      case Err(e) => Pass(table, 0, Some(e))
      case Ok(t) =>
        var rest := ReindexAll(files, t, decode, hash, indexes, order[1..]);
        Pass(rest.table, rest.done + 1, rest.error)
  }

  /** A reindexed file ends up fresh; no other row changes. */
  lemma ReindexFileEffect(files: Files, table: Table, decode: Bytes -> Option<Doc>, hash: Bytes -> string,
                          indexes: seq<string>, id: string)
    requires id in files
    ensures ReindexFile(files, table, decode, hash, indexes, id).Ok? ==>
      var t := ReindexFile(files, table, decode, hash, indexes, id).value;
      && Fresh(files, t, hash, id)
      && t.Keys == table.Keys + {id}
      && (forall x :: x in table && x != id ==> t[x] == table[x])
    ensures ReindexFile(files, table, decode, hash, indexes, id).Err? <==>
      !Fresh(files, table, hash, id) && decode(files[id]).None?
  {
  }

  /** A stale or missing row is rebuilt from the document with the file's hash. */
  lemma ReindexFileRebuildsStale(files: Files, table: Table, decode: Bytes -> Option<Doc>, hash: Bytes -> string,
                                 indexes: seq<string>, id: string, doc: Doc)
    requires id in files && !Fresh(files, table, hash, id) && decode(files[id]) == Some(doc)
    ensures ReindexFile(files, table, decode, hash, indexes, id)
         == Ok(table[id := IndexRow(indexes, doc["_id" := Text(id)], hash(files[id]))])
  {
  }

  /** A reindex pass, whether it completes or stops, never spoils a row that is already fresh. */
  lemma {:induction false} ReindexKeepsFresh(files: Files, table: Table, decode: Bytes -> Option<Doc>,
                                            hash: Bytes -> string, indexes: seq<string>, order: seq<string>, x: string)
    requires forall k :: 0 <= k < |order| ==> order[k] in files
    requires Fresh(files, table, hash, x)
    ensures Fresh(files, ReindexAll(files, table, decode, hash, indexes, order).table, hash, x)
    decreases |order|
  {
    if order != [] {
      ReindexFileEffect(files, table, decode, hash, indexes, order[0]);
      var r := ReindexFile(files, table, decode, hash, indexes, order[0]);
      if r.Ok? {
        ReindexKeepsFresh(files, r.value, decode, hash, indexes, order[1..], x);
      }
    }
  }

  /**
   * A pass handles the listed files up to the first one that fails. Every
   * file it handled is fresh in the table it leaves; it stops, with that
   * file's load error, exactly at a file that is stale and does not load;
   * and the rows of ids it did not list (orphans included) are as they were.
   */
  lemma {:induction false} ReindexFreshens(files: Files, table: Table, decode: Bytes -> Option<Doc>,
                                           hash: Bytes -> string, indexes: seq<string>, order: seq<string>)
    requires forall k :: 0 <= k < |order| ==> order[k] in files
    ensures var p := ReindexAll(files, table, decode, hash, indexes, order);
      && p.done <= |order|
      && (p.error.None? <==> p.done == |order|)
      && (forall k :: 0 <= k < p.done ==> Fresh(files, p.table, hash, order[k]))
      && (p.error.Some? ==>
            && ReindexFile(files, p.table, decode, hash, indexes, order[p.done]) == Err(p.error.value)
            && !Fresh(files, p.table, hash, order[p.done]) && decode(files[order[p.done]]).None?)
      && (forall x :: x !in order ==> (x in p.table <==> x in table) && (x in table ==> p.table[x] == table[x]))
    decreases |order|
  {
    if order != [] {
      ReindexFileEffect(files, table, decode, hash, indexes, order[0]);
      var r := ReindexFile(files, table, decode, hash, indexes, order[0]);
      if r.Ok? {
        var t1 := r.value;
        ReindexFreshens(files, t1, decode, hash, indexes, order[1..]);
        ReindexKeepsFresh(files, t1, decode, hash, indexes, order[1..], order[0]);
        var p := ReindexAll(files, table, decode, hash, indexes, order);
        forall k | 0 <= k < p.done ensures Fresh(files, p.table, hash, order[k]) {
          if k > 0 { assert order[k] == order[1..][k - 1]; }
        }
        if p.error.Some? {
          assert order[p.done] == order[1..][p.done - 1];
        }
        forall x | x !in order ensures (x in p.table <==> x in table) && (x in table ==> p.table[x] == table[x]) {
          assert x != order[0];
          assert x !in order[1..];
        }
      }
    }
  }

  /** When every listed row is fresh, reindexing completes and changes nothing. */
  lemma {:induction false} ReindexFixpoint(files: Files, table: Table, decode: Bytes -> Option<Doc>,
                                           hash: Bytes -> string, indexes: seq<string>, order: seq<string>)
    requires forall k :: 0 <= k < |order| ==> order[k] in files
    requires forall k :: 0 <= k < |order| ==> Fresh(files, table, hash, order[k])
    ensures ReindexAll(files, table, decode, hash, indexes, order) == Pass(table, |order|, None)
    decreases |order|
  {
    if order != [] {
      assert Fresh(files, table, hash, order[0]);
      ReindexFixpoint(files, table, decode, hash, indexes, order[1..]);
    }
  }

  /**
   * A pass over a table in which the first n listed files are fresh, and in
   * which the next one fails, stops there with that error and changes nothing.
   */
  lemma {:induction false} ReindexStopsAt(files: Files, t: Table, decode: Bytes -> Option<Doc>,
                                          hash: Bytes -> string, indexes: seq<string>, order: seq<string>,
                                          n: nat, e: Error)
    requires forall k :: 0 <= k < |order| ==> order[k] in files
    requires n < |order|
    requires forall k :: 0 <= k < n ==> Fresh(files, t, hash, order[k])
    requires ReindexFile(files, t, decode, hash, indexes, order[n]) == Err(e)
    ensures ReindexAll(files, t, decode, hash, indexes, order) == Pass(t, n, Some(e))
    decreases n
  {
    if n > 0 {
      assert Fresh(files, t, hash, order[0]);
      forall k | 0 <= k < n - 1 ensures Fresh(files, t, hash, order[1..][k]) {
        assert order[1..][k] == order[k + 1];
      }
      assert order[1..][n - 1] == order[n];
      ReindexStopsAt(files, t, decode, hash, indexes, order[1..], n - 1, e);
    }
  }

  /**
   * A second reindex with no intervening writes changes nothing, whether the
   * first one completed or raised: the second pass reaches the same table,
   * stops at the same file and raises the same error.
   */
  lemma ReindexIdempotent(files: Files, table: Table, decode: Bytes -> Option<Doc>,
                          hash: Bytes -> string, indexes: seq<string>, order: seq<string>)
    requires forall k :: 0 <= k < |order| ==> order[k] in files
    ensures var p := ReindexAll(files, table, decode, hash, indexes, order);
      ReindexAll(files, p.table, decode, hash, indexes, order) == p
  {
    ReindexFreshens(files, table, decode, hash, indexes, order);
    var p := ReindexAll(files, table, decode, hash, indexes, order);
    if p.error.None? {
      ReindexFixpoint(files, p.table, decode, hash, indexes, order);
    } else {
      ReindexStopsAt(files, p.table, decode, hash, indexes, order, p.done, p.error.value);
    }
  }

  /**
   * A pass over a stale file that loads, then a file that does not, stops
   * on the second with its load error and keeps the first file's rebuilt row.
   */
  lemma ReindexKeepsRowsBeforeFailure(files: Files, table: Table, decode: Bytes -> Option<Doc>,
                                      hash: Bytes -> string, indexes: seq<string>, a: string, b: string, doc: Doc)
    requires a in files && b in files && a != b
    requires !Fresh(files, table, hash, a) && decode(files[a]) == Some(doc)
    requires !Fresh(files, table, hash, b) && decode(files[b]).None?
    ensures var rebuilt := table[a := IndexRow(indexes, doc["_id" := Text(a)], hash(files[a]))];
      ReindexAll(files, table, decode, hash, indexes, [a, b]) == Pass(rebuilt, 1, Some(DecodeFailure(b)))
  {
    var rebuilt := table[a := IndexRow(indexes, doc["_id" := Text(a)], hash(files[a]))];
    ReindexFileRebuildsStale(files, table, decode, hash, indexes, a, doc);
    assert !Fresh(files, rebuilt, hash, b);
    assert [a, b][1..] == [b];
    assert [b][1..] == [];
  }

  /**
   * Steps 1-2 of `save`: keep a text `_id`, assign the fresh id only when
   * `_id` is absent or None; any other `_id` makes `os.path.join` raise. No
   * other field changes.
   */
  function Identify(doc: Doc, freshId: string): (r: Result<(string, Doc)>)
    ensures r.Ok? <==> Lookup(doc, "_id").Null? || Lookup(doc, "_id").Text?
    ensures r.Err? ==> r.error == IdNotText
    ensures r.Ok? ==>
      var (id, d) := r.value;
      && "_id" in d && d["_id"] == Text(id)
      && (Lookup(doc, "_id").Text? ==> id == Lookup(doc, "_id").s && d == doc)
      && (Lookup(doc, "_id").Null? ==> id == freshId)
      && d.Keys == doc.Keys + {"_id"}
      && (forall f :: f in doc && f != "_id" ==> d[f] == doc[f])
  {
    match Lookup(doc, "_id")
    case Null => Ok((freshId, doc["_id" := Text(freshId)]))
    case Text(id) => Ok((id, doc))
    case _ => Err(IdNotText)
  }

  /**
   * After `save` writes `dump(d)` under id and records its hash, the row
   * for id is fresh and the consistency of the whole collection is kept.
   */
  lemma SaveKeepsConsistent(files: Files, table: Table, hash: Bytes -> string, indexes: seq<string>,
                            id: string, d: Doc, dump: Doc -> Bytes)
    requires Consistent(files, table, hash)
    ensures var files' := files[id := dump(d)];
      var table' := table[id := IndexRow(indexes, d, hash(dump(d)))];
      Fresh(files', table', hash, id) && Consistent(files', table', hash)
  {
  }

  /** Right after `save`, reindexing that file finds nothing to do. */
  lemma SaveThenReindexFile(files: Files, table: Table, decode: Bytes -> Option<Doc>, hash: Bytes -> string,
                            indexes: seq<string>, id: string, d: Doc, dump: Doc -> Bytes)
    ensures var files' := files[id := dump(d)];
      var table' := table[id := IndexRow(indexes, d, hash(dump(d)))];
      ReindexFile(files', table', decode, hash, indexes, id) == Ok(table')
  {
  }

  /** With a codec that round-trips the document, `get` after `save` returns what was saved. */
  lemma SaveThenGet(files: Files, decode: Bytes -> Option<Doc>, dump: Doc -> Bytes, doc: Doc, freshId: string)
    requires Identify(doc, freshId).Ok?
    requires decode(dump(Identify(doc, freshId).value.1)) == Some(Identify(doc, freshId).value.1)
    ensures var (id, d) := Identify(doc, freshId).value;
      Resolve(files[id := dump(d)], decode, id) == Ok(Some(d))
  {
    var (id, d) := Identify(doc, freshId).value;
    assert d["_id" := Text(id)] == d;
  }

  /** A collection: its name, its indexed columns, its directory and its index table. */
  class Collection {
    const name: string
    const indexes: seq<string>
    const dump: Doc -> Bytes
    const decode: Bytes -> Option<Doc>
    const hash: Bytes -> string
    var files: Files
    var rows: Table

    /**
     * `Collection.__init__`. `files` and `rows` are what the directory and
     * the index table already hold: `create table if not exists` keeps an
     * existing table's rows.
     */
    constructor (name: string, requested: seq<string>, dump: Doc -> Bytes, decode: Bytes -> Option<Doc>,
                 hash: Bytes -> string, files: Files, rows: Table)
      ensures this.name == name && indexes == IndexColumns(requested)
      ensures "_id" in indexes && Distinct(indexes)
      ensures this.dump == dump && this.decode == decode && this.hash == hash
      ensures this.files == files && this.rows == rows
    {
      this.name := name;
      this.indexes := IndexColumns(requested);
      this.dump, this.decode, this.hash := dump, decode, hash;
      this.files, this.rows := files, rows;
    }

    /** `get(id)`. */
    function Get(id: string): Result<Option<Doc>>
      reads this
    {
      Resolve(files, decode, id)
    }

    /**
     * `_update_index_for(doc, h)`: delete the row for the document's id,
     * then insert one built column by column. Afterwards there is exactly
     * one row for that id, and every other row is as it was.
     */
    method UpdateIndexFor(doc: Doc, h: string)
      requires "_id" in doc && doc["_id"].Text?
      modifies this`rows
      ensures rows == old(rows)[doc["_id"].s := IndexRow(indexes, doc, h)]
    {
      var id := doc["_id"].s;
      rows := rows - {id};
      var values: seq<Value> := [];
      for i := 0 to |indexes|
        invariant |values| == i
        invariant forall k :: 0 <= k < i ==> values[k] == Stringify(Lookup(doc, indexes[k]))
      {
        values := values + [Stringify(Lookup(doc, indexes[i]))];
      }
      assert values == RowValues(indexes, doc);
      rows := rows[id := Row(values, h)];
      assert rows == old(rows)[id := IndexRow(indexes, doc, h)];
    }

    /** `_try_reindex_file(id)`. A failure leaves the table as it was. */
    method TryReindexFile(id: string) returns (err: Option<Error>)
      requires id in files
      modifies this`rows
      ensures match ReindexFile(files, old(rows), decode, hash, indexes, id)
        case Ok(t) => rows == t && err == None
        case Err(e) => rows == old(rows) && err == Some(e)
    {
      var h := hash(files[id]);
      if id in rows && rows[id].hash == h {
        return None;
      }
      var document := Get(id);
      match document
      case Err(e) =>
        return Some(e);
      case Ok(None) =>
        return None;
      case Ok(Some(doc)) =>
        UpdateIndexFor(doc, h);
        return None;
    }

    /**
     * `reindex`: `_try_reindex_file` for every document file, in the order
     * the directory listing gives. A failure raises out of the pass; the rows
     * rebuilt before it stay, since each was committed when it was written.
     */
    method Reindex(listing: seq<string>) returns (err: Option<Error>)
      requires forall k :: 0 <= k < |listing| ==> listing[k] in files
      requires forall id :: id in files ==> id in listing
      modifies this`rows
      ensures rows == ReindexAll(files, old(rows), decode, hash, indexes, listing).table
      ensures err == ReindexAll(files, old(rows), decode, hash, indexes, listing).error
      ensures err == None ==> Consistent(files, rows, hash)
    {
      ghost var saved := rows;
      var i := 0;
      while i < |listing|
        invariant 0 <= i <= |listing|
        invariant var p := ReindexAll(files, saved, decode, hash, indexes, listing);
          var q := ReindexAll(files, rows, decode, hash, indexes, listing[i..]);
          p.table == q.table && p.error == q.error && p.done == i + q.done
      {
        assert listing[i..][1..] == listing[i + 1..];
        var e := TryReindexFile(listing[i]);
        if e.Some? {
          return e;
        }
        i := i + 1;
      }
      assert listing[i..] == [];
      ReindexFreshens(files, saved, decode, hash, indexes, listing);
      return None;
    }

    /**
     * `save(doc)`: pick the id, write the dumped bytes to the id's file,
     * then replace the id's row using the hash of exactly those bytes.
     * `freshId` stands for `uuid4()`, which is not in use.
     */
    method Save(doc: Doc, freshId: string) returns (r: Result<Doc>)
      requires freshId !in files
      modifies this
      ensures match Identify(doc, freshId)
        case Err(e) => r == Err(e) && files == old(files) && rows == old(rows)
        case Ok((id, d)) =>
          && r == Ok(d)
          && files == old(files)[id := dump(d)]
          && rows == old(rows)[id := IndexRow(indexes, d, hash(dump(d)))]
    {
        var identified := Identify(doc, freshId);
      if identified.Err? {
        return Err(identified.error);
      }
      var (id, d) := identified.value;
      var bytes := dump(d);
      files := files[id := bytes];
      UpdateIndexFor(d, hash(bytes));
      return Ok(d);
    }
  }

  /** The registry of declared collections and the codec they share. */
  class Database {
    const dump: Doc -> Bytes
    const decode: Bytes -> Option<Doc>
    const hash: Bytes -> string
    var collections: map<string, Collection>

    constructor (dump: Doc -> Bytes, decode: Bytes -> Option<Doc>, hash: Bytes -> string)
      ensures this.dump == dump && this.decode == decode && this.hash == hash
      ensures collections == map[]
    {
      this.dump, this.decode, this.hash := dump, decode, hash;
      collections := map[];
    }

    /**
     * `declare_collection(name, indexes)`: a name already declared is
     * refused and the registry is left as it was; otherwise a new
     * collection over the given directory and table is registered.
     */
    method DeclareCollection(name: string, indexes: seq<string>, files: Files, rows: Table)
      returns (r: Result<Collection>)
      modifies this
      ensures name in old(collections) ==> r == Err(DuplicateCollection(name)) && collections == old(collections)
      ensures name !in old(collections) ==>
        && r.Ok? && fresh(r.value)
        && collections == old(collections)[name := r.value]
        && r.value.name == name && r.value.indexes == IndexColumns(indexes)
        && r.value.dump == dump && r.value.decode == decode && r.value.hash == hash
        && r.value.files == files && r.value.rows == rows
    {
      if name in collections {
        return Err(DuplicateCollection(name));
      }
      var c := new Collection(name, indexes, dump, decode, hash, files, rows);
      collections := collections[name := c];
      return Ok(c);
    }
  }
}

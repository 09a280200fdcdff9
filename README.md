# yamldb index and query core, modelled in Dafny

yamldb stores each document as one YAML file per id in a collection
directory, and keeps a derived SQLite index table per collection: one row per
document with the stringified indexed fields and the SHA-1 of the file. This
project models the parts of `yamldb.py` that have logic of their own:

- **Stringifier** (`stringifier.dfy`): `stringify`, with `%016d` for integers
  (booleans included, since Python's `bool` is an `int`) and
  `YYYY-MM-DDTHH:MM:SSZ` for datetimes. It proves that in-range integers give
  exactly 16 digits whose text order is numeric order and that read back to
  the same number. It also proves that datetime texts are ordered
  chronologically.
- **Expression compiler** (`expressions.dfy`): the expression nodes
  (`_Name`, `_Literal`, `_Op`, `_IsNull`, `_Neg`, `_Extract`) as one datatype.
  Builder functions replace operator overloading and the `C` accessor. `ToSql`
  plays the part of `to_sql`. The central result is that placeholders and
  parameters are aligned: the text has one `?` per parameter, the k-th
  parameter binds the k-th literal from the left, and binding positionally
  gives the same query as inlining every literal where it stands.
- **Query builder** (`query.dfy`): the `Query` class with its where and order
  lists, the limit and the offset. It has `filter`, `order_by`, `limit`,
  `offset`, `_make_select`, `all` and `first`. The ids the SQL statement
  returns are a parameter.
- **Store** (`store.dfy`): the content store as a map from id to bytes and
  the index table as a map from id to row. `Collection` models `__init__`,
  `get`, `_update_index_for`, `_try_reindex_file`, `reindex` and `save`;
  `Database` models `declare_collection`. Each operation of `Collection`
  is a method whose contract equals a pure function (`ReindexFile`,
  `ReindexAll`, `Identify`, `Resolve`). The lemmas about those functions give
  freshness, "nothing else changes", the reindex fixpoint and idempotence, and
  the save/get round trip.

Parameters stand in for the environment:
- the YAML dumper and loader are the functions `dump` and `decode`, where
  `decode` returns None on a load failure;
- SHA-1 is an uninterpreted function `hash` of the bytes;
- `uuid4()` is a `freshId` argument that is not in use;
- `os.listdir` is a `listing` argument;
- the rows a `select` returns are a `matched` argument.

Two behaviours of the code that the model keeps:
- A file the YAML loader rejects raises out of `get`, `all`, `first` and
  `reindex`. Nothing skips it.
- A `Collection.reindex` pass that raises keeps every row it rebuilt before
  the failing file. `_try_reindex_file` calls `_update_index_for` without a
  cursor, so each rebuilt row is written and committed on a connection of
  its own.

## Model

| member | source | states |
|---|---|---|
| Stringifier.Stringify | yamldb.py:16-23 | None stays None; every other value becomes text |
| Stringifier.Fixed | yamldb.py:20 | the fixed-width digit text has exactly w characters, all decimal digits |
| Stringifier.StringifyIntIsFixed | yamldb.py:19-20 | for 0 <= n < 10^16, `%016d` is exactly the 16 low digits of n, zero-filled |
| Stringifier.StringifyIntOrdered | yamldb.py:19-20 | for 0 <= a < b < 10^16, both texts are 16 decimal digits and text order agrees with numeric order |
| Stringifier.StringifyIntRoundTrip | yamldb.py:19-20 | reading the 16 digits back as a decimal number gives the integer again |
| Stringifier.ClockOrdered | yamldb.py:21-22 | the `HH:MM:SSZ` part is ordered by hour, then minute, then second |
| Stringifier.StringifyTimeOrdered | yamldb.py:21-22 | for valid datetimes, an earlier datetime gives a lexicographically smaller `YYYY-MM-DDTHH:MM:SSZ` text |
| Expressions.ToSql | yamldb.py:228-303 | the parameter list is the binding of the literal leaves in left-to-right order (stringified exactly when the literal's flag says so) |
| Expressions.BindAllAt | yamldb.py:248-252 | the k-th bound value is the binding of the k-th literal leaf |
| Expressions.PlaceholderCount | yamldb.py:234-303 | when no column name contains `?`, a compiled fragment holds exactly one `?` per parameter |
| Expressions.BindingMatchesInline | yamldb.py:286-293 | binding the parameters positionally into the fragment equals compiling with every literal inlined in place; operands keep left-then-right order |
| Expressions.MakeOp | yamldb.py:166-169 | gives an operator node. A raw right-hand value binds one parameter after the left operand's, stringified exactly when the left operand is a column reference, and stands as `?` in the text. An expression operand is used as it is, its parameters after the left operand's |
| Expressions.Eq | yamldb.py:177-180 | gives a null test exactly when the right side is a raw None, and an operator node otherwise; the null test compiles to the operand's fragment followed by ` is null`, with the operand's parameters |
| Expressions.Ne | yamldb.py:182-185 | gives a not-null test exactly when the right side is a raw None, and an operator node otherwise; the test compiles to the operand's fragment followed by ` is not null`, with the operand's parameters |
| Expressions.FieldEqualsInt | yamldb.py:296-303 | `C.x == 5` compiles to `("x" = ?)` binding the text `0000000000000005` |
| Expressions.YearEqualsInt | example/test.py:15 | `C.pub_date.year == 2011` compiles to `(cast(strftime('%Y', "pub_date") as integer) = ?)` binding the raw integer 2011 |
| Expressions.ToSqlAsWritten | yamldb.py:228-303 | `to_sql` as the code stands yields a (sql, vars) pair exactly for expressions without a null test; for every other expression the result cannot be unpacked |
| Expressions.AsWrittenAgrees | yamldb.py:228-303 | for expressions without null tests, `to_sql` as written returns the same pair as the corrected compiler |
| Expressions.AsWrittenNullTestRaises | yamldb.py:255-266 | as written, a null test returns the correct text as a bare string, and unpacking it as (sql, vars) raises |
| Queries.Query.constructor | yamldb.py:75-82 | a new query has no filters, no order terms, no limit and no offset |
| Queries.Query.Filter | yamldb.py:84-88 | appends exactly one where fragment and its parameters; nothing else changes |
| Queries.Query.OrderBy | yamldb.py:90-94 | appends exactly one order fragment and its parameters; nothing else changes |
| Queries.Query.Limit | yamldb.py:96-100 | a raw value becomes a literal that binds the value unstringified |
| Queries.Query.Offset | yamldb.py:102-106 | a raw value becomes a literal that binds the value unstringified |
| Queries.Query.MakeSelect | yamldb.py:108-124 | where fragments joined with ` and `; order defaults to `_id`; parameters are where, order, limit, then offset; the offset appears only with a limit; with clean names, one placeholder per parameter |
| Queries.Query.CleanHead | yamldb.py:108-115 | the statement head holds exactly as many placeholders as the where and order parameters |
| Queries.PlaceholdersHead | yamldb.py:109-114 | the fixed words of the statement head add no placeholders |
| Queries.PlaceholdersJoin | yamldb.py:112-113 | joining fragments with a separator that has no `?` adds no placeholders |
| Queries.SqlsAligned | yamldb.py:84-94 | across the accumulated filter or order terms, placeholders and parameters stay aligned |
| Queries.Query.All | yamldb.py:144-151 | the result is the documents of the matched ids resolved in order (`ResolveAll`) |
| Queries.ResolveAllIds | yamldb.py:144-151 | a successful `all()` returns one document per matched id that still has a file, in match order, each carrying its id; stale ids are skipped |
| Queries.ResolveAllFails | yamldb.py:434-441 | `all()` raises exactly when some matched file exists but cannot be loaded |
| Queries.ResolveAllStopsAtError | yamldb.py:146-150 | the first load failure ends the whole `all()` call with that error |
| Queries.Query.First | yamldb.py:138-142 | no match gives None; otherwise only the first matched id is resolved, and a stale first id gives None |
| Store.Resolve | yamldb.py:434-441 | `get` (which `Collection.Get` is): None exactly when there is no file; a load error exactly when the file exists and does not load; otherwise the loaded fields with `_id` set to the id |
| Store.IndexColumns | yamldb.py:357 | the index columns contain `_id` and every requested field, nothing else, each once |
| Store.Collection.constructor | yamldb.py:354-358 | the collection's index list is `IndexColumns` of the requested fields; an existing table's rows are kept |
| Store.Collection.UpdateIndexFor | yamldb.py:410-432 | afterwards the table holds exactly one row for the document's id, `[stringify(doc.get(f)) for f in indexes]` plus the hash; all other rows are unchanged |
| Store.ReindexFileEffect | yamldb.py:399-408 | after reindexing one file, its row is fresh and no other row changes; it fails exactly when the row was stale and the file cannot be loaded |
| Store.ReindexFileRebuildsStale | yamldb.py:403-408 | a stale or missing row is replaced by the loaded document's row carrying the file's hash |
| Store.Collection.TryReindexFile | yamldb.py:399-408 | the new table is `ReindexFile` of the old one; a failure leaves it unchanged |
| Store.ReindexKeepsFresh | yamldb.py:379-383 | a reindex pass, whether it completes or raises, never spoils a row that is already fresh |
| Store.ReindexFreshens | yamldb.py:376-383 | a pass handles the listed files up to the first failure and leaves every handled file fresh; it raises exactly at a file that is stale and does not load, with that file's error; the rows of unlisted ids are untouched |
| Store.ReindexKeepsRowsBeforeFailure | yamldb.py:379-383 | a pass over a stale file that loads and then a file that does not raises on the second, and the first file's rebuilt row stays |
| Store.ReindexFixpoint | yamldb.py:400-404 | when every listed row is fresh, a pass completes and changes nothing |
| Store.ReindexStopsAt | yamldb.py:379-383 | when the files before the n-th are fresh and the n-th fails, the pass changes nothing and raises that error at the n-th file |
| Store.ReindexIdempotent | yamldb.py:376-408 | a second reindex with no intervening writes returns the same table, stopping point and error as the first, whether the first completed or raised |
| Store.Collection.Reindex | yamldb.py:376-383 | the new table and the error are those of `ReindexAll` on the old table, so rows rebuilt before a failure stay; on success every file has a fresh row |
| Store.Identify | yamldb.py:447-449 | `save` keeps a text `_id`, assigns the fresh id only when `_id` is absent or None, refuses any other `_id`, and changes no other field |
| Store.Collection.Save | yamldb.py:443-458 | the file for the id holds the dumped bytes, and the id's row is rebuilt with the hash of exactly those bytes; other files and rows are unchanged |
| Store.SaveKeepsConsistent | yamldb.py:450-457 | after a save the saved id's row is fresh, and a collection whose rows were all fresh stays so |
| Store.SaveThenReindexFile | yamldb.py:457 | reindexing a file right after `save` finds nothing to do |
| Store.SaveThenGet | yamldb.py:434-458 | with a codec that round-trips the document, `get` after `save` returns the saved document |
| Store.Database.constructor | yamldb.py:318-320 | a new database has no collections |
| Store.Database.DeclareCollection | yamldb.py:342-347 | an already-declared name is refused with the registry unchanged; otherwise exactly that name is added, bound to a new collection |

## Findings

| source | as written | input that shows it | evidently intended | confidence | as-written member | corrected member |
|---|---|---|---|---|---|---|
| yamldb.py:261-266 | `_IsNull.to_sql` returns only the text, with no parameter list | `query.filter(C.x == None)`: unpacking the text `"x" is null` into `sql, vars` raises, and so does any node around a null test | return the operand's parameters with the text, as `_Neg` and `_Extract` do | high; not executed | Expressions.AsWrittenNullTestRaises | Expressions.ToSql |

The query builder and every lemma about it use the corrected `ToSql`.

## Left out

- YAML codec: `OrderedLoader`, `OrderedDumper`, `yaml.load` and `yaml.dump` are the parameters `decode` and `dump`. Documents are maps, so the field-order normalisation in `save` is invisible here; it only affects the dumped bytes.
- SHA-1 and file streaming (`get_file_hash`, `hashlib.sha1`) are one uninterpreted function `hash` of the bytes.
- SQLite: connections, cursors, `_ensure_indexes`, commits and statement execution are not modelled. The table is a map keyed by id, so at most one row per id.
- `_find_as_cursor`: the ids a statement returns are a parameter. Nothing relates them to the where and order fragments. The `print` in it is output only.
- `Database.reindex`: its loop over the collections and its per-collection commit are not modelled. Its own connection only reads hashes, so closing it after a failure undoes nothing; the rows already rebuilt stay, as `Collection.Reindex` states.
- `os.makedirs`, `os.path.exists`, `os.path.isfile` and `os.listdir` are not modelled. The content store holds only the `.yml` files, keyed by the name without the extension, and `listing` is the order `os.listdir` gives.
- `weakref` from Collection to Database: the collection keeps copies of the codec functions instead. Two collection objects over the same directory, from two databases, each hold their own copy of the store. Aliasing through the file system is not modelled.
- Store.Collection.Save: a save either fails before any write (an `_id` that is not text) or writes the file and rebuilds the row. Two failures between those points are not modelled. First, `open(fn, 'w')` truncates the file before `yaml.dump` runs, so a dump that raises leaves an empty file, which then fails to load, beside the old row. Second, `_update_index_for` can raise after the file is written, leaving the new file with the old row; one cause is Python 2's `unicode()` of a non-ASCII byte string in an indexed field. In the model `dump` is total and `Stringify` never fails. Both failures leave a stale row, which is what `reindex` repairs (`ReindexFileRebuildsStale`), or a file that does not load (`ReindexFreshens`).
- `uuid.uuid4` is the `freshId` argument, which must not already name a file.
- `Collection.delete` is broken and not modelled. It builds the file name from the builtin `id` instead of its argument. It deletes on a column `id` that does not exist, in an unquoted table.
- Store.IndexColumns: `list(set(['_id']) | set(indexes))` yields the columns in the set's iteration order. The model puts `_id` first, then the requested fields in the order first given; that order is the model's choice. No contract depends on it.
- `get_collection` and the `query` property are plain lookups. They are not modelled separately; `Query.constructor` stands for `query`.
- Stringifier.Stringify: the `unicode(value)` fallback for floats, nested values and other kinds is the `Other(repr)` value, which carries its text. Python's formatting of those kinds is not modelled.
- Stringifier.StringifyIntOrdered: stated only for 0 <= n < 10^16. Negative and longer integers are formatted as `%016d` formats them, but they are not ordered by it.
- Stringifier.Stringify: Python 2's `strftime` raises for years before 1900. The model formats every valid year as four digits. Microseconds and time zones are not part of the datetime value.
- SQLite's evaluation of `strftime`/`cast` is not modelled. As written, the `date` part casts `YYYY-MM-DD` to an integer. SQLite reads only the leading year from that text.
- Queries.Query.MakeSelect: with no filter, the text as written contains `where  order by`, which SQLite rejects. The model produces that text faithfully. SQL syntax is not modelled.
- Column names containing `"` or `?` are not escaped by the source. The alignment results assume names without `?`.

/**
 * The query builder (`Query`): filters and order terms accumulated as
 * compiled fragments, `limit`/`offset`, the `select` statement built from
 * them, and `all`/`first`, which resolve the ids the statement returns.
 */
module Queries {
  import opened Values
  import opened Expressions
  import opened Store

  /** The fragment texts of a list of expressions, in order. */
  function Sqls(es: seq<Expr>): (r: seq<string>)
    ensures |r| == |es|
  {
    if es == [] then [] else Sqls(es[..|es| - 1]) + [ToSql(es[|es| - 1]).sql]
  }

  /** The parameters of a list of expressions, concatenated in order. */
  function Params(es: seq<Expr>): seq<Value> {
    if es == [] then [] else Params(es[..|es| - 1]) + ToSql(es[|es| - 1]).params
  }

  lemma AppendTerm(es: seq<Expr>, e: Expr)
    ensures Sqls(es + [e]) == Sqls(es) + [ToSql(e).sql]
    ensures Params(es + [e]) == Params(es) + ToSql(e).params
  {
    assert (es + [e])[..|es|] == es;
  }

  /**
   * `'select %s from "%s" where %s order by %s'`: the columns (`*` when
   * none are given), the table, the where fragments joined with ` and `,
   * and the order terms (`_id` when none are given).
   */
  function SelectHead(columns: seq<string>, table: string, whereSql: seq<string>, orderSql: seq<string>): string {
    "select " + Join(", ", if columns == [] then ["*"] else columns)
    + " from \"" + table + "\" where " + Join(" and ", whereSql)
    + " order by " + Join(", ", if orderSql == [] then ["_id"] else orderSql)
  }

  /** Placeholders of a text assembled from five plain pieces and three others, as `SelectHead` builds it. */
  lemma PlaceholdersPieces(p1: string, c: string, p2: string, t: string, p3: string, w: string, p4: string, o: string)
    requires '?' !in p1 && '?' !in p2 && '?' !in t && '?' !in p3 && '?' !in p4
    ensures Placeholders(p1 + c + p2 + t + p3 + w + p4 + o) == Placeholders(c) + Placeholders(w) + Placeholders(o)
  {
    NoPlaceholder(p1);
    NoPlaceholder(p2);
    NoPlaceholder(t);
    NoPlaceholder(p3);
    NoPlaceholder(p4);
    PlaceholdersConcat(p1, c);
    PlaceholdersConcat(p1 + c, p2);
    PlaceholdersConcat(p1 + c + p2, t);
    PlaceholdersConcat(p1 + c + p2 + t, p3);
    PlaceholdersConcat(p1 + c + p2 + t + p3, w);
    PlaceholdersConcat(p1 + c + p2 + t + p3 + w, p4);
    PlaceholdersConcat(p1 + c + p2 + t + p3 + w + p4, o);
  }

  lemma PlaceholdersHead(columns: seq<string>, table: string, whereSql: seq<string>, orderSql: seq<string>)
    requires '?' !in table
    ensures Placeholders(SelectHead(columns, table, whereSql, orderSql))
         == Placeholders(Join(", ", if columns == [] then ["*"] else columns))
          + Placeholders(Join(" and ", whereSql))
          + Placeholders(Join(", ", if orderSql == [] then ["_id"] else orderSql))
  {
    PlaceholdersPieces("select ", Join(", ", if columns == [] then ["*"] else columns), " from \"", table,
                       "\" where ", Join(" and ", whereSql),
                       " order by ", Join(", ", if orderSql == [] then ["_id"] else orderSql));
  }

  /** The column list: `*` or the given names, none of which holds a `?`. */
  lemma ColumnsPlaceholders(columns: seq<string>)
    requires forall k :: 0 <= k < |columns| ==> '?' !in columns[k]
    ensures Placeholders(Join(", ", if columns == [] then ["*"] else columns)) == 0
  {
    var cols := if columns == [] then ["*"] else columns;
    PlaceholdersJoin(", ", cols);
    ColumnsClean(cols);
  }

  /** The order list: `_id` when there are no order terms, which adds no placeholder. */
  lemma OrderPlaceholders(orderSql: seq<string>)
    ensures Placeholders(Join(", ", if orderSql == [] then ["_id"] else orderSql)) == SumPlaceholders(orderSql)
  {
    if orderSql == [] {
      assert Join(", ", ["_id"]) == "_id";
      NoPlaceholder("_id");
    } else {
      PlaceholdersJoin(", ", orderSql);
    }
  }

  lemma {:induction false} ColumnsClean(cols: seq<string>)
    requires forall k :: 0 <= k < |cols| ==> '?' !in cols[k]
    ensures SumPlaceholders(cols) == 0
    decreases |cols|
  {
    if cols != [] {
      ColumnsClean(cols[..|cols| - 1]);
      NoPlaceholder(cols[|cols| - 1]);
    }
  }

  /** `sep.join(parts)`. */
  function Join(sep: string, parts: seq<string>): string {
    if parts == [] then ""
    else if |parts| == 1 then parts[0]
    else Join(sep, parts[..|parts| - 1]) + sep + parts[|parts| - 1]
  }

  function SumPlaceholders(parts: seq<string>): nat {
    if parts == [] then 0 else SumPlaceholders(parts[..|parts| - 1]) + Placeholders(parts[|parts| - 1])
  }

  predicate AllClean(es: seq<Expr>) {
    forall k :: 0 <= k < |es| ==> NamesClean(es[k])
  }

  lemma {:induction false} PlaceholdersJoin(sep: string, parts: seq<string>)
    requires '?' !in sep
    ensures Placeholders(Join(sep, parts)) == SumPlaceholders(parts)
    decreases |parts|
  {
    if parts == [] {
    } else if |parts| == 1 {
      assert parts[..0] == [];
    } else {
      var init := parts[..|parts| - 1];
      PlaceholdersJoin(sep, init);
      PlaceholdersConcat(Join(sep, init) + sep, parts[|parts| - 1]);
      PlaceholdersConcat(Join(sep, init), sep);
      NoPlaceholder(sep);
    }
  }

  /** Across a list of compiled terms, placeholders and parameters stay aligned. */
  lemma {:induction false} SqlsAligned(es: seq<Expr>)
    requires AllClean(es)
    ensures SumPlaceholders(Sqls(es)) == |Params(es)|
    decreases |es|
  {
    if es != [] {
      var init := es[..|es| - 1];
      SqlsAligned(init);
      PlaceholderCount(es[|es| - 1]);
      assert Sqls(es)[..|es| - 1] == Sqls(init);
    }
  }

  /** Resolve the matched ids one by one, skipping those with no file. */
  function ResolveAll(files: Files, decode: Bytes -> Option<Doc>, ids: seq<string>): Result<seq<Doc>> {
    if ids == [] then Ok([])
    else match ResolveAll(files, decode, ids[..|ids| - 1])
      case Err(e) => Err(e)
      case Ok(docs) =>
        match Resolve(files, decode, ids[|ids| - 1])
        case Err(e) => Err(e)
        case Ok(None) => Ok(docs)
        case Ok(Some(d)) => Ok(docs + [d])
  }

  /** The ids that still have a file, in their original order. */
  function Present(files: Files, ids: seq<string>): (r: seq<string>)
    ensures forall k :: 0 <= k < |r| ==> r[k] in files
  {
    if ids == [] then []
    else Present(files, ids[..|ids| - 1]) + (if ids[|ids| - 1] in files then [ids[|ids| - 1]] else [])
  }

  /**
   * `all()` returns one document per matched id that still has a file, in
   * the order of the matches, each carrying its id; ids whose file is gone
   * are skipped.
   */
  lemma {:induction false} ResolveAllIds(files: Files, decode: Bytes -> Option<Doc>, ids: seq<string>)
    requires ResolveAll(files, decode, ids).Ok?
    ensures var docs := ResolveAll(files, decode, ids).value;
      && |docs| == |Present(files, ids)|
      && forall k :: 0 <= k < |docs| ==> "_id" in docs[k] && docs[k]["_id"] == Text(Present(files, ids)[k])
    decreases |ids|
  {
    if ids != [] {
      ResolveAllIds(files, decode, ids[..|ids| - 1]);
    }
  }

  /** `all()` raises exactly when some matched file is there but cannot be loaded. */
  lemma {:induction false} ResolveAllFails(files: Files, decode: Bytes -> Option<Doc>, ids: seq<string>)
    ensures ResolveAll(files, decode, ids).Err? <==>
      exists k :: 0 <= k < |ids| && ids[k] in files && decode(files[ids[k]]).None?
    decreases |ids|
  {
    if ids != [] {
      var init := ids[..|ids| - 1];
      ResolveAllFails(files, decode, init);
      if exists k :: 0 <= k < |init| && init[k] in files && decode(files[init[k]]).None? {
        var k :| 0 <= k < |init| && init[k] in files && decode(files[init[k]]).None?;
        assert ids[k] == init[k];
      }
      if exists k :: 0 <= k < |ids| && ids[k] in files && decode(files[ids[k]]).None? {
        var k :| 0 <= k < |ids| && ids[k] in files && decode(files[ids[k]]).None?;
        if k < |init| { assert init[k] == ids[k]; }
      }
    }
  }

  /** The state of one `Query` object. */
  class Query {
    const collection: Collection
    var whereSql: seq<string>
    var whereVars: seq<Value>
    var orderSql: seq<string>
    var orderVars: seq<Value>
    var limit: Option<Expr>
    var offset: Option<Expr>
    /** The expressions passed to `filter` and `order_by` so far. */
    ghost var filters: seq<Expr>
    ghost var orders: seq<Expr>

    ghost predicate Valid()
      reads this
    {
      && whereSql == Sqls(filters) && whereVars == Params(filters)
      && orderSql == Sqls(orders) && orderVars == Params(orders)
    }

    /** No column name, table name or selected column contains a `?`. */
    ghost predicate Clean(columns: seq<string>)
      reads this
    {
      && AllClean(filters) && AllClean(orders)
      && (limit.Some? ==> NamesClean(limit.value))
      && (offset.Some? ==> NamesClean(offset.value))
      && '?' !in collection.name
      && (forall k :: 0 <= k < |columns| ==> '?' !in columns[k])
    }

    /** `collection.query`: an empty query. */
    constructor (collection: Collection)
      ensures Valid() && this.collection == collection
      ensures filters == [] && orders == [] && limit == None && offset == None
    {
      this.collection := collection;
      whereSql, whereVars, orderSql, orderVars := [], [], [], [];
      limit, offset := None, None;
      filters, orders := [], [];
    }

    /** `filter(expr)`: appends exactly one where fragment and its parameters. */
    method Filter(e: Expr)
      requires Valid()
      modifies this
      ensures Valid()
      ensures filters == old(filters) + [e] && orders == old(orders)
      ensures whereSql == old(whereSql) + [ToSql(e).sql] && whereVars == old(whereVars) + ToSql(e).params
      ensures orderSql == old(orderSql) && orderVars == old(orderVars)
      ensures limit == old(limit) && offset == old(offset)
    {
      var f := ToSql(e);
      AppendTerm(filters, e);
      whereSql, whereVars, filters := whereSql + [f.sql], whereVars + f.params, filters + [e];
    }

    /** `order_by(expr)`: appends exactly one order fragment and its parameters. */
    method OrderBy(e: Expr)
      requires Valid()
      modifies this
      ensures Valid()
      ensures orders == old(orders) + [e] && filters == old(filters)
      ensures orderSql == old(orderSql) + [ToSql(e).sql] && orderVars == old(orderVars) + ToSql(e).params
      ensures whereSql == old(whereSql) && whereVars == old(whereVars)
      ensures limit == old(limit) && offset == old(offset)
    {
      var f := ToSql(e);
      AppendTerm(orders, e);
      orderSql, orderVars, orders := orderSql + [f.sql], orderVars + f.params, orders + [e];
    }

    /** `limit(value)`: a raw value becomes a literal that is never stringified. */
    method Limit(value: Operand)
      requires Valid()
      modifies this`limit
      ensures Valid()
      ensures limit == Some(if value.Raw? then Literal(value.v, false) else value.e)
      ensures value.Raw? ==> ToSql(limit.value) == Fragment("?", [value.v])
    {
      limit := Some(if value.Raw? then Literal(value.v, false) else value.e);
    }

    /** `offset(value)`: a raw value becomes a literal that is never stringified. */
    method Offset(value: Operand)
      requires Valid()
      modifies this`offset
      ensures Valid()
      ensures offset == Some(if value.Raw? then Literal(value.v, false) else value.e)
      ensures value.Raw? ==> ToSql(offset.value) == Fragment("?", [value.v])
    {
      offset := Some(if value.Raw? then Literal(value.v, false) else value.e);
    }

    /**
     * `_make_select(columns)`. The where fragments are joined with ` and `,
     * the order terms default to `_id`, and the parameters come as where,
     * order, limit, offset; an offset without a limit is dropped. When no
     * name holds a `?`, the statement has one placeholder per parameter.
     */
    method MakeSelect(columns: seq<string>) returns (sql: string, vars: seq<Value>)
      requires Valid()
      ensures limit.None? ==> sql == SelectHead(columns, collection.name, whereSql, orderSql)
      ensures limit.Some? && offset.None? ==>
        sql == SelectHead(columns, collection.name, whereSql, orderSql) + " limit " + ToSql(limit.value).sql
      ensures limit.Some? && offset.Some? ==>
        sql == SelectHead(columns, collection.name, whereSql, orderSql)
               + " limit " + ToSql(limit.value).sql + " offset " + ToSql(offset.value).sql
      ensures limit.None? ==> vars == whereVars + orderVars
      ensures limit.Some? && offset.None? ==> vars == whereVars + orderVars + ToSql(limit.value).params
      ensures limit.Some? && offset.Some? ==>
        vars == whereVars + orderVars + ToSql(limit.value).params + ToSql(offset.value).params
      ensures Clean(columns) ==> Placeholders(sql) == |vars|
    {
      sql := SelectHead(columns, collection.name, whereSql, orderSql);
      vars := whereVars + orderVars;
      ghost var clean := Clean(columns);
      if clean {
        CleanHead(columns);
      }
      if limit.Some? {
        var l := ToSql(limit.value);
        if clean { PlaceholderCount(limit.value); AppendClause(sql, " limit ", l.sql); }
        sql := sql + " limit " + l.sql;
        vars := vars + l.params;
        if offset.Some? {
          var o := ToSql(offset.value);
          if clean { PlaceholderCount(offset.value); AppendClause(sql, " offset ", o.sql); }
          sql := sql + " offset " + o.sql;
          vars := vars + o.params;
        }
      }
    }

    lemma AppendClause(sql: string, keyword: string, clause: string)
      requires '?' !in keyword
      ensures Placeholders(sql + keyword + clause) == Placeholders(sql) + Placeholders(clause)
    {
      PlaceholdersConcat(sql + keyword, clause);
      PlaceholdersConcat(sql, keyword);
      NoPlaceholder(keyword);
    }

    /** The head of the statement holds exactly the where and order placeholders. */
    lemma CleanHead(columns: seq<string>)
      requires Valid() && Clean(columns)
      ensures Placeholders(SelectHead(columns, collection.name, whereSql, orderSql)) == |whereVars + orderVars|
    {
      PlaceholdersHead(columns, collection.name, whereSql, orderSql);
      ColumnsPlaceholders(columns);
      PlaceholdersJoin(" and ", whereSql);
      SqlsAligned(filters);
      OrderPlaceholders(orderSql);
      SqlsAligned(orders);
    }

    /**
     * `all()`: `matched` is the list of ids the statement returned, in
     * order. Each is resolved through the collection; ids with no file are
     * skipped, and a file that cannot be loaded raises.
     */
    method All(matched: seq<string>) returns (r: Result<seq<Doc>>)
      ensures r == ResolveAll(collection.files, collection.decode, matched)
    {
      var result: seq<Doc> := [];
      for i := 0 to |matched|
        invariant ResolveAll(collection.files, collection.decode, matched[..i]) == Ok(result)
      {
        assert matched[..i + 1][..i] == matched[..i];
        var rv := collection.Get(matched[i]);
        match rv
        case Err(e) =>
          ResolveAllStopsAtError(collection.files, collection.decode, matched, i + 1);
          return Err(e);
        case Ok(None) =>
        case Ok(Some(d)) =>
          result := result + [d];
      }
      assert matched[..|matched|] == matched;
      return Ok(result);
    }

    /**
     * `first()`: only the first matched id is resolved; when its file is
     * gone the answer is None, even if later ids would resolve.
     */
    method First(matched: seq<string>) returns (r: Result<Option<Doc>>)
      ensures matched == [] ==> r == Ok(None)
      ensures matched != [] ==> r == Resolve(collection.files, collection.decode, matched[0])
    {
      if matched == [] {
        return Ok(None);
      }
      r := collection.Get(matched[0]);
    }
  }

  /** Once resolving a prefix has raised, resolving the whole list raises the same error. */
  lemma {:induction false} ResolveAllStopsAtError(files: Files, decode: Bytes -> Option<Doc>, ids: seq<string>, n: nat)
    requires n <= |ids| && ResolveAll(files, decode, ids[..n]).Err?
    ensures ResolveAll(files, decode, ids) == ResolveAll(files, decode, ids[..n])
    decreases |ids| - n
  {
    if n < |ids| {
      assert ids[..n + 1][..n] == ids[..n];
      ResolveAllStopsAtError(files, decode, ids, n + 1);
    } else {
      assert ids[..n] == ids;
    }
  }
}

/**
 * Query expressions (`_QueryExpression` and its subclasses) and their
 * compilation to a parameterised SQL fragment plus the values to bind.
 * Operator overloading and the `C` field accessor become builder functions.
 */
module Expressions {
  import opened Values
  import opened Stringifier

  datatype BinOp = OpAnd | OpOr | OpEq | OpNe | OpGt | OpGe | OpLt | OpLe

  function OpText(op: BinOp): string {
    match op
    case OpAnd => "and"
    case OpOr => "or"
    case OpEq => "="
    case OpNe => "<>"
    case OpGt => ">"
    case OpGe => ">="
    case OpLt => "<"
    case OpLe => "<="
  }

  /** The date-part properties and the strftime format each one uses. */
  datatype DatePart = Year | Month | Day | Date | Hour | Minute | Second

  function FormatText(p: DatePart): string {
    match p
    case Year => "%Y"
    case Month => "%m"
    case Day => "%d"
    case Date => "%Y-%m-%d"
    case Hour => "%H"
    case Minute => "%M"
    case Second => "%S"
  }

  datatype Expr =
    | Name(name: string)                      // _Name: a column reference
    | Literal(value: Value, stringify: bool)  // _Literal
    | Op(left: Expr, right: Expr, op: BinOp)  // _Op
    | IsNull(expr: Expr, isNull: bool)        // _IsNull
    | Neg(expr: Expr)                         // _Neg: descending order
    | Extract(expr: Expr, part: DatePart)     // _Extract

  /** The right-hand side of an operator: an expression, or a raw Python value. */
  datatype Operand = Expression(e: Expr) | Raw(v: Value)

  /** A compiled fragment: SQL text and the values bound to its placeholders. */
  datatype Fragment = Fragment(sql: string, params: seq<Value>)

  // ---------------------------------------------------------------
  // Builders (operator overloading and `C.<name>`)
  // ---------------------------------------------------------------

  /** `C.<name>`: a reference to the column of that name. */
  function Field(name: string): Expr {
    Name(name)
  }

  /**
   * `_make_op`: a raw right-hand value is wrapped in a literal that is
   * stringified exactly when the left operand is a column reference
   * (`stringify_literal` is set on `_Name` only).
   */
  function MakeOp(self: Expr, other: Operand, op: BinOp): (r: Expr)
    ensures r.Op? && r.left == self && r.op == op
    ensures ToSql(r).params == ToSql(self).params +
      (match other
       case Expression(e) => ToSql(e).params
       case Raw(v) => [if self.Name? then Stringify(v) else v])
    ensures ToSql(r).sql == OpSql(ToSql(self).sql, op,
      (match other
       case Expression(e) => ToSql(e).sql
       case Raw(_) => "?"))
  {
    match other
    case Expression(e) => Op(self, e, op)
    case Raw(v) => Op(self, Literal(v, self.Name?), op)
  }

  function And(self: Expr, other: Operand): Expr { MakeOp(self, other, OpAnd) }
  function Or(self: Expr, other: Operand): Expr { MakeOp(self, other, OpOr) }

  /**
   * `==`: comparing with a raw None gives a null test instead of `=`; the
   * test compiles to the operand's fragment followed by `is null`.
   */
  function Eq(self: Expr, other: Operand): (r: Expr)
    ensures r.IsNull? <==> other == Raw(Null)
    ensures r.IsNull? || r.Op?
    ensures other == Raw(Null) ==> ToSql(r) == Fragment(ToSql(self).sql + " is null", ToSql(self).params)
  {
    assert " " + NullTestText(true) == " is null";
    if other == Raw(Null) then IsNull(self, true) else MakeOp(self, other, OpEq)
  }

  /**
   * `!=`: comparing with a raw None gives a not-null test instead of `<>`;
   * the test compiles to the operand's fragment followed by `is not null`.
   */
  function Ne(self: Expr, other: Operand): (r: Expr)
    ensures r.IsNull? <==> other == Raw(Null)
    ensures r.IsNull? || r.Op?
    ensures other == Raw(Null) ==> ToSql(r) == Fragment(ToSql(self).sql + " is not null", ToSql(self).params)
  {
    assert " " + NullTestText(false) == " is not null";
    if other == Raw(Null) then IsNull(self, false) else MakeOp(self, other, OpNe)
  }

  function Gt(self: Expr, other: Operand): Expr { MakeOp(self, other, OpGt) }
  function Ge(self: Expr, other: Operand): Expr { MakeOp(self, other, OpGe) }
  function Lt(self: Expr, other: Operand): Expr { MakeOp(self, other, OpLt) }
  function Le(self: Expr, other: Operand): Expr { MakeOp(self, other, OpLe) }

  /** Unary minus marks an ordering term as descending; unary plus is the identity. */
  function Desc(self: Expr): Expr { Neg(self) }
  function Pos(self: Expr): Expr { self }

  function YearOf(self: Expr): Expr { Extract(self, Year) }
  function MonthOf(self: Expr): Expr { Extract(self, Month) }
  function DayOf(self: Expr): Expr { Extract(self, Day) }
  function DateOf(self: Expr): Expr { Extract(self, Date) }
  function HourOf(self: Expr): Expr { Extract(self, Hour) }
  function MinuteOf(self: Expr): Expr { Extract(self, Minute) }
  function SecondOf(self: Expr): Expr { Extract(self, Second) }

  // ---------------------------------------------------------------
  // Compilation
  // ---------------------------------------------------------------

  /** The value a literal binds: stringified or raw, as its flag says. */
  function Bind(value: Value, stringify: bool): Value {
    if stringify then Stringify(value) else value
  }

  /** The literal leaves of an expression, left to right. */
  function Leaves(e: Expr): seq<(Value, bool)> {
    match e
    case Name(_) => []
    case Literal(v, s) => [(v, s)]
    case Op(l, r, _) => Leaves(l) + Leaves(r)
    case IsNull(x, _) => Leaves(x)
    case Neg(x) => Leaves(x)
    case Extract(x, _) => Leaves(x)
  }

  /** The values a sequence of literal leaves binds, in order. */
  function BindAll(leaves: seq<(Value, bool)>): (r: seq<Value>)
    ensures |r| == |leaves|
  {
    if leaves == [] then [] else [Bind(leaves[0].0, leaves[0].1)] + BindAll(leaves[1..])
  }

  lemma {:induction false} BindAllConcat(x: seq<(Value, bool)>, y: seq<(Value, bool)>)
    ensures BindAll(x + y) == BindAll(x) + BindAll(y)
    decreases |x|
  {
    if x == [] {
      assert x + y == y;
    } else {
      assert (x + y)[0] == x[0] && (x + y)[1..] == x[1..] + y;
      BindAllConcat(x[1..], y);
    }
  }

  /** The k-th parameter is the binding of the k-th literal leaf from the left. */
  lemma {:induction false} BindAllAt(leaves: seq<(Value, bool)>, k: nat)
    requires k < |leaves|
    ensures BindAll(leaves)[k] == Bind(leaves[k].0, leaves[k].1)
    decreases k
  {
    if k > 0 {
      BindAllAt(leaves[1..], k - 1);
    }
  }

  function NullTestText(isNull: bool): string {
    if isNull then "is null" else "is not null"
  }

  /** The operator with a space on each side. */
  function OpMid(op: BinOp): (m: string)
    ensures '?' !in m
  {
    " " + OpText(op) + " "
  }

  function OpSql(a: string, op: BinOp, b: string): string {
    "(" + (a + (OpMid(op) + (b + ")")))
  }

  function NullTestSql(a: string, isNull: bool): string {
    a + " " + NullTestText(isNull)
  }

  function DescSql(a: string): string {
    a + " desc"
  }

  /** The text in front of the operand of an extraction. */
  function ExtractHead(p: DatePart): (h: string)
    ensures '?' !in h
  {
    "cast(strftime('" + FormatText(p) + "', "
  }

  function ExtractSql(p: DatePart, a: string): string {
    ExtractHead(p) + (a + ") as integer)")
  }

  /**
   * `to_sql`, with `_IsNull` passing its child's parameters on (see
   * ToSqlAsWritten for the code as it stands). The k-th bound parameter is
   * the binding of the k-th literal leaf from the left.
   */
  function ToSql(e: Expr): (f: Fragment)
    ensures f.params == BindAll(Leaves(e))
  {
    match e
    case Name(n) => Fragment("\"" + n + "\"", [])
    case Literal(v, s) => Fragment("?", [Bind(v, s)])
    case Op(l, r, op) =>
      var a := ToSql(l);
      var b := ToSql(r);
      BindAllConcat(Leaves(l), Leaves(r));
      Fragment(OpSql(a.sql, op, b.sql), a.params + b.params)
    case IsNull(x, isNull) =>
      var a := ToSql(x);
      Fragment(NullTestSql(a.sql, isNull), a.params)
    case Neg(x) =>
      var a := ToSql(x);
      Fragment(DescSql(a.sql), a.params)
    case Extract(x, p) =>
      var a := ToSql(x);
      Fragment(ExtractSql(p, a.sql), a.params)
  }

  // ---------------------------------------------------------------
  // Placeholder alignment
  // ---------------------------------------------------------------

  /** The number of `?` placeholders in a text. */
  function Placeholders(s: string): nat
    decreases |s|
  {
    if s == [] then 0 else (if s[0] == '?' then 1 else 0) + Placeholders(s[1..])
  }

  /** No column name contains a `?`. */
  predicate NamesClean(e: Expr) {
    match e
    case Name(n) => '?' !in n
    case Literal(_, _) => true
    case Op(l, r, _) => NamesClean(l) && NamesClean(r)
    case IsNull(x, _) => NamesClean(x)
    case Neg(x) => NamesClean(x)
    case Extract(x, _) => NamesClean(x)
  }

  lemma {:induction false} PlaceholdersConcat(a: string, b: string)
    ensures Placeholders(a + b) == Placeholders(a) + Placeholders(b)
    decreases |a|
  {
    if a == [] {
      assert a + b == b;
    } else {
      assert (a + b)[0] == a[0] && (a + b)[1..] == a[1..] + b;
      PlaceholdersConcat(a[1..], b);
    }
  }

  lemma {:induction false} NoPlaceholder(s: string)
    requires '?' !in s
    ensures Placeholders(s) == 0
    decreases |s|
  {
    if s != [] {
      NoPlaceholder(s[1..]);
    }
  }

  lemma PlaceholdersAround(pre: string, mid: string, post: string)
    requires '?' !in pre && '?' !in post
    ensures Placeholders(pre + mid + post) == Placeholders(mid)
  {
    PlaceholdersConcat(pre + mid, post);
    PlaceholdersConcat(pre, mid);
    NoPlaceholder(pre);
    NoPlaceholder(post);
  }

  lemma PlaceholdersOp(a: string, op: BinOp, b: string)
    ensures Placeholders(OpSql(a, op, b)) == Placeholders(a) + Placeholders(b)
  {
    var mid := OpMid(op);
    assert OpSql(a, op, b) == "(" + (a + mid + b) + ")";
    PlaceholdersAround("(", a + mid + b, ")");
    PlaceholdersAround("", a, mid);
    assert "" + a + mid == a + mid;
    PlaceholdersConcat(a + mid, b);
  }

  lemma PlaceholdersNullTest(a: string, isNull: bool)
    ensures Placeholders(NullTestSql(a, isNull)) == Placeholders(a)
  {
    assert NullTestSql(a, isNull) == "" + a + (" " + NullTestText(isNull));
    PlaceholdersAround("", a, " " + NullTestText(isNull));
  }

  lemma PlaceholdersDesc(a: string)
    ensures Placeholders(DescSql(a)) == Placeholders(a)
  {
    assert DescSql(a) == "" + a + " desc";
    PlaceholdersAround("", a, " desc");
  }

  lemma PlaceholdersExtract(p: DatePart, a: string)
    ensures Placeholders(ExtractSql(p, a)) == Placeholders(a)
  {
    assert ExtractSql(p, a) == ExtractHead(p) + a + ") as integer)";
    PlaceholdersAround(ExtractHead(p), a, ") as integer)");
  }

  /** The compiled text holds one placeholder per bound parameter. */
  lemma {:induction false} PlaceholderCount(e: Expr)
    requires NamesClean(e)
    ensures Placeholders(ToSql(e).sql) == |ToSql(e).params|
  {
    match e
    case Name(n) =>
      PlaceholdersAround("\"", n, "\"");
      NoPlaceholder(n);
    case Literal(_, _) =>
      assert Placeholders(['?']) == 1;
    case Op(l, r, op) =>
      PlaceholderCount(l);
      PlaceholderCount(r);
      PlaceholdersOp(ToSql(l).sql, op, ToSql(r).sql);
    case IsNull(x, b) =>
      PlaceholderCount(x);
      PlaceholdersNullTest(ToSql(x).sql, b);
    case Neg(x) =>
      PlaceholderCount(x);
      PlaceholdersDesc(ToSql(x).sql);
    case Extract(x, p) =>
      PlaceholderCount(x);
      PlaceholdersExtract(p, ToSql(x).sql);
  }

  /**
   * Positional binding: each `?`, left to right, is replaced by the
   * rendering of the next parameter.
   */
  function Substitute(sql: string, params: seq<Value>, render: Value -> string): string
    decreases |sql|
  {
    if sql == [] then []
    else if sql[0] == '?' && params != [] then render(params[0]) + Substitute(sql[1..], params[1..], render)
    else [sql[0]] + Substitute(sql[1..], params, render)
  }

  lemma {:induction false} SubstituteConcat(a: string, b: string, pa: seq<Value>, pb: seq<Value>, render: Value -> string)
    requires Placeholders(a) == |pa|
    ensures Substitute(a + b, pa + pb, render) == Substitute(a, pa, render) + Substitute(b, pb, render)
    decreases |a|
  {
    if a == [] {
      assert a + b == b;
      assert pa == [];
      assert pa + pb == pb;
    } else {
      assert (a + b)[0] == a[0] && (a + b)[1..] == a[1..] + b;
      if a[0] == '?' {
        assert (pa + pb)[0] == pa[0] && (pa + pb)[1..] == pa[1..] + pb;
        SubstituteConcat(a[1..], b, pa[1..], pb, render);
      } else {
        SubstituteConcat(a[1..], b, pa, pb, render);
      }
    }
  }

  /** A text without placeholders binds nothing and is left as it is. */
  lemma {:induction false} SubstitutePlain(a: string, render: Value -> string)
    requires '?' !in a
    ensures Substitute(a, [], render) == a
    decreases |a|
  {
    if a != [] {
      assert a == [a[0]] + a[1..];
      SubstitutePlain(a[1..], render);
    }
  }

  /** Rendering with a plain text in front: the text is copied, no parameter is taken. */
  lemma SubstituteAfterPlain(a: string, b: string, p: seq<Value>, render: Value -> string)
    requires '?' !in a
    ensures Substitute(a + b, p, render) == a + Substitute(b, p, render)
  {
    NoPlaceholder(a);
    assert [] + p == p;
    SubstituteConcat(a, b, [], p, render);
    SubstitutePlain(a, render);
  }

  /** The reference compiler: every literal's bound value rendered in place. */
  function Inline(e: Expr, render: Value -> string): string {
    match e
    case Name(n) => "\"" + n + "\""
    case Literal(v, s) => render(Bind(v, s))
    case Op(l, r, op) => OpSql(Inline(l, render), op, Inline(r, render))
    case IsNull(x, isNull) => NullTestSql(Inline(x, render), isNull)
    case Neg(x) => DescSql(Inline(x, render))
    case Extract(x, p) => ExtractSql(p, Inline(x, render))
  }

  lemma SubstituteBeforePlain(a: string, b: string, p: seq<Value>, render: Value -> string)
    requires '?' !in b && Placeholders(a) == |p|
    ensures Substitute(a + b, p, render) == Substitute(a, p, render) + b
  {
    assert p + [] == p;
    SubstituteConcat(a, b, p, [], render);
    SubstitutePlain(b, render);
  }

  lemma SubstituteInfix(a: string, mid: string, b: string, pa: seq<Value>, pb: seq<Value>, render: Value -> string)
    requires '?' !in mid && Placeholders(a) == |pa| && Placeholders(b) == |pb|
    ensures Substitute("(" + (a + (mid + (b + ")"))), pa + pb, render)
         == "(" + (Substitute(a, pa, render) + (mid + (Substitute(b, pb, render) + ")")))
  {
    SubstituteAfterPlain("(", a + (mid + (b + ")")), pa + pb, render);
    SubstituteConcat(a, mid + (b + ")"), pa, pb, render);
    SubstituteAfterPlain(mid, b + ")", pb, render);
    SubstituteBeforePlain(b, ")", pb, render);
  }

  lemma SubstituteOp(a: string, op: BinOp, b: string, pa: seq<Value>, pb: seq<Value>, render: Value -> string)
    requires Placeholders(a) == |pa| && Placeholders(b) == |pb|
    ensures Substitute(OpSql(a, op, b), pa + pb, render)
         == OpSql(Substitute(a, pa, render), op, Substitute(b, pb, render))
  {
    SubstituteInfix(a, OpMid(op), b, pa, pb, render);
  }

  lemma SubstituteNullTest(a: string, isNull: bool, p: seq<Value>, render: Value -> string)
    requires Placeholders(a) == |p|
    ensures Substitute(NullTestSql(a, isNull), p, render) == NullTestSql(Substitute(a, p, render), isNull)
  {
    assert NullTestSql(a, isNull) == a + (" " + NullTestText(isNull));
    SubstituteBeforePlain(a, " " + NullTestText(isNull), p, render);
  }

  lemma SubstituteDesc(a: string, p: seq<Value>, render: Value -> string)
    requires Placeholders(a) == |p|
    ensures Substitute(DescSql(a), p, render) == DescSql(Substitute(a, p, render))
  {
    SubstituteBeforePlain(a, " desc", p, render);
  }

  lemma SubstituteExtract(part: DatePart, a: string, p: seq<Value>, render: Value -> string)
    requires Placeholders(a) == |p|
    ensures Substitute(ExtractSql(part, a), p, render) == ExtractSql(part, Substitute(a, p, render))
  {
    SubstituteAfterPlain(ExtractHead(part), a + ") as integer)", p, render);
    SubstituteBeforePlain(a, ") as integer)", p, render);
  }

  /**
   * Placeholders and parameters are aligned: binding the parameters
   * positionally into the compiled text gives the same query as inlining
   * every literal where it stands.
   */
  lemma {:induction false} BindingMatchesInline(e: Expr, render: Value -> string)
    requires NamesClean(e)
    ensures Substitute(ToSql(e).sql, ToSql(e).params, render) == Inline(e, render)
  {
    match e
    case Name(n) =>
      SubstitutePlain("\"" + n + "\"", render);
    case Literal(v, s) =>
      assert Substitute([], [], render) == [];
      assert render(Bind(v, s)) + [] == render(Bind(v, s));
    case Op(l, r, op) =>
      BindingMatchesInline(l, render);
      BindingMatchesInline(r, render);
      PlaceholderCount(l);
      PlaceholderCount(r);
      SubstituteOp(ToSql(l).sql, op, ToSql(r).sql, ToSql(l).params, ToSql(r).params, render);
    case IsNull(x, isNull) =>
      BindingMatchesInline(x, render);
      PlaceholderCount(x);
      SubstituteNullTest(ToSql(x).sql, isNull, ToSql(x).params, render);
    case Neg(x) =>
      BindingMatchesInline(x, render);
      PlaceholderCount(x);
      SubstituteDesc(ToSql(x).sql, ToSql(x).params, render);
    case Extract(x, p) =>
      BindingMatchesInline(x, render);
      PlaceholderCount(x);
      SubstituteExtract(p, ToSql(x).sql, ToSql(x).params, render);
  }

  // ---------------------------------------------------------------
  // Properties of the builders
  // ---------------------------------------------------------------

  /** `C.x == 5` binds the 16-digit text of 5. */
  lemma FieldEqualsInt()
    ensures ToSql(Eq(Field("x"), Raw(Int(5)))) == Fragment("(" + "\"x\" = ?)", [Text("0000000000000005")])
  {
    assert Decimal(5) == "5";
    assert LeftPad("5", 16) == "0000000000000005";
  }

  lemma YearHead()
    ensures ExtractHead(Year) == "cast(strftime('%Y', "
  {
  }

  lemma PubDateYearText()
    ensures ExtractSql(Year, "\"pub_date\"") == "cast(strftime('%Y', \"pub_date\") as integer)"
  {
    YearHead();
    var tail := "\"pub_date\") as integer)";
    assert "\"pub_date\"" + ") as integer)" == tail;
  }

  /** `C.pub_date.year` compiles to the year extraction over the quoted column, binding nothing. */
  lemma YearOfPubDate()
    ensures ToSql(YearOf(Field("pub_date"))) == Fragment("cast(strftime('%Y', \"pub_date\") as integer)", [])
  {
    PubDateYearText();
  }

  /** `C.pub_date.year == 2011` binds the raw integer 2011. */
  lemma YearEqualsInt()
    ensures ToSql(Eq(YearOf(Field("pub_date")), Raw(Int(2011))))
         == Fragment("(" + "cast(strftime('%Y', \"pub_date\") as integer) = ?)", [Int(2011)])
  {
    var x := YearOf(Field("pub_date"));
    var year := "cast(strftime('%Y', \"pub_date\") as integer)";
    YearOfPubDate();
    assert Eq(x, Raw(Int(2011))) == MakeOp(x, Raw(Int(2011)), OpEq);
    assert OpMid(OpEq) == " = ";
    assert " = " + ("?" + ")") == " = ?)";
    assert year + " = ?)" == "cast(strftime('%Y', \"pub_date\") as integer) = ?)";
  }

  // ---------------------------------------------------------------
  // `to_sql` as written: `_IsNull` returns a bare string
  // ---------------------------------------------------------------

  /** What a `to_sql` call gives back: a (sql, vars) pair, a bare string, or an exception. */
  datatype Returned = Pair(fragment: Fragment) | Bare(text: string) | Raised

  /**
   * `sql, vars = r`: a pair unpacks; a string unpacks only when it has
   * exactly two characters; anything else raises.
   */
  function Unpack(r: Returned): Option<Fragment> {
    match r
    case Pair(f) => Some(f)
    case Bare(s) => if |s| == 2 then Some(Fragment([s[0]], [Text([s[1]])])) else None
    case Raised => None
  }

  /**
   * `to_sql` exactly as the code stands. It yields a pair exactly for the
   * expressions without a null test; for every other expression the result
   * cannot be unpacked as (sql, vars).
   */
  function ToSqlAsWritten(e: Expr): (r: Returned)
    ensures r.Pair? <==> NullTestFree(e)
    ensures Unpack(r).Some? <==> NullTestFree(e)
  {
    match e
    case Name(n) => Pair(Fragment("\"" + n + "\"", []))
    case Literal(v, s) => Pair(Fragment("?", [Bind(v, s)]))
    case Op(l, r, op) =>
      (match (Unpack(ToSqlAsWritten(l)), Unpack(ToSqlAsWritten(r)))
       case (Some(a), Some(b)) => Pair(Fragment(OpSql(a.sql, op, b.sql), a.params + b.params))
       case _ => Raised)
    case IsNull(x, isNull) =>
      (match Unpack(ToSqlAsWritten(x))
       case Some(a) => Bare(NullTestSql(a.sql, isNull))
       case None => Raised)
    case Neg(x) =>
      (match Unpack(ToSqlAsWritten(x))
       case Some(a) => Pair(Fragment(DescSql(a.sql), a.params))
       case None => Raised)
    case Extract(x, p) =>
      (match Unpack(ToSqlAsWritten(x))
       case Some(a) => Pair(Fragment(ExtractSql(p, a.sql), a.params))
       case None => Raised)
  }

  predicate NullTestFree(e: Expr) {
    match e
    case Name(_) => true
    case Literal(_, _) => true
    case Op(l, r, _) => NullTestFree(l) && NullTestFree(r)
    case IsNull(_, _) => false
    case Neg(x) => NullTestFree(x)
    case Extract(x, _) => NullTestFree(x)
  }

  /** Without null tests, the code as written and the corrected compiler agree. */
  lemma {:induction false} AsWrittenAgrees(e: Expr)
    requires NullTestFree(e)
    ensures ToSqlAsWritten(e) == Pair(ToSql(e))
  {
    match e
    case Name(_) =>
    case Literal(_, _) =>
    case Op(l, r, _) => AsWrittenAgrees(l); AsWrittenAgrees(r);
    case IsNull(_, _) =>
    case Neg(x) => AsWrittenAgrees(x);
    case Extract(x, _) => AsWrittenAgrees(x);
  }

  /**
   * As written, a null test over a null-test-free operand returns the right
   * text, but as a bare string that no caller can unpack: `filter`,
   * `order_by` and every enclosing node raise.
   */
  lemma {:induction false} AsWrittenNullTestRaises(x: Expr, isNull: bool)
    requires NullTestFree(x)
    ensures ToSqlAsWritten(IsNull(x, isNull)) == Bare(ToSql(IsNull(x, isNull)).sql)
    ensures Unpack(ToSqlAsWritten(IsNull(x, isNull))) == None
    ensures Unpack(ToSqlAsWritten(Eq(x, Raw(Null)))) == None
  {
    AsWrittenAgrees(x);
  }
}

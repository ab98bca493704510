/**
 The query DSL compiler (internal/query/query.go) and the row loop that serves its
 result (internal/service/query.go).

 A compiled statement is kept as its clauses; `Render` is the SQL text built from
 them. Each condition carries placeholders that are bound, left to right, to the
 argument list. The views are a parameter: nothing depends on which columns they list.
 */
module Query {
  import opened Collections
  import opened Like

  const DEFAULT_LIMIT := 100
  const MAX_LIMIT := 1000
  const MAX_FILTERS := 32
  const MAX_IN_VALUES := 500

  datatype Kind = KindText | KindInt | KindReal | KindBool | KindTime
  datatype Field = Field(name: string, expr: string, kind: Kind, isDefault: bool, isBody: bool)
  datatype View = View(name: string, from: string, fields: seq<Field>)

  datatype Json = JNull | JBool(b: bool) | JNumber(n: real) | JString(s: string) | JList(items: seq<Json>) | JObject
  datatype Arg = Text(s: string) | Int(n: int) | Real(r: real)

  datatype Op = Eq | Ne | In | Nin | Lt | Lte | Gt | Gte | Contains | Prefix | IsNull | NotNull
  datatype Fn = Count | CountDistinct | MinOf | MaxOf | Sum | Avg

  /** Operators and functions arrive as text; `None` stands for a name outside the allowlist. */
  datatype Filter = Filter(field: string, op: Option<Op>, value: Json)
  datatype Aggregate = Aggregate(fn: Option<Fn>, field: string, alias: string)
  datatype Order = Order(field: string, desc: bool)
  datatype Request = Request(
    view: string, fields: seq<string>, filters: seq<Filter>, groupBy: seq<string>,
    aggregates: seq<Aggregate>, orderBy: seq<Order>, limit: int, offset: int)

  datatype Cond =
    | NullCond(expr: string, negated: bool)
    | InCond(expr: string, negated: bool, count: nat)
    | LikeCond(expr: string)
    | CompareCond(expr: string, op: Op)

  datatype Column = Column(name: string, expr: string, kind: Kind)

  /** `order` holds one-based column positions. */
  datatype Statement = Statement(
    columns: seq<Column>, from: string, conds: seq<Cond>, group: seq<string>, order: seq<(nat, bool)>)

  datatype Compiled = Compiled(statement: Statement, args: seq<Arg>, limit: nat)

  datatype Error = UnknownView | MixedFields | UnknownField | BodyField | DuplicateColumn | BadFunction
                 | BadAlias | NotNumeric | TooManyFilters | BadOperator | BadValue | BadOrder | BadLimit | BadOffset

  datatype Result<+T> = Ok(value: T) | Err(error: Error) {
    predicate IsFailure() { Err? }
    function PropagateFailure<U>(): Result<U> requires Err? { Err(error) }
    function Extract(): T requires Ok? { value }
  }

  function FieldOf(fields: seq<Field>, name: string): Option<Field> {
    if fields == [] then None
    else if fields[0].name == name then Some(fields[0])
    else FieldOf(fields[1..], name)
  }

  /******* Values *******/

  const TWO63: int := 0x8000_0000_0000_0000

  function Truncate(x: real): int { if x >= 0.0 then x.Floor else -((-x).Floor) }

  /** Go's int64(x): truncation toward zero; out of range, amd64 gives the least int64. */
  function ToInt64(x: real): int {
    if -TWO63 <= Truncate(x) < TWO63 then Truncate(x) else -TWO63
  }

  predicate Fits(n: int) { -TWO63 <= n < TWO63 }

  predicate WholeFits(n: real) { n == n.Floor as real && Fits(n.Floor) }

  /** A number is a valid integer exactly when it is whole and fits 64 bits, and it then keeps its value. */
  lemma IntegersExactly(n: real, parse: string -> Option<int>)
    ensures Coerce(KindInt, JNumber(n), parse).Ok? <==> WholeFits(n)
    ensures Coerce(KindInt, JNumber(n), parse).Ok? ==> Coerce(KindInt, JNumber(n), parse).value == Int(n.Floor)
  {
    assert n < 0.0 && n == n.Floor as real ==> (-n).Floor == -n.Floor;
    assert n < 0.0 && n == Truncate(n) as real ==> n.Floor == Truncate(n);
  }

  /** Converts a JSON value to the field's representation; `parse` reads time strings. */
  function Coerce(kind: Kind, x: Json, parse: string -> Option<int>): Result<Arg> {
    match (kind, x)
    case (KindText, JString(s)) => Ok(Text(s))
    case (KindInt, JNumber(n)) => if n == ToInt64(n) as real then Ok(Int(ToInt64(n))) else Err(BadValue)
    case (KindReal, JNumber(n)) => Ok(Real(n))
    case (KindBool, JBool(b)) => Ok(Int(if b then 1 else 0))
    case (KindTime, JNumber(n)) => Ok(Int(ToInt64(n)))
    case (KindTime, JString(s)) => if parse(s).Some? then Ok(Int(parse(s).value)) else Err(BadValue)
    case _ => Err(BadValue)
  }

  function CoerceAll(kind: Kind, xs: seq<Json>, parse: string -> Option<int>): (r: Result<seq<Arg>>)
    ensures r.Ok? ==> |r.value| == |xs| && forall i :: 0 <= i < |xs| ==> Coerce(kind, xs[i], parse) == Ok(r.value[i])
  {
    if xs == [] then Ok([])
    else
      var init :- CoerceAll(kind, xs[..|xs| - 1], parse);
      var last :- Coerce(kind, xs[|xs| - 1], parse);
      Ok(init + [last])
  }

  /******* Filters *******/

  function CompileFilter(v: View, f: Filter, parse: string -> Option<int>): Result<(Cond, seq<Arg>)> {
    match FieldOf(v.fields, f.field)
    case None => Err(UnknownField)
    case Some(field) =>
      if f.op.None? then Err(BadOperator)
      else match f.op.value
        case IsNull => Ok((NullCond(field.expr, false), []))
        case NotNull => Ok((NullCond(field.expr, true), []))
        case In => CompileIn(field, f.value, false, parse)
        case Nin => CompileIn(field, f.value, true, parse)
        case Contains => CompileLike(field, f.value, ContainsPattern)
        case Prefix => CompileLike(field, f.value, PrefixPattern)
        case op =>
          var a :- Coerce(field.kind, f.value, parse);
          if field.kind.KindBool? && op != Eq && op != Ne then Err(BadOperator)
          else Ok((CompareCond(field.expr, op), [a]))
  }

  function CompileIn(field: Field, x: Json, negated: bool, parse: string -> Option<int>): Result<(Cond, seq<Arg>)> {
    if !x.JList? || |x.items| == 0 || |x.items| > MAX_IN_VALUES then Err(BadValue)
    else
      var args :- CoerceAll(field.kind, x.items, parse);
      Ok((InCond(field.expr, negated, |args|), args))
  }

  function CompileLike(field: Field, x: Json, pattern: string -> string): Result<(Cond, seq<Arg>)> {
    if !field.kind.KindText? || !x.JString? || x.s == [] then Err(BadValue)
    else Ok((LikeCond(field.expr), [Text(pattern(x.s))]))
  }

  function CompileFilters(v: View, fs: seq<Filter>, parse: string -> Option<int>): Result<(seq<Cond>, seq<Arg>)> {
    if fs == [] then Ok(([], []))
    else
      var init :- CompileFilters(v, fs[..|fs| - 1], parse);
      var last :- CompileFilter(v, fs[|fs| - 1], parse);
      Ok((init.0 + [last.0], init.1 + last.1))
  }

  /******* What conditions and filters mean *******/

  /** A stored value; SQLite decides how it compares with an argument and reads as text. */
  datatype Ordering = Less | Equal | Greater | Unknown
  datatype Database<!Val(!new)> = Database(
    isNull: Val -> bool, compare: (Val, Arg) -> Ordering, text: Val -> Option<string>)

  predicate Ranks(op: Op, o: Ordering) {
    match op
    case Eq => o == Equal
    case Ne => o == Less || o == Greater
    case Lt => o == Less
    case Lte => o == Less || o == Equal
    case Gt => o == Greater
    case Gte => o == Greater || o == Equal
    case _ => false
  }

  function Holes(c: Cond): nat {
    match c
    case NullCond(_, _) => 0
    case InCond(_, _, n) => n
    case LikeCond(_) => 1
    case CompareCond(_, _) => 1
  }

  /** The row satisfies a condition whose placeholders are bound to `args`. */
  predicate CondHolds<Val(!new)>(d: Database<Val>, row: string -> Val, c: Cond, args: seq<Arg>)
    requires |args| == Holes(c)
  {
    var x := row(c.expr);
    match c
    case NullCond(_, negated) => d.isNull(x) != negated
    case InCond(_, negated, _) =>
      if negated then !d.isNull(x) && forall a :: a in args ==> Ranks(Ne, d.compare(x, a))
      else exists a :: a in args && Ranks(Eq, d.compare(x, a))
    case LikeCond(_) => args[0].Text? && d.text(x).Some? && Matches(args[0].s, d.text(x).value)
    case CompareCond(_, op) => Ranks(op, d.compare(x, args[0]))
  }

  function TotalHoles(cs: seq<Cond>): nat {
    if cs == [] then 0 else TotalHoles(cs[..|cs| - 1]) + Holes(cs[|cs| - 1])
  }

  /** All conditions hold when the arguments are handed out left to right. */
  predicate WhereHolds<Val(!new)>(d: Database<Val>, row: string -> Val, cs: seq<Cond>, args: seq<Arg>)
    requires |args| == TotalHoles(cs)
  {
    cs == [] ||
    var k := |args| - Holes(cs[|cs| - 1]);
    WhereHolds(d, row, cs[..|cs| - 1], args[..k]) && CondHolds(d, row, cs[|cs| - 1], args[k..])
  }

  /** A filter said without patterns, placeholders or argument lists; `holds` compares the row's value. */
  ghost predicate HoldsBy<Val(!new)>(
    d: Database<Val>, x: Val, op: Op, value: Json, holds: (Op, Json) -> bool)
  {
    match op
    case IsNull => d.isNull(x)
    case NotNull => !d.isNull(x)
    case In => value.JList? && exists y :: y in value.items && holds(Eq, y)
    case Nin => value.JList? && !d.isNull(x) && forall y :: y in value.items ==> holds(Ne, y)
    case Contains => value.JString? && d.text(x).Some? && Occurs(value.s, d.text(x).value)
    case Prefix => value.JString? && d.text(x).Some? && StartsWith(d.text(x).value, value.s)
    case _ => holds(op, value)
  }

  /** What a filter asks of a row. */
  ghost predicate FilterHolds<Val(!new)>(
    d: Database<Val>, row: string -> Val, v: View, f: Filter, parse: string -> Option<int>)
  {
    FieldOf(v.fields, f.field).Some? && f.op.Some? &&
    var field := FieldOf(v.fields, f.field).value;
    var x := row(field.expr);
    HoldsBy(d, x, f.op.value, f.value, (op, y) => Compares(d, x, field.kind, op, y, parse))
  }

  /** A number as a database value: an integer where it is one, else a real. */
  function Number(n: real): Arg { if WholeFits(n) then Int(n.Floor) else Real(n) }

  /** What a value in a filter denotes, whatever the compiler converts it to. */
  function Asked(kind: Kind, y: Json, parse: string -> Option<int>): Option<Arg> {
    match (kind, y)
    case (KindText, JString(s)) => Some(Text(s))
    case (KindInt, JNumber(n)) => Some(Number(n))
    case (KindReal, JNumber(n)) => Some(Real(n))
    case (KindBool, JBool(b)) => Some(Int(if b then 1 else 0))
    case (KindTime, JNumber(n)) => Some(Number(n))
    case (KindTime, JString(s)) => if parse(s).Some? then Some(Int(parse(s).value)) else None
    case _ => None
  }

  /** The row's value compares with the filter's as the operator demands. */
  ghost predicate Compares<Val(!new)>(
    d: Database<Val>, x: Val, kind: Kind, op: Op, y: Json, parse: string -> Option<int>)
  {
    Asked(kind, y, parse).Some? && Ranks(op, d.compare(x, Asked(kind, y, parse).value))
  }

  /** The same of the value the compiler binds. */
  ghost predicate BoundCompares<Val(!new)>(
    d: Database<Val>, x: Val, kind: Kind, op: Op, y: Json, parse: string -> Option<int>)
  {
    Coerce(kind, y, parse).Ok? && Ranks(op, d.compare(x, Coerce(kind, y, parse).value))
  }

  /** A value that is not a number on a time field, or one that is whole and fits 64 bits. */
  predicate ValueKept(kind: Kind, y: Json) { kind.KindTime? && y.JNumber? ==> WholeFits(y.n) }

  /** Every value a filter compares with is bound as what it denotes. */
  ghost predicate ValuesKept(v: View, f: Filter) {
    FieldOf(v.fields, f.field).Some? && f.op.Some? ==>
      forall y :: Mentions(f.op.value, f.value, y) ==> ValueKept(FieldOf(v.fields, f.field).value.kind, y)
  }

  /** An accepted value is bound as what it denotes, or it is a number on a time field that is cut or wraps. */
  lemma CoerceKeeps(kind: Kind, y: Json, parse: string -> Option<int>)
    requires Coerce(kind, y, parse).Ok?
    ensures Asked(kind, y, parse).Some?
    ensures ValueKept(kind, y) ==> Asked(kind, y, parse) == Some(Coerce(kind, y, parse).value)
    ensures !ValueKept(kind, y) ==>
        Asked(kind, y, parse) == Some(Real(y.n)) && Coerce(kind, y, parse).value == Int(ToInt64(y.n))
  {
    if kind.KindInt? && y.JNumber? {
      IntegersExactly(y.n, parse);
    }
    if kind.KindTime? && y.JNumber? && WholeFits(y.n) {
      WholeKept(y.n);
    }
  }

  lemma ValueMeaning<Val(!new)>(d: Database<Val>, x: Val, kind: Kind, y: Json, parse: string -> Option<int>)
    requires Coerce(kind, y, parse).Ok? && ValueKept(kind, y)
    ensures forall op :: Compares(d, x, kind, op, y, parse) <==> BoundCompares(d, x, kind, op, y, parse)
  {
    CoerceKeeps(kind, y, parse);
  }

  lemma WholeKept(n: real)
    requires WholeFits(n)
    ensures ToInt64(n) == n.Floor
  {
    assert n < 0.0 ==> (-n).Floor == -n.Floor;
  }

  lemma InMeaning<Val(!new)>(
    d: Database<Val>, x: Val, kind: Kind, items: seq<Json>, args: seq<Arg>, parse: string -> Option<int>)
    requires CoerceAll(kind, items, parse) == Ok(args)
    ensures (exists a :: a in args && Ranks(Eq, d.compare(x, a)))
       <==> (exists y :: y in items && BoundCompares(d, x, kind, Eq, y, parse))
    ensures (forall a :: a in args ==> Ranks(Ne, d.compare(x, a)))
       <==> (forall y :: y in items ==> BoundCompares(d, x, kind, Ne, y, parse))
  {
    forall y | y in items ensures Coerce(kind, y, parse).Ok? && Coerce(kind, y, parse).value in args {
      var i :| 0 <= i < |items| && items[i] == y;
      assert args[i] in args;
    }
    forall a | a in args ensures exists y :: y in items && Coerce(kind, y, parse) == Ok(a) {
      var i :| 0 <= i < |args| && args[i] == a;
      assert items[i] in items;
    }
  }

  /** `FilterHolds` with the values the compiler binds. */
  ghost predicate BoundHolds<Val(!new)>(
    d: Database<Val>, row: string -> Val, v: View, f: Filter, parse: string -> Option<int>)
  {
    FieldOf(v.fields, f.field).Some? && f.op.Some? &&
    var field := FieldOf(v.fields, f.field).value;
    var x := row(field.expr);
    HoldsBy(d, x, f.op.value, f.value, (op, y) => BoundCompares(d, x, field.kind, op, y, parse))
  }

  /** A compiled condition selects exactly the rows its filter asks for with the values as bound. */
  lemma BoundMeaning<Val(!new)>(
    d: Database<Val>, row: string -> Val, v: View, f: Filter, parse: string -> Option<int>)
    requires CompileFilter(v, f, parse).Ok?
    ensures
      var (cond, args) := CompileFilter(v, f, parse).value;
      |args| == Holes(cond) && (CondHolds(d, row, cond, args) <==> BoundHolds(d, row, v, f, parse))
  {
    var field := FieldOf(v.fields, f.field).value;
    var x := row(field.expr);
    var (cond, args) := CompileFilter(v, f, parse).value;
    match f.op.value
    case In => InMeaning(d, x, field.kind, f.value.items, args, parse);
    case Nin => InMeaning(d, x, field.kind, f.value.items, args, parse);
    case Contains => if d.text(x).Some? { ContainsMeaning(f.value.s, d.text(x).value); }
    case Prefix => if d.text(x).Some? { PrefixMeaning(f.value.s, d.text(x).value); }
    case _ =>
  }

  /** The values a filter compares with. */
  predicate Mentions(op: Op, value: Json, y: Json) {
    if op in {In, Nin} then value.JList? && y in value.items else IsComparison(op) && y == value
  }

  predicate IsComparison(op: Op) { op in {Eq, Ne, Lt, Lte, Gt, Gte} }

  lemma HoldsSame<Val(!new)>(
    d: Database<Val>, x: Val, op: Op, value: Json, a: (Op, Json) -> bool, b: (Op, Json) -> bool)
    requires forall o, y :: Mentions(op, value, y) ==> a(o, y) == b(o, y)
    ensures HoldsBy(d, x, op, value, a) <==> HoldsBy(d, x, op, value, b)
  {
    match op
    case In => assert value.JList? ==> forall y :: y in value.items ==> Mentions(op, value, y);
    case Nin => assert value.JList? ==> forall y :: y in value.items ==> Mentions(op, value, y);
    case _ => assert IsComparison(op) ==> Mentions(op, value, value);
  }

  /** An accepted filter has only values that convert. */
  lemma MentionedConvert(v: View, f: Filter, parse: string -> Option<int>, y: Json)
    requires CompileFilter(v, f, parse).Ok? && Mentions(f.op.value, f.value, y)
    ensures Coerce(FieldOf(v.fields, f.field).value.kind, y, parse).Ok?
  {
    if f.op.value in {In, Nin} {
      var i :| 0 <= i < |f.value.items| && f.value.items[i] == y;
    }
  }

  /** Where every value is bound as what it denotes, the filter holds as asked exactly when it holds as bound. */
  lemma KeptHolds<Val(!new)>(
    d: Database<Val>, row: string -> Val, v: View, f: Filter, parse: string -> Option<int>)
    requires CompileFilter(v, f, parse).Ok? && ValuesKept(v, f)
    ensures BoundHolds(d, row, v, f, parse) <==> FilterHolds(d, row, v, f, parse)
  {
    var field := FieldOf(v.fields, f.field).value;
    var x := row(field.expr);
    var asked := (op, y) => Compares(d, x, field.kind, op, y, parse);
    var bound := (op, y) => BoundCompares(d, x, field.kind, op, y, parse);
    forall op, y | Mentions(f.op.value, f.value, y) ensures asked(op, y) == bound(op, y) {
      MentionedConvert(v, f, parse, y);
      ValueMeaning(d, x, field.kind, y, parse);
    }
    HoldsSame(d, x, f.op.value, f.value, asked, bound);
  }

  /** A compiled condition then selects exactly the rows its filter asks for. */
  lemma FilterMeaning<Val(!new)>(
    d: Database<Val>, row: string -> Val, v: View, f: Filter, parse: string -> Option<int>)
    requires CompileFilter(v, f, parse).Ok?
    ensures
      var (cond, args) := CompileFilter(v, f, parse).value;
      |args| == Holes(cond)
      && (ValuesKept(v, f) ==> (CondHolds(d, row, cond, args) <==> FilterHolds(d, row, v, f, parse)))
  {
    BoundMeaning(d, row, v, f, parse);
    if ValuesKept(v, f) {
      KeptHolds(d, row, v, f, parse);
    }
  }

  lemma WhereSnoc<Val(!new)>(
    d: Database<Val>, row: string -> Val, conds: seq<Cond>, args: seq<Arg>, cond: Cond, more: seq<Arg>)
    requires |args| == TotalHoles(conds) && |more| == Holes(cond)
    ensures TotalHoles(conds + [cond]) == |args + more|
    ensures WhereHolds(d, row, conds + [cond], args + more)
       <==> WhereHolds(d, row, conds, args) && CondHolds(d, row, cond, more)
  {
    var cs, all := conds + [cond], args + more;
    assert cs[..|cs| - 1] == conds && all[..|args|] == args && all[|args|..] == more;
  }

  ghost predicate AllBound<Val(!new)>(
    d: Database<Val>, row: string -> Val, v: View, fs: seq<Filter>, parse: string -> Option<int>)
  {
    forall i :: 0 <= i < |fs| ==> BoundHolds(d, row, v, fs[i], parse)
  }

  lemma AllBoundSnoc<Val(!new)>(
    d: Database<Val>, row: string -> Val, v: View, fs: seq<Filter>, parse: string -> Option<int>)
    requires fs != []
    ensures AllBound(d, row, v, fs, parse)
       <==> AllBound(d, row, v, fs[..|fs| - 1], parse) && BoundHolds(d, row, v, fs[|fs| - 1], parse)
  {
    var init := fs[..|fs| - 1];
    assert forall i :: 0 <= i < |init| ==> init[i] == fs[i];
    if AllBound(d, row, v, init, parse) && BoundHolds(d, row, v, fs[|fs| - 1], parse) {
      forall i | 0 <= i < |fs| ensures BoundHolds(d, row, v, fs[i], parse) {
        assert i < |init| ==> init[i] == fs[i];
      }
    }
  }

  /** The WHERE clause keeps exactly the rows that satisfy every filter with the values as bound. */
  lemma {:induction false} WhereBound<Val(!new)>(
    d: Database<Val>, row: string -> Val, v: View, fs: seq<Filter>, parse: string -> Option<int>)
    requires CompileFilters(v, fs, parse).Ok?
    ensures
      var (conds, args) := CompileFilters(v, fs, parse).value;
      |conds| == |fs| && |args| == TotalHoles(conds)
      && (WhereHolds(d, row, conds, args) <==> AllBound(d, row, v, fs, parse))
  {
    if fs != [] {
      var init, last := fs[..|fs| - 1], fs[|fs| - 1];
      WhereBound(d, row, v, init, parse);
      BoundMeaning(d, row, v, last, parse);
      AllBoundSnoc(d, row, v, fs, parse);
      var (conds, args) := CompileFilters(v, init, parse).value;
      var (cond, more) := CompileFilter(v, last, parse).value;
      WhereSnoc(d, row, conds, args, cond, more);
    }
  }

  ghost predicate AllHold<Val(!new)>(
    d: Database<Val>, row: string -> Val, v: View, fs: seq<Filter>, parse: string -> Option<int>)
  {
    forall i :: 0 <= i < |fs| ==> FilterHolds(d, row, v, fs[i], parse)
  }

  ghost predicate AllKept(v: View, fs: seq<Filter>) { forall i :: 0 <= i < |fs| ==> ValuesKept(v, fs[i]) }

  lemma {:induction false} EachCompiles(v: View, fs: seq<Filter>, parse: string -> Option<int>, i: nat)
    requires CompileFilters(v, fs, parse).Ok? && i < |fs|
    ensures CompileFilter(v, fs[i], parse).Ok?
  {
    if i < |fs| - 1 {
      EachCompiles(v, fs[..|fs| - 1], parse, i);
    }
  }

  /** The WHERE clause keeps exactly the rows that satisfy every filter, if every value is bound as what it denotes. */
  lemma WhereMeaning<Val(!new)>(
    d: Database<Val>, row: string -> Val, v: View, fs: seq<Filter>, parse: string -> Option<int>)
    requires CompileFilters(v, fs, parse).Ok?
    ensures
      var (conds, args) := CompileFilters(v, fs, parse).value;
      |conds| == |fs| && |args| == TotalHoles(conds)
      && (AllKept(v, fs) ==> (WhereHolds(d, row, conds, args) <==> AllHold(d, row, v, fs, parse)))
  {
    WhereBound(d, row, v, fs, parse);
    if AllKept(v, fs) {
      forall i | 0 <= i < |fs| ensures BoundHolds(d, row, v, fs[i], parse) <==> FilterHolds(d, row, v, fs[i], parse) {
        EachCompiles(v, fs, parse, i);
        KeptHolds(d, row, v, fs[i], parse);
      }
    }
  }

  /******* Numbers on time fields *******/

  function Order3(a: real, b: real): Ordering { if a < b then Less else if a == b then Equal else Greater }

  /** How an integer column compares: with numbers as a number, before all text. */
  function IntCompare(x: int, a: Arg): Ordering {
    match a
    case Text(_) => Less
    case Int(i) => Order3(x as real, i as real)
    case Real(r) => Order3(x as real, r)
  }

  /** Rows of one integer, which every column reads. */
  const INTS: Database<int> := Database(x => false, IntCompare, x => None)

  function RowOf(x: int): string -> int { e => x }

  /** Comparing with int64(n) is comparing with n, for one operator. */
  predicate OperatorKeeps(op: Op, n: real) {
    match op
    case Eq => WholeFits(n)
    case Ne => WholeFits(n)
    case Lt => WholeFits(n) || n < 0.0
    case Gte => WholeFits(n) || n < 0.0
    case Lte => WholeFits(n) || 0.0 <= n < TWO63 as real
    case Gt => WholeFits(n) || 0.0 <= n < TWO63 as real
    case _ => true
  }

  predicate SameRank(op: Op, x: int, n: real) {
    Ranks(op, IntCompare(x, Int(ToInt64(n)))) <==> Ranks(op, IntCompare(x, Real(n)))
  }

  lemma ToInt64Bounds(n: real)
    ensures Fits(ToInt64(n))
    ensures 0.0 <= n < TWO63 as real ==> ToInt64(n) as real <= n < ToInt64(n) as real + 1.0
    ensures -TWO63 as real <= n < 0.0 ==> n <= ToInt64(n) as real < n + 1.0
    ensures n >= TWO63 as real ==> ToInt64(n) == -TWO63
    ensures n < -TWO63 as real ==> ToInt64(n) == -TWO63
    ensures WholeFits(n) <==> ToInt64(n) as real == n
  {
    if n < 0.0 {
      assert (-n).Floor as real <= -n < (-n).Floor as real + 1.0;
    }
    if WholeFits(n) {
      WholeKept(n);
    }
  }

  predicate Below(x: int, t: int, n: real) { x < t <==> x as real < n }
  predicate AtMost(x: int, t: int, n: real) { x <= t <==> x as real <= n }
  predicate Same(x: int, t: int, n: real) { x == t <==> x as real == n }

  /** Ranks said of numbers; ne, gte and gt are the complements of eq, lt and lte. */
  lemma SameRankMeaning(op: Op, x: int, n: real)
    requires IsComparison(op)
    ensures SameRank(op, x, n) <==>
      if op in {Eq, Ne} then Same(x, ToInt64(n), n)
      else if op in {Lt, Gte} then Below(x, ToInt64(n), n)
      else AtMost(x, ToInt64(n), n)
  {
  }

  lemma SameExactly(n: real)
    ensures (forall x :: Fits(x) ==> Same(x, ToInt64(n), n)) <==> WholeFits(n)
  {
    ToInt64Bounds(n);
    assert Same(ToInt64(n), ToInt64(n), n) <==> WholeFits(n);
  }

  lemma BelowExactly(n: real)
    ensures (forall x :: Fits(x) ==> Below(x, ToInt64(n), n)) <==> WholeFits(n) || n < 0.0
  {
    ToInt64Bounds(n);
    assert n >= 0.0 && !WholeFits(n) ==> !Below(ToInt64(n), ToInt64(n), n);
  }

  lemma AtMostExactly(n: real)
    ensures (forall x :: Fits(x) ==> AtMost(x, ToInt64(n), n)) <==> WholeFits(n) || 0.0 <= n < TWO63 as real
  {
    ToInt64Bounds(n);
    assert n < 0.0 && !WholeFits(n) ==> !AtMost(ToInt64(n), ToInt64(n), n);
    assert Fits(0) && (n >= TWO63 as real ==> !AtMost(0, ToInt64(n), n));
  }

  /** For each operator: exactly the numbers on which int64(n) compares like n with every stored integer. */
  lemma OperatorExactly(op: Op, n: real)
    requires IsComparison(op)
    ensures (forall x :: Fits(x) ==> SameRank(op, x, n)) <==> OperatorKeeps(op, n)
  {
    forall x ensures SameRank(op, x, n) <==>
      if op in {Eq, Ne} then Same(x, ToInt64(n), n)
      else if op in {Lt, Gte} then Below(x, ToInt64(n), n)
      else AtMost(x, ToInt64(n), n)
    {
      SameRankMeaning(op, x, n);
    }
    SameExactly(n);
    BelowExactly(n);
    AtMostExactly(n);
  }

  /** For all operators at once: exactly the whole numbers that fit 64 bits. */
  lemma TimesExactly(n: real)
    ensures (forall x :: Fits(x) ==> IntCompare(x, Int(ToInt64(n))) == IntCompare(x, Real(n))) <==> WholeFits(n)
  {
    ToInt64Bounds(n);
    assert Fits(ToInt64(n));
  }

  /** Each value of a list that is cut or wraps becomes what another value of the list denotes. */
  predicate ListKept(items: seq<Json>, parse: string -> Option<int>) {
    forall y :: y in items && !ValueKept(KindTime, y) ==>
      exists z :: z in items && Asked(KindTime, z, parse) == Some(Int(ToInt64(y.n)))
  }

  /** The guard for one filter; it concerns numbers on time fields only. */
  predicate FilterKept(v: View, f: Filter, parse: string -> Option<int>) {
    FieldOf(v.fields, f.field).Some? && f.op.Some? && FieldOf(v.fields, f.field).value.kind.KindTime? ==>
      if f.op.value in {In, Nin} then f.value.JList? ==> ListKept(f.value.items, parse)
      else f.value.JNumber? ==> OperatorKeeps(f.op.value, f.value.n)
  }

  lemma NumberCompares(x: int, n: real)
    ensures IntCompare(x, Number(n)) == IntCompare(x, Real(n))
  {
  }

  ghost predicate SomeEqual(x: int, items: seq<Json>, parse: string -> Option<int>) {
    exists y :: y in items && Compares(INTS, x, KindTime, Eq, y, parse)
  }

  ghost predicate SomeBoundEqual(x: int, items: seq<Json>, parse: string -> Option<int>) {
    exists y :: y in items && BoundCompares(INTS, x, KindTime, Eq, y, parse)
  }

  /** On stored integers a value is equal when it denotes the integer, and is bound equal when it becomes it. */
  lemma TimeEqual(x: int, y: Json, parse: string -> Option<int>)
    requires Coerce(KindTime, y, parse).Ok? && Fits(x)
    ensures BoundCompares(INTS, x, KindTime, Eq, y, parse) <==> Coerce(KindTime, y, parse) == Ok(Int(x))
    ensures Compares(INTS, x, KindTime, Eq, y, parse) <==> Asked(KindTime, y, parse) == Some(Int(x))
    ensures Asked(KindTime, y, parse) == Some(Int(x)) ==> Coerce(KindTime, y, parse) == Ok(Int(x))
  {
    CoerceKeeps(KindTime, y, parse);
    if y.JNumber? && x as real == y.n {
      assert y.n.Floor == x;
    }
  }

  lemma ListExactly(items: seq<Json>, parse: string -> Option<int>)
    requires forall y :: y in items ==> Coerce(KindTime, y, parse).Ok?
    ensures (forall x :: Fits(x) ==> (SomeBoundEqual(x, items, parse) <==> SomeEqual(x, items, parse)))
       <==> ListKept(items, parse)
  {
    if ListKept(items, parse) {
      forall x | Fits(x) ensures SomeBoundEqual(x, items, parse) <==> SomeEqual(x, items, parse) {
        ListSame(x, items, parse);
      }
    } else {
      var y :| y in items && !ValueKept(KindTime, y)
               && !exists z :: z in items && Asked(KindTime, z, parse) == Some(Int(ToInt64(y.n)));
      var x := ToInt64(y.n);
      ToInt64Bounds(y.n);
      TimeEqual(x, y, parse);
      assert SomeBoundEqual(x, items, parse);
      forall z | z in items ensures !Compares(INTS, x, KindTime, Eq, z, parse) {
        TimeEqual(x, z, parse);
      }
    }
  }

  lemma ListSame(x: int, items: seq<Json>, parse: string -> Option<int>)
    requires forall y :: y in items ==> Coerce(KindTime, y, parse).Ok?
    requires Fits(x) && ListKept(items, parse)
    ensures SomeBoundEqual(x, items, parse) <==> SomeEqual(x, items, parse)
  {
    if SomeEqual(x, items, parse) {
      var y :| y in items && Compares(INTS, x, KindTime, Eq, y, parse);
      TimeEqual(x, y, parse);
    }
    if SomeBoundEqual(x, items, parse) {
      var y :| y in items && BoundCompares(INTS, x, KindTime, Eq, y, parse);
      TimeEqual(x, y, parse);
      CoerceKeeps(KindTime, y, parse);
      if ValueKept(KindTime, y) {
        assert Compares(INTS, x, KindTime, Eq, y, parse);
      } else {
        var z :| z in items && Asked(KindTime, z, parse) == Some(Int(ToInt64(y.n)));
        TimeEqual(x, z, parse);
      }
    }
  }

  lemma BoundExactly(v: View, f: Filter, parse: string -> Option<int>)
    requires CompileFilter(v, f, parse).Ok?
    ensures (forall x :: Fits(x) ==>
               (BoundHolds(INTS, RowOf(x), v, f, parse) <==> FilterHolds(INTS, RowOf(x), v, f, parse)))
       <==> FilterKept(v, f, parse)
  {
    var kind, op := FieldOf(v.fields, f.field).value.kind, f.op.value;
    if kind.KindTime? && op in {In, Nin} {
      forall y | y in f.value.items ensures Coerce(kind, y, parse).Ok? {
        assert Mentions(op, f.value, y);
        MentionedConvert(v, f, parse, y);
      }
      ListExactly(f.value.items, parse);
      forall x | Fits(x)
        ensures (BoundHolds(INTS, RowOf(x), v, f, parse) <==> FilterHolds(INTS, RowOf(x), v, f, parse))
           <==> (SomeBoundEqual(x, f.value.items, parse) <==> SomeEqual(x, f.value.items, parse))
      {
        ListHolds(x, v, f, parse);
      }
    } else if kind.KindTime? && f.value.JNumber? && IsComparison(op) {
      OperatorExactly(op, f.value.n);
      forall x | Fits(x)
        ensures (BoundHolds(INTS, RowOf(x), v, f, parse) <==> FilterHolds(INTS, RowOf(x), v, f, parse))
           <==> SameRank(op, x, f.value.n)
      {
        NumberCompares(x, f.value.n);
      }
    } else {
      forall x ensures BoundHolds(INTS, RowOf(x), v, f, parse) <==> FilterHolds(INTS, RowOf(x), v, f, parse) {
        KeptHolds(INTS, RowOf(x), v, f, parse);
      }
    }
  }

  lemma ListHolds(x: int, v: View, f: Filter, parse: string -> Option<int>)
    requires CompileFilter(v, f, parse).Ok? && f.op.value in {In, Nin}
    requires FieldOf(v.fields, f.field).value.kind.KindTime?
    ensures f.value.JList?
    ensures BoundHolds(INTS, RowOf(x), v, f, parse)
       <==> (f.op.value == In <==> SomeBoundEqual(x, f.value.items, parse))
    ensures FilterHolds(INTS, RowOf(x), v, f, parse)
       <==> (f.op.value == In <==> SomeEqual(x, f.value.items, parse))
  {
    forall y | y in f.value.items
      ensures BoundCompares(INTS, x, KindTime, Ne, y, parse) <==> !BoundCompares(INTS, x, KindTime, Eq, y, parse)
      ensures Compares(INTS, x, KindTime, Ne, y, parse) <==> !Compares(INTS, x, KindTime, Eq, y, parse)
    {
      assert Mentions(f.op.value, f.value, y);
      MentionedConvert(v, f, parse, y);
      CoerceKeeps(KindTime, y, parse);
    }
  }

  /** The compiled condition, bound to its own arguments, selects the row. */
  ghost predicate Selects<Val(!new)>(
    d: Database<Val>, row: string -> Val, v: View, f: Filter, parse: string -> Option<int>)
    requires CompileFilter(v, f, parse).Ok?
  {
    var (cond, args) := CompileFilter(v, f, parse).value;
    |args| == Holes(cond) && CondHolds(d, row, cond, args)
  }

  /** For one filter: exactly when its condition selects, of all stored integers, those it asks for. */
  lemma FilterExactly(v: View, f: Filter, parse: string -> Option<int>)
    requires CompileFilter(v, f, parse).Ok?
    ensures (forall x :: Fits(x) ==>
               (Selects(INTS, RowOf(x), v, f, parse) <==> FilterHolds(INTS, RowOf(x), v, f, parse)))
       <==> FilterKept(v, f, parse)
  {
    BoundExactly(v, f, parse);
    forall x ensures Selects(INTS, RowOf(x), v, f, parse) <==> BoundHolds(INTS, RowOf(x), v, f, parse) {
      BoundMeaning(INTS, RowOf(x), v, f, parse);
    }
  }

  /** The inputs: before second 1.5 misses second 1, and before 10^19 misses every second there is. */
  lemma TimesMissed(v: View, field: string, parse: string -> Option<int>)
    requires FieldOf(v.fields, field).Some? && FieldOf(v.fields, field).value.kind.KindTime?
    ensures
      var f := Filter(field, Some(Lt), JNumber(1.5));
      && CompileFilter(v, f, parse).Ok?
      && FilterHolds(INTS, RowOf(1), v, f, parse) && !Selects(INTS, RowOf(1), v, f, parse)
    ensures
      var f := Filter(field, Some(Lt), JNumber(10_000_000_000_000_000_000.0));
      && CompileFilter(v, f, parse).Ok?
      && forall x :: Fits(x) ==>
           FilterHolds(INTS, RowOf(x), v, f, parse) && !Selects(INTS, RowOf(x), v, f, parse)
  {
    ToInt64Bounds(1.5);
    ToInt64Bounds(10_000_000_000_000_000_000.0);
    NumberCompares(1, 1.5);
    forall x { NumberCompares(x, 10_000_000_000_000_000_000.0); }
  }

  /******* Columns *******/

  datatype Wanted = PlainField(name: string) | GroupField(name: string) | AggregateColumn(aggregate: Aggregate)

  function FnName(fn: Fn): string {
    match fn
    case Count => "count"
    case CountDistinct => "count_distinct"
    case MinOf => "min"
    case MaxOf => "max"
    case Sum => "sum"
    case Avg => "avg"
  }

  /** ^[a-z][a-z0-9_]{0,39}$ */
  predicate AliasOk(s: string) {
    && 1 <= |s| <= 40 && 'a' <= s[0] <= 'z'
    && forall i :: 0 <= i < |s| ==> 'a' <= s[i] <= 'z' || '0' <= s[i] <= '9' || s[i] == '_'
  }

  function CompileAggregate(v: View, a: Aggregate): Result<Column> {
    if a.fn.None? then Err(BadFunction)
    else
      var fn := a.fn.value;
      var alias := if a.alias != "" then a.alias
                   else FnName(fn) + (if a.field != "" then "_" + a.field else "");
      if !AliasOk(alias) then Err(BadAlias)
      else if fn == Count && a.field == "" then Ok(Column(alias, "count(*)", KindInt))
      else
        match FieldOf(v.fields, a.field)
        case None => Err(UnknownField)
        case Some(f) =>
          if f.isBody && fn != Count && fn != CountDistinct then Err(BodyField)
          else match fn
            case Count => Ok(Column(alias, "count(" + f.expr + ")", KindInt))
            case CountDistinct => Ok(Column(alias, "count(DISTINCT " + f.expr + ")", KindInt))
            case MinOf => Ok(Column(alias, "min(" + f.expr + ")", f.kind))
            case MaxOf => Ok(Column(alias, "max(" + f.expr + ")", f.kind))
            case _ =>
              if f.kind.KindText? || f.kind.KindTime? then Err(NotNumeric)
              else Ok(Column(alias, FnName(fn) + "(" + f.expr + ")",
                             if fn == Sum && !f.kind.KindReal? then KindInt else KindReal))
  }

  function CompileColumn(v: View, w: Wanted): Result<Column> {
    if w.AggregateColumn? then CompileAggregate(v, w.aggregate)
    else match FieldOf(v.fields, w.name)
      case None => Err(UnknownField)
      case Some(f) => if w.GroupField? && f.isBody then Err(BodyField) else Ok(Column(w.name, f.expr, f.kind))
  }

  function Names(cols: seq<Column>): seq<string> {
    seq(|cols|, i requires 0 <= i < |cols| => cols[i].name)
  }

  function CompileColumns(v: View, ws: seq<Wanted>): (r: Result<seq<Column>>)
    ensures r.Ok? ==> |r.value| == |ws| && Distinct(Names(r.value))
  {
    if ws == [] then Ok([])
    else
      var init :- CompileColumns(v, ws[..|ws| - 1]);
      var last :- CompileColumn(v, ws[|ws| - 1]);
      if last.name in Names(init) then Err(DuplicateColumn)
      else
        assert Names(init + [last]) == Names(init) + [last.name];
        Ok(init + [last])
  }

  function DefaultNames(fields: seq<Field>): seq<string> {
    if fields == [] then []
    else (if fields[0].isDefault then [fields[0].name] else []) + DefaultNames(fields[1..])
  }

  predicate Grouped(q: Request) { q.groupBy != [] || q.aggregates != [] }

  function WantedColumns(v: View, q: Request): seq<Wanted> {
    if Grouped(q) then
      var aggs := if q.aggregates == [] then [Aggregate(Some(Count), "", "")] else q.aggregates;
      seq(|q.groupBy|, i requires 0 <= i < |q.groupBy| => GroupField(q.groupBy[i]))
      + seq(|aggs|, i requires 0 <= i < |aggs| => AggregateColumn(aggs[i]))
    else
      var names := if q.fields == [] then DefaultNames(v.fields) else q.fields;
      seq(|names|, i requires 0 <= i < |names| => PlainField(names[i]))
  }

  /******* Ordering *******/

  function IndexOf(names: seq<string>, name: string): (r: Option<nat>)
    ensures r.Some? ==> r.value < |names| && names[r.value] == name
    ensures r.None? ==> name !in names
  {
    if names == [] then None
    else if names[0] == name then Some(0)
    else match IndexOf(names[1..], name)
      case None => None
      case Some(i) => Some(i + 1)
  }

  function CompileOrder(names: seq<string>, os: seq<Order>): (r: Result<seq<(nat, bool)>>)
    ensures r.Ok? ==> OrderFits(names, os, r.value)
  {
    if os == [] then Ok([])
    else
      var init :- CompileOrder(names, os[..|os| - 1]);
      var o := os[|os| - 1];
      match IndexOf(names, o.field)
      case None => Err(BadOrder)
      case Some(i) => Ok(init + [(i + 1, o.desc)])
  }

  /******* Compile *******/

  function EffectiveLimit(q: Request): nat { if q.limit <= 0 then DEFAULT_LIMIT else q.limit }

  function GroupExprs(cols: seq<Column>, n: nat): seq<string>
    requires n <= |cols|
  {
    seq(n, i requires 0 <= i < n => cols[i].expr)
  }

  /** What Compile builds, clause by clause, in the order it checks them. */
  function CompileSpec(views: map<string, View>, q: Request, parse: string -> Option<int>): Result<Compiled> {
    if q.view !in views then Err(UnknownView)
    else if Grouped(q) && q.fields != [] then Err(MixedFields)
    else
      var v := views[q.view];
      var cols :- CompileColumns(v, WantedColumns(v, q));
      if |q.filters| > MAX_FILTERS then Err(TooManyFilters)
      else
        var where :- CompileFilters(v, q.filters, parse);
        var order :- CompileOrder(Names(cols), q.orderBy);
        Assemble(v, q, cols, where, order)
  }

  /** The last checks, on limit and offset, and the statement itself. */
  function Assemble(
    v: View, q: Request, cols: seq<Column>, where: (seq<Cond>, seq<Arg>), order: seq<(nat, bool)>): Result<Compiled>
    requires Grouped(q) ==> |q.groupBy| <= |cols|
  {
    if EffectiveLimit(q) > MAX_LIMIT then Err(BadLimit)
    else if q.offset < 0 then Err(BadOffset)
    else
      var group := if Grouped(q) then GroupExprs(cols, |q.groupBy|) else [];
      Ok(Compiled(Statement(cols, v.from, where.0, group, order),
                  where.1 + [Int(EffectiveLimit(q) + 1), Int(q.offset)], EffectiveLimit(q)))
  }

  lemma {:induction false} ColumnsFail(v: View, ws: seq<Wanted>, k: nat)
    requires k <= |ws| && CompileColumns(v, ws[..k]).Err?
    ensures CompileColumns(v, ws) == CompileColumns(v, ws[..k])
  {
    if k < |ws| {
      assert ws[..|ws| - 1][..k] == ws[..k];
      ColumnsFail(v, ws[..|ws| - 1], k);
    } else {
      assert ws[..k] == ws;
    }
  }

  lemma {:induction false} FiltersFail(v: View, fs: seq<Filter>, parse: string -> Option<int>, k: nat)
    requires k <= |fs| && CompileFilters(v, fs[..k], parse).Err?
    ensures CompileFilters(v, fs, parse) == CompileFilters(v, fs[..k], parse)
  {
    if k < |fs| {
      assert fs[..|fs| - 1][..k] == fs[..k];
      FiltersFail(v, fs[..|fs| - 1], parse, k);
    } else {
      assert fs[..k] == fs;
    }
  }

  lemma {:induction false} OrderFails(names: seq<string>, os: seq<Order>, k: nat)
    requires k <= |os| && CompileOrder(names, os[..k]).Err?
    ensures CompileOrder(names, os) == CompileOrder(names, os[..k])
  {
    if k < |os| {
      assert os[..|os| - 1][..k] == os[..k];
      OrderFails(names, os[..|os| - 1], k);
    } else {
      assert os[..k] == os;
    }
  }

  method BuildColumns(v: View, ws: seq<Wanted>) returns (r: Result<seq<Column>>)
    ensures r == CompileColumns(v, ws)
  {
    var cols: seq<Column> := [];
    for i := 0 to |ws|
      invariant CompileColumns(v, ws[..i]) == Ok(cols)
    {
      assert ws[..i + 1][..i] == ws[..i];
      var c := CompileColumn(v, ws[i]);
      if c.Err? || c.value.name in Names(cols) {
        ColumnsFail(v, ws, i + 1);
        return if c.Err? then Err(c.error) else Err(DuplicateColumn);
      }
      cols := cols + [c.value];
    }
    assert ws[..|ws|] == ws;
    r := Ok(cols);
  }

  method BuildWhere(v: View, fs: seq<Filter>, parse: string -> Option<int>) returns (r: Result<(seq<Cond>, seq<Arg>)>)
    ensures r == CompileFilters(v, fs, parse)
  {
    var conds: seq<Cond>, args: seq<Arg> := [], [];
    for i := 0 to |fs|
      invariant CompileFilters(v, fs[..i], parse) == Ok((conds, args))
    {
      assert fs[..i + 1][..i] == fs[..i];
      var f := CompileFilter(v, fs[i], parse);
      if f.Err? {
        FiltersFail(v, fs, parse, i + 1);
        return Err(f.error);
      }
      conds, args := conds + [f.value.0], args + f.value.1;
    }
    assert fs[..|fs|] == fs;
    r := Ok((conds, args));
  }

  method BuildOrder(names: seq<string>, os: seq<Order>) returns (r: Result<seq<(nat, bool)>>)
    ensures r == CompileOrder(names, os)
  {
    var order: seq<(nat, bool)> := [];
    for i := 0 to |os|
      invariant CompileOrder(names, os[..i]) == Ok(order)
    {
      assert os[..i + 1][..i] == os[..i];
      var at := IndexOf(names, os[i].field);
      if at.None? {
        OrderFails(names, os, i + 1);
        return Err(BadOrder);
      }
      order := order + [(at.value + 1, os[i].desc)];
    }
    assert os[..|os|] == os;
    r := Ok(order);
  }

  method Compile(views: map<string, View>, q: Request, parse: string -> Option<int>) returns (r: Result<Compiled>)
    ensures r == CompileSpec(views, q, parse)
  {
    if q.view !in views {
      return Err(UnknownView);
    }
    var v := views[q.view];
    if Grouped(q) && q.fields != [] {
      return Err(MixedFields);
    }
    var cols := BuildColumns(v, WantedColumns(v, q));
    if cols.Err? {
      return Err(cols.error);
    }
    if |q.filters| > MAX_FILTERS {
      return Err(TooManyFilters);
    }
    var where := BuildWhere(v, q.filters, parse);
    if where.Err? {
      return Err(where.error);
    }
    var order := BuildOrder(Names(cols.value), q.orderBy);
    if order.Err? {
      return Err(order.error);
    }
    r := Assemble(v, q, cols.value, where.value, order.value);
  }

  /******* What Compile guarantees *******/

  /** Filters that differ in their values only, with value lists of equal length. */
  predicate SameShape(f: Filter, g: Filter) {
    f.field == g.field && f.op == g.op
    && (f.value.JList? && g.value.JList? ==> |f.value.items| == |g.value.items|)
  }

  lemma ValueInvisible(v: View, f: Filter, g: Filter, parse: string -> Option<int>)
    requires SameShape(f, g) && CompileFilter(v, f, parse).Ok? && CompileFilter(v, g, parse).Ok?
    ensures CompileFilter(v, f, parse).value.0 == CompileFilter(v, g, parse).value.0
  {
  }

  lemma {:induction false} ValuesInvisible(v: View, fs: seq<Filter>, gs: seq<Filter>, parse: string -> Option<int>)
    requires |fs| == |gs| && forall i :: 0 <= i < |fs| ==> SameShape(fs[i], gs[i])
    requires CompileFilters(v, fs, parse).Ok? && CompileFilters(v, gs, parse).Ok?
    ensures CompileFilters(v, fs, parse).value.0 == CompileFilters(v, gs, parse).value.0
  {
    if fs != [] {
      ValuesInvisible(v, fs[..|fs| - 1], gs[..|gs| - 1], parse);
      ValueInvisible(v, fs[|fs| - 1], gs[|gs| - 1], parse);
    }
  }

  /** Two accepted requests that differ only in values give the same statement, hence the same text. */
  lemma ValuesNeverInText(views: map<string, View>, q: Request, p: Request, parse: string -> Option<int>)
    requires |q.filters| == |p.filters| && forall i :: 0 <= i < |q.filters| ==> SameShape(q.filters[i], p.filters[i])
    requires p == q.(filters := p.filters, limit := p.limit, offset := p.offset)
    requires CompileSpec(views, q, parse).Ok? && CompileSpec(views, p, parse).Ok?
    ensures CompileSpec(views, q, parse).value.statement == CompileSpec(views, p, parse).value.statement
    ensures Render(CompileSpec(views, q, parse).value.statement) == Render(CompileSpec(views, p, parse).value.statement)
  {
    ValuesInvisible(views[q.view], q.filters, p.filters, parse);
  }

  lemma {:induction false} ColumnsEach(v: View, ws: seq<Wanted>, i: nat)
    requires CompileColumns(v, ws).Ok? && i < |ws|
    ensures CompileColumn(v, ws[i]) == Ok(CompileColumns(v, ws).value[i])
  {
    if i < |ws| - 1 {
      ColumnsEach(v, ws[..|ws| - 1], i);
    }
  }

  /** The columns and the grouping of an accepted request. */
  lemma SpecColumns(views: map<string, View>, q: Request, parse: string -> Option<int>)
    requires CompileSpec(views, q, parse).Ok?
    ensures
      var st, v := CompileSpec(views, q, parse).value.statement, views[q.view];
      && CompileColumns(v, WantedColumns(v, q)) == Ok(st.columns) && st.from == v.from
      && (Grouped(q) ==>
            q.fields == [] && |q.groupBy| <= |st.columns| && st.group == GroupExprs(st.columns, |q.groupBy|))
      && (!Grouped(q) ==> st.group == [])
  {
  }

  /** The statement selects the fields asked for, or the default ones. */
  lemma SelectMeaning(views: map<string, View>, q: Request, parse: string -> Option<int>, i: nat)
    requires CompileSpec(views, q, parse).Ok? && q.groupBy == [] && q.aggregates == []
    ensures
      var st, v := CompileSpec(views, q, parse).value.statement, views[q.view];
      var names := if q.fields == [] then DefaultNames(v.fields) else q.fields;
      && st.from == v.from && st.group == [] && |st.columns| == |names|
      && (i < |names| ==> ShowsField(v, st.columns[i], names[i]))
  {
    var v := views[q.view];
    SpecColumns(views, q, parse);
    if i < |WantedColumns(v, q)| {
      ColumnsEach(v, WantedColumns(v, q), i);
    }
  }

  /** A grouped statement selects and groups by the groups asked for, then selects the aggregates, or the count. */
  lemma GroupMeaning(views: map<string, View>, q: Request, parse: string -> Option<int>, i: nat)
    requires CompileSpec(views, q, parse).Ok? && (q.groupBy != [] || q.aggregates != [])
    ensures
      var st, v := CompileSpec(views, q, parse).value.statement, views[q.view];
      && |st.group| == |q.groupBy| && |st.columns| == |q.groupBy| + Max(1, |q.aggregates|)
      && (i < |q.groupBy| ==> ShowsField(v, st.columns[i], q.groupBy[i]) && st.group[i] == st.columns[i].expr)
  {
    var v := views[q.view];
    SpecColumns(views, q, parse);
    if i < |q.groupBy| {
      ColumnsEach(v, WantedColumns(v, q), i);
    }
  }

  /** The aggregates follow the groups, in the order asked for. */
  lemma AggregateMeaning(v: View, q: Request, columns: seq<Column>, i: nat)
    requires CompileColumns(v, WantedColumns(v, q)) == Ok(columns) && i < |q.aggregates|
    ensures |q.groupBy| + i < |columns| && CompileAggregate(v, q.aggregates[i]) == Ok(columns[|q.groupBy| + i])
  {
    WantedAggregate(v, q, i);
    ColumnsEach(v, WantedColumns(v, q), |q.groupBy| + i);
  }

  lemma WantedAggregate(v: View, q: Request, i: nat)
    requires i < |q.aggregates|
    ensures |q.groupBy| + i < |WantedColumns(v, q)|
    ensures WantedColumns(v, q)[|q.groupBy| + i] == AggregateColumn(q.aggregates[i])
  {
  }

  predicate ShowsField(v: View, c: Column, name: string) {
    FieldOf(v.fields, name).Some? &&
    c == Column(name, FieldOf(v.fields, name).value.expr, FieldOf(v.fields, name).value.kind)
  }

  /** Without fields or groups, the columns are the view's default fields. */
  lemma {:induction false} DefaultsMeaning(fields: seq<Field>, name: string)
    ensures name in DefaultNames(fields) <==> exists f :: f in fields && f.isDefault && f.name == name
  {
    if fields != [] {
      DefaultsMeaning(fields[1..], name);
      assert fields == [fields[0]] + fields[1..];
    }
  }

  /** What an accepted request keeps to. */
  lemma AcceptedLimits(views: map<string, View>, q: Request, parse: string -> Option<int>)
    requires CompileSpec(views, q, parse).Ok?
    ensures q.view in views && (q.fields == [] || (q.groupBy == [] && q.aggregates == []))
    ensures |q.filters| <= 32 && q.offset >= 0
    ensures CompileSpec(views, q, parse).value.limit == (if q.limit <= 0 then 100 else q.limit) <= 1000
  {
  }

  /** What an accepted filter keeps to. */
  lemma AcceptedFilter(v: View, f: Filter, parse: string -> Option<int>)
    requires CompileFilter(v, f, parse).Ok?
    ensures FieldOf(v.fields, f.field).Some? && f.op.Some?
    ensures f.op.value in {In, Nin} ==> f.value.JList? && 1 <= |f.value.items| <= 500
    ensures f.op.value in {Contains, Prefix} ==>
      FieldOf(v.fields, f.field).value.kind.KindText? && f.value.JString? && f.value.s != ""
    ensures FieldOf(v.fields, f.field).value.kind.KindBool? && IsComparison(f.op.value) ==> f.op.value in {Eq, Ne}
  {
  }

  /** Each ORDER BY position denotes the named column, and no other column has that name. */
  lemma OrderMeaning(views: map<string, View>, q: Request, parse: string -> Option<int>, i: nat)
    requires CompileSpec(views, q, parse).Ok? && i < |q.orderBy|
    ensures
      var st := CompileSpec(views, q, parse).value.statement;
      |st.order| == |q.orderBy| && 1 <= st.order[i].0 <= |st.columns| && st.order[i].1 == q.orderBy[i].desc
      && forall k :: 0 <= k < |st.columns| ==>
        (st.columns[k].name == q.orderBy[i].field <==> k == st.order[i].0 - 1)
  {
    var st := CompileSpec(views, q, parse).value.statement;
    SpecOrder(views, q, parse);
    OrderAt(st.columns, q.orderBy, st.order, i);
  }

  lemma SpecOrder(views: map<string, View>, q: Request, parse: string -> Option<int>)
    requires CompileSpec(views, q, parse).Ok?
    ensures
      var st := CompileSpec(views, q, parse).value.statement;
      Distinct(Names(st.columns)) && OrderFits(Names(st.columns), q.orderBy, st.order)
  {
  }

  /** Each item holds the position of its name, and its direction. */
  ghost predicate OrderFits(names: seq<string>, os: seq<Order>, order: seq<(nat, bool)>) {
    |order| == |os| && forall i :: 0 <= i < |os| ==>
      0 < order[i].0 <= |names| && names[order[i].0 - 1] == os[i].field && order[i].1 == os[i].desc
  }

  lemma OrderAt(columns: seq<Column>, os: seq<Order>, order: seq<(nat, bool)>, i: nat)
    requires Distinct(Names(columns)) && OrderFits(Names(columns), os, order) && i < |os|
    ensures |order| == |os| && 1 <= order[i].0 <= |columns| && order[i].1 == os[i].desc
    ensures forall k :: 0 <= k < |columns| ==> (columns[k].name == os[i].field <==> k == order[i].0 - 1)
  {
    var names := Names(columns);
    forall k | 0 <= k < |columns| ensures columns[k].name == os[i].field <==> k == order[i].0 - 1 {
      assert names[k] == columns[k].name && names[order[i].0 - 1] == os[i].field;
    }
  }

  /** The accepted statement's WHERE clause, with the leading arguments, means the request's filters. */
  lemma CompileMeaning<Val(!new)>(
    d: Database<Val>, row: string -> Val, views: map<string, View>, q: Request, parse: string -> Option<int>)
    requires CompileSpec(views, q, parse).Ok?
    ensures
      var c := CompileSpec(views, q, parse).value;
      var n := TotalHoles(c.statement.conds);
      && |c.args| == n + 2
      && c.args[n..] == [Int(c.limit + 1), Int(q.offset)]
      && (WhereHolds(d, row, c.statement.conds, c.args[..n]) <==> AllBound(d, row, views[q.view], q.filters, parse))
      && (AllKept(views[q.view], q.filters) ==>
            (WhereHolds(d, row, c.statement.conds, c.args[..n]) <==> AllHold(d, row, views[q.view], q.filters, parse)))
  {
    WhereBound(d, row, views[q.view], q.filters, parse);
    WhereMeaning(d, row, views[q.view], q.filters, parse);
    var c := CompileSpec(views, q, parse).value;
    var args := CompileFilters(views[q.view], q.filters, parse).value.1;
    assert c.args[..|args|] == args;
  }

  /******* The text *******/

  const MARK: char := '?'

  function Marks(s: string): nat {
    if s == [] then 0 else (if s[0] == MARK then 1 else 0) + Marks(s[1..])
  }

  lemma {:induction false} MarksConcat(a: string, b: string)
    ensures Marks(a + b) == Marks(a) + Marks(b)
  {
    if a == [] {
      assert a + b == b;
    } else {
      MarksConcat(a[1..], b);
      assert (a + b)[1..] == a[1..] + b;
    }
  }

  lemma {:induction false} MarksNone(s: string)
    requires MARK !in s
    ensures Marks(s) == 0
  {
    if s != [] {
      MarksNone(s[1..]);
    }
  }

  function Placeholders(n: nat): string {
    if n == 0 then "" else if n == 1 then [MARK] else [MARK] + ", " + Placeholders(n - 1)
  }

  function OpText(op: Op): string {
    match op
    case Eq => "="
    case Ne => "!="
    case Lt => "<"
    case Lte => "<="
    case Gt => ">"
    case Gte => ">="
    case _ => ""
  }

  /** What follows the expression in a condition. */
  function Suffix(c: Cond): string {
    match c
    case NullCond(_, negated) => if negated then "IS NOT NULL" else "IS NULL"
    case InCond(_, negated, n) => (if negated then "NOT IN " else "IN ") + ("(" + Placeholders(n) + ")")
    case LikeCond(_) => "LIKE ? ESCAPE '\\'"
    case CompareCond(_, op) => OpText(op) + " " + [MARK]
  }

  function RenderCond(c: Cond): string { c.expr + " " + Suffix(c) }

  function JoinWith(parts: seq<string>, sep: string): string {
    if parts == [] then "" else if |parts| == 1 then parts[0]
    else parts[0] + sep + JoinWith(parts[1..], sep)
  }

  function MapAll<A, B>(s: seq<A>, f: A -> B): seq<B> {
    if s == [] then [] else MapAll(s[..|s| - 1], f) + [f(s[|s| - 1])]
  }

  lemma {:induction false} MapPrefix<A, B>(s: seq<A>, f: A -> B, i: nat)
    requires i <= |s|
    ensures |MapAll(s, f)| == |s| && MapAll(s, f)[..i] == MapAll(s[..i], f)
    ensures i < |s| ==> MapAll(s, f)[i] == f(s[i])
  {
    if s != [] {
      var init := s[..|s| - 1];
      if i < |s| {
        MapPrefix(init, f, i);
        assert init[..i] == s[..i];
      } else {
        MapPrefix(init, f, |init|);
        assert s[..i] == s;
      }
    }
  }

  function RenderConds(cs: seq<Cond>): seq<string> { MapAll(cs, RenderCond) }

  function Itoa(n: nat): string {
    if n < 10 then ['0' + n as char] else Itoa(n / 10) + ['0' + (n % 10) as char]
  }

  function RenderOrder(os: seq<(nat, bool)>): seq<string> {
    if os == [] then []
    else [Itoa(os[0].0) + (if os[0].1 then " DESC" else " ASC")] + RenderOrder(os[1..])
  }

  function Exprs(cols: seq<Column>): seq<string> {
    if cols == [] then [] else [cols[0].expr] + Exprs(cols[1..])
  }

  function Clause(keyword: string, parts: seq<string>, sep: string): string {
    if parts == [] then "" else keyword + JoinWith(parts, sep)
  }

  function Head(st: Statement): string { "SELECT " + JoinWith(Exprs(st.columns), ", ") + " FROM " + st.from }

  /** Everything after the WHERE clause. */
  function Tail(st: Statement): string {
    Clause(" GROUP BY ", st.group, ", ") + Clause(" ORDER BY ", RenderOrder(st.order), ", ")
    + (" LIMIT " + [MARK] + " OFFSET " + [MARK])
  }

  function Render(st: Statement): string {
    Head(st) + Clause(" WHERE ", RenderConds(st.conds), " AND ") + Tail(st)
  }

  /** The package's own SQL fragments hold no placeholder. */
  ghost predicate MarkFree(v: View) {
    MARK !in v.from && forall f :: f in v.fields ==> MARK !in f.expr
  }

  lemma {:induction false} PlaceholderMarks(n: nat)
    ensures Marks(Placeholders(n)) == n
  {
    if n == 1 {
      assert [MARK][1..] == [];
    } else if n > 1 {
      PlaceholderMarks(n - 1);
      MarksConcat([MARK] + ", ", Placeholders(n - 1));
      MarksConcat([MARK], ", ");
      MarksNone(", ");
      assert [MARK][1..] == [];
    }
  }

  lemma OneMark(a: string, b: string)
    requires MARK !in a && MARK !in b
    ensures Marks(a + [MARK] + b) == 1 && Marks(a + [MARK]) == 1
  {
    MarksConcat(a + [MARK], b);
    MarksConcat(a, [MARK]);
    MarksNone(a);
    MarksNone(b);
    assert [MARK][1..] == [];
  }

  lemma SuffixMarks(c: Cond)
    ensures Marks(Suffix(c)) == Holes(c)
  {
    match c
    case NullCond(_, _) => MarksNone(Suffix(c));
    case InCond(_, negated, n) => ListMarks(if negated then "NOT IN " else "IN ", n);
    case LikeCond(_) =>
      OneMark("LIKE ", " ESCAPE '\\'");
      assert Suffix(c) == "LIKE " + [MARK] + " ESCAPE '\\'";
    case CompareCond(_, op) => OneMark(OpText(op) + " ", "");
  }

  lemma ListMarks(word: string, n: nat)
    requires MARK !in word
    ensures Marks(word + ("(" + Placeholders(n) + ")")) == n
  {
    MarksConcat(word, "(" + Placeholders(n) + ")");
    MarksConcat("(" + Placeholders(n), ")");
    MarksConcat("(", Placeholders(n));
    MarksNone(word);
    MarksNone("(");
    MarksNone(")");
    PlaceholderMarks(n);
  }

  lemma CondMarks(c: Cond)
    requires MARK !in c.expr
    ensures Marks(RenderCond(c)) == Holes(c)
  {
    MarksConcat(c.expr + " ", Suffix(c));
    MarksNone(c.expr + " ");
    SuffixMarks(c);
  }

  function SumMarks(parts: seq<string>): nat {
    if parts == [] then 0 else Marks(parts[0]) + SumMarks(parts[1..])
  }

  lemma {:induction false} JoinMarks(parts: seq<string>, sep: string)
    requires MARK !in sep
    ensures Marks(JoinWith(parts, sep)) == SumMarks(parts)
  {
    if |parts| == 1 {
      assert parts[1..] == [];
    } else if |parts| > 1 {
      JoinMarks(parts[1..], sep);
      MarksConcat(parts[0] + sep, JoinWith(parts[1..], sep));
      MarksConcat(parts[0], sep);
      MarksNone(sep);
    }
  }

  lemma ClauseMarks(keyword: string, parts: seq<string>, sep: string)
    requires MARK !in keyword && MARK !in sep
    ensures Marks(Clause(keyword, parts, sep)) == SumMarks(parts)
  {
    MarksConcat(keyword, JoinWith(parts, sep));
    MarksNone(keyword);
    JoinMarks(parts, sep);
  }

  lemma {:induction false} SumMarksSnoc(parts: seq<string>, last: string)
    ensures SumMarks(parts + [last]) == SumMarks(parts) + Marks(last)
  {
    if parts == [] {
      assert parts + [last] == [last] && [last][1..] == [];
    } else {
      SumMarksSnoc(parts[1..], last);
      assert (parts + [last])[1..] == parts[1..] + [last];
    }
  }

  lemma {:induction false} SumMarksNone(parts: seq<string>)
    requires forall p :: p in parts ==> MARK !in p
    ensures SumMarks(parts) == 0
  {
    if parts != [] {
      assert MARK !in parts[0];
      MarksNone(parts[0]);
      SumMarksNone(parts[1..]);
    }
  }

  lemma {:induction false} CondsMarks(cs: seq<Cond>)
    requires forall c :: c in cs ==> MARK !in c.expr
    ensures SumMarks(RenderConds(cs)) == TotalHoles(cs)
  {
    if cs != [] {
      assert MARK !in cs[|cs| - 1].expr;
      CondMarks(cs[|cs| - 1]);
      CondsMarks(cs[..|cs| - 1]);
      SumMarksSnoc(RenderConds(cs[..|cs| - 1]), RenderCond(cs[|cs| - 1]));
    }
  }

  lemma {:induction false} ItoaMarks(n: nat)
    ensures MARK !in Itoa(n)
  {
    if n >= 10 {
      ItoaMarks(n / 10);
    }
  }

  lemma {:induction false} OrderMarks(os: seq<(nat, bool)>)
    ensures forall p :: p in RenderOrder(os) ==> MARK !in p
  {
    if os != [] {
      ItoaMarks(os[0].0);
      OrderMarks(os[1..]);
    }
  }

  lemma {:induction false} FieldOfIn(fields: seq<Field>, name: string)
    ensures FieldOf(fields, name).Some? ==> FieldOf(fields, name).value in fields
  {
    if fields != [] && fields[0].name != name {
      FieldOfIn(fields[1..], name);
    }
  }

  lemma {:induction false} ConditionsMarkFree(v: View, fs: seq<Filter>, parse: string -> Option<int>)
    requires MarkFree(v) && CompileFilters(v, fs, parse).Ok?
    ensures forall c :: c in CompileFilters(v, fs, parse).value.0 ==> MARK !in c.expr
  {
    if fs != [] {
      ConditionsMarkFree(v, fs[..|fs| - 1], parse);
      FieldOfIn(v.fields, fs[|fs| - 1].field);
    }
  }

  lemma FnNameMarkFree(fn: Fn)
    ensures MARK !in FnName(fn) + "("
  {
  }

  lemma ColumnMarkFree(v: View, w: Wanted)
    requires MarkFree(v) && CompileColumn(v, w).Ok?
    ensures MARK !in CompileColumn(v, w).value.expr
  {
    if w.AggregateColumn? {
      FieldOfIn(v.fields, w.aggregate.field);
      FnNameMarkFree(w.aggregate.fn.value);
    } else {
      FieldOfIn(v.fields, w.name);
    }
  }

  lemma {:induction false} ColumnsMarkFree(v: View, ws: seq<Wanted>)
    requires MarkFree(v) && CompileColumns(v, ws).Ok?
    ensures forall c :: c in CompileColumns(v, ws).value ==> MARK !in c.expr
  {
    if ws != [] {
      ColumnsMarkFree(v, ws[..|ws| - 1]);
      ColumnMarkFree(v, ws[|ws| - 1]);
    }
  }

  lemma {:induction false} ExprsMarkFree(cols: seq<Column>)
    requires forall c :: c in cols ==> MARK !in c.expr
    ensures forall p :: p in Exprs(cols) ==> MARK !in p
  {
    if cols != [] {
      assert MARK !in cols[0].expr;
      ExprsMarkFree(cols[1..]);
    }
  }

  lemma TailMarks(st: Statement)
    requires forall p :: p in st.group ==> MARK !in p
    ensures Marks(Tail(st)) == 2
  {
    var group, order := Clause(" GROUP BY ", st.group, ", "), Clause(" ORDER BY ", RenderOrder(st.order), ", ");
    var limit := " LIMIT " + [MARK] + " OFFSET " + [MARK];
    ClauseMarks(" GROUP BY ", st.group, ", ");
    SumMarksNone(st.group);
    ClauseMarks(" ORDER BY ", RenderOrder(st.order), ", ");
    OrderMarks(st.order);
    SumMarksNone(RenderOrder(st.order));
    MarksConcat(group + order, limit);
    MarksConcat(group, order);
    LimitMarks();
  }

  lemma LimitMarks()
    ensures Marks(" LIMIT " + [MARK] + " OFFSET " + [MARK]) == 2
  {
    MarksConcat(" LIMIT " + [MARK] + " OFFSET ", [MARK]);
    OneMark(" LIMIT ", " OFFSET ");
    OneMark("", "");
    assert "" + [MARK] == [MARK];
  }

  lemma RenderMarks(st: Statement)
    requires NoMarks(st)
    requires forall p :: p in st.group ==> MARK !in p
    ensures Marks(Render(st)) == TotalHoles(st.conds) + 2
  {
    var where := Clause(" WHERE ", RenderConds(st.conds), " AND ");
    HeadMarks(st);
    ClauseMarks(" WHERE ", RenderConds(st.conds), " AND ");
    CondsMarks(st.conds);
    TailMarks(st);
    MarksConcat(Head(st) + where, Tail(st));
    MarksConcat(Head(st), where);
  }

  lemma HeadMarks(st: Statement)
    requires MARK !in st.from && forall c :: c in st.columns ==> MARK !in c.expr
    ensures Marks(Head(st)) == 0
  {
    ExprsMarkFree(st.columns);
    SumMarksNone(Exprs(st.columns));
    JoinMarks(Exprs(st.columns), ", ");
    SelectMarks(JoinWith(Exprs(st.columns), ", "), st.from);
  }

  lemma SelectMarks(columns: string, from: string)
    requires MARK !in from
    ensures Marks("SELECT " + columns + " FROM " + from) == Marks(columns)
  {
    MarksConcat("SELECT ", columns);
    MarksConcat("SELECT " + columns + " FROM ", from);
    MarksConcat("SELECT " + columns, " FROM ");
    MarksNone("SELECT ");
    MarksNone(" FROM ");
    MarksNone(from);
  }

  /** The text has exactly one placeholder per bound argument. */
  lemma OnePlaceholderPerArgument(views: map<string, View>, q: Request, parse: string -> Option<int>)
    requires forall name :: name in views ==> MarkFree(views[name])
    requires CompileSpec(views, q, parse).Ok?
    ensures
      var c := CompileSpec(views, q, parse).value;
      Marks(Render(c.statement)) == |c.args|
  {
    var v := views[q.view];
    var c := CompileSpec(views, q, parse).value;
    ConditionsMarkFree(v, q.filters, parse);
    ColumnsMarkFree(v, WantedColumns(v, q));
    RenderMarks(c.statement);
    HolesCounted(v, q.filters, parse);
  }

  /******* Each placeholder belongs to its own filter *******/

  /** A joined text around its part `i`, with the placeholders before it. */
  lemma {:induction false} JoinAround(parts: seq<string>, sep: string, i: nat) returns (pre: string, post: string)
    requires i < |parts| && MARK !in sep
    ensures JoinWith(parts, sep) == pre + parts[i] + post && Marks(pre) == SumMarks(parts[..i])
    decreases |parts|
  {
    if i == 0 {
      pre, post := "", if |parts| == 1 then "" else sep + JoinWith(parts[1..], sep);
      JoinFirst(parts, sep);
    } else {
      var inner;
      inner, post := JoinAround(parts[1..], sep, i - 1);
      pre := parts[0] + sep + inner;
      FrontMarks(parts[0], sep, inner);
      assert parts[..i][1..] == parts[1..][..i - 1];
      FrontGroup(parts[0] + sep, inner, parts[i], post);
    }
  }

  lemma JoinFirst(parts: seq<string>, sep: string)
    requires parts != []
    ensures JoinWith(parts, sep) == "" + parts[0] + (if |parts| == 1 then "" else sep + JoinWith(parts[1..], sep))
  {
  }

  lemma FrontGroup(front: string, inner: string, x: string, post: string)
    ensures front + (inner + x + post) == (front + inner) + x + post
  {
  }

  lemma FrontMarks(a: string, sep: string, b: string)
    requires MARK !in sep
    ensures Marks(a + sep + b) == Marks(a) + Marks(b)
  {
    MarksConcat(a + sep, b);
    MarksConcat(a, sep);
    MarksNone(sep);
  }

  /** The text around condition `i`, with the placeholders before it. */
  lemma RenderAround(st: Statement, i: nat) returns (pre: string, post: string)
    requires NoMarks(st) && i < |st.conds|
    ensures Render(st) == pre + RenderCond(st.conds[i]) + post
    ensures Marks(pre) == TotalHoles(st.conds[..i])
  {
    HeadMarks(st);
    MapPrefix(st.conds, RenderCond, i);
    CondsMarks(st.conds[..i]);
    var before, after := JoinAround(RenderConds(st.conds), " AND ", i);
    FrontMarks(Head(st), " WHERE ", before);
    RenderIs(st);
    pre, post := Around(Head(st), before, RenderCond(st.conds[i]), after, Tail(st));
  }

  lemma RenderIs(st: Statement)
    requires RenderConds(st.conds) != []
    ensures Render(st) == Head(st) + (" WHERE " + JoinWith(RenderConds(st.conds), " AND ")) + Tail(st)
  {
  }

  lemma Around(h: string, before: string, x: string, after: string, t: string) returns (pre: string, post: string)
    ensures pre == h + " WHERE " + before
    ensures h + (" WHERE " + (before + x + after)) + t == pre + x + post
  {
    pre, post := h + " WHERE " + before, after + t;
    Regroup(h, " WHERE ", before, x, after, t);
  }

  lemma Regroup(h: string, w: string, before: string, x: string, after: string, t: string)
    ensures h + (w + (before + x + after)) + t == (h + w + before) + x + (after + t)
  {
  }

  /** Condition `i` and its stretch of the arguments are what filter `i` compiles to. */
  ghost predicate OwnArgs(conds: seq<Cond>, args: seq<Arg>, i: nat, cond: Cond, own: seq<Arg>) {
    && i < |conds| && conds[i] == cond
    && TotalHoles(conds[..i]) + |own| <= |args|
    && args[TotalHoles(conds[..i])..TotalHoles(conds[..i]) + |own|] == own
  }

  lemma OwnArgsMore(conds: seq<Cond>, args: seq<Arg>, i: nat, cond: Cond, own: seq<Arg>, last: Cond, more: seq<Arg>)
    requires OwnArgs(conds, args, i, cond, own)
    ensures OwnArgs(conds + [last], args + more, i, cond, own)
  {
    assert (conds + [last])[..i] == conds[..i];
    SliceOfPrefix(args, more, TotalHoles(conds[..i]), TotalHoles(conds[..i]) + |own|);
  }

  lemma OwnArgsLast(conds: seq<Cond>, args: seq<Arg>, cond: Cond, own: seq<Arg>)
    requires TotalHoles(conds) == |args|
    ensures OwnArgs(conds + [cond], args + own, |conds|, cond, own)
  {
    assert (conds + [cond])[..|conds|] == conds;
  }

  lemma {:induction false} FilterArgs(v: View, fs: seq<Filter>, parse: string -> Option<int>, i: nat)
    requires CompileFilters(v, fs, parse).Ok? && i < |fs|
    ensures CompileFilter(v, fs[i], parse).Ok?
    ensures OwnArgs(CompileFilters(v, fs, parse).value.0, CompileFilters(v, fs, parse).value.1, i,
                    CompileFilter(v, fs[i], parse).value.0, CompileFilter(v, fs[i], parse).value.1)
  {
    var init, last := fs[..|fs| - 1], CompileFilter(v, fs[|fs| - 1], parse).value;
    var (conds, args) := CompileFilters(v, init, parse).value;
    if i < |init| {
      FilterArgs(v, init, parse, i);
      var (cond, own) := CompileFilter(v, fs[i], parse).value;
      OwnArgsMore(conds, args, i, cond, own, last.0, last.1);
    } else {
      HolesCounted(v, init, parse);
      CompileLength(v, init, parse);
      OwnArgsLast(conds, args, last.0, last.1);
    }
  }

  lemma {:induction false} CompileLength(v: View, fs: seq<Filter>, parse: string -> Option<int>)
    requires CompileFilters(v, fs, parse).Ok?
    ensures |CompileFilters(v, fs, parse).value.0| == |fs|
  {
    if fs != [] {
      CompileLength(v, fs[..|fs| - 1], parse);
    }
  }

  /**
   The placeholders in the text of filter `i`'s condition are, counted from the left, exactly those bound
   to the arguments filter `i` compiles to.
   */
  lemma PlaceholdersBound(views: map<string, View>, q: Request, parse: string -> Option<int>, i: nat)
    returns (pre: string, text: string, post: string)
    requires forall name :: name in views ==> MarkFree(views[name])
    requires CompileSpec(views, q, parse).Ok? && i < |q.filters|
    ensures CompileFilter(views[q.view], q.filters[i], parse).Ok?
    ensures BoundTo(CompileSpec(views, q, parse).value, CompileFilter(views[q.view], q.filters[i], parse).value,
                    pre, text, post)
  {
    SpecParts(views, q, parse);
    FilterArgs(views[q.view], q.filters, parse, i);
    FilterHoles(views[q.view], q.filters[i], parse);
    pre, text, post := BoundAt(
      CompileSpec(views, q, parse).value, CompileFilters(views[q.view], q.filters, parse).value.1, i,
      CompileFilter(views[q.view], q.filters[i], parse).value);
  }

  /** `text` is the rendered condition inside the statement, and its placeholders are bound to its own arguments. */
  ghost predicate BoundTo(c: Compiled, own: (Cond, seq<Arg>), pre: string, text: string, post: string) {
    && Render(c.statement) == pre + text + post && text == RenderCond(own.0) && Marks(text) == |own.1|
    && Marks(pre) + Marks(text) <= |c.args| && c.args[Marks(pre)..Marks(pre) + Marks(text)] == own.1
  }

  /** The conditions and leading arguments of an accepted request are those of its filters. */
  lemma SpecParts(views: map<string, View>, q: Request, parse: string -> Option<int>)
    requires forall name :: name in views ==> MarkFree(views[name])
    requires CompileSpec(views, q, parse).Ok?
    ensures CompileFilters(views[q.view], q.filters, parse).Ok?
    ensures
      var c := CompileSpec(views, q, parse).value;
      var (conds, args) := CompileFilters(views[q.view], q.filters, parse).value;
      NoMarks(c.statement) && c.statement.conds == conds && args <= c.args
  {
    ConditionsMarkFree(views[q.view], q.filters, parse);
    ColumnsMarkFree(views[q.view], WantedColumns(views[q.view], q));
  }

  /** The fragments before and in the WHERE clause hold no placeholder of their own. */
  ghost predicate NoMarks(st: Statement) {
    && MARK !in st.from
    && (forall c :: c in st.columns ==> MARK !in c.expr)
    && (forall c :: c in st.conds ==> MARK !in c.expr)
  }

  lemma BoundAt(c: Compiled, args: seq<Arg>, i: nat, own: (Cond, seq<Arg>))
    returns (pre: string, text: string, post: string)
    requires NoMarks(c.statement) && args <= c.args
    requires OwnArgs(c.statement.conds, args, i, own.0, own.1) && |own.1| == Holes(own.0)
    ensures BoundTo(c, own, pre, text, post)
  {
    pre, post := RenderAround(c.statement, i);
    text := RenderCond(own.0);
    CondMarks(own.0);
    assert c.args == args + c.args[|args|..];
    SliceOfPrefix(args, c.args[|args|..], Marks(pre), Marks(pre) + |own.1|);
  }

  lemma SliceOfPrefix(a: seq<Arg>, b: seq<Arg>, i: nat, j: nat)
    requires i <= j <= |a|
    ensures (a + b)[i..j] == a[i..j]
  {
  }

  lemma FilterHoles(v: View, f: Filter, parse: string -> Option<int>)
    requires CompileFilter(v, f, parse).Ok?
    ensures |CompileFilter(v, f, parse).value.1| == Holes(CompileFilter(v, f, parse).value.0)
  {
  }

  lemma {:induction false} HolesCounted(v: View, fs: seq<Filter>, parse: string -> Option<int>)
    requires CompileFilters(v, fs, parse).Ok?
    ensures |CompileFilters(v, fs, parse).value.1| == TotalHoles(CompileFilters(v, fs, parse).value.0)
  {
    if fs != [] {
      HolesCounted(v, fs[..|fs| - 1], parse);
      FilterHoles(v, fs[|fs| - 1], parse);
      var init := CompileFilters(v, fs[..|fs| - 1], parse).value.0;
      var conds := CompileFilters(v, fs, parse).value.0;
      assert conds[..|conds| - 1] == init;
    }
  }

  /******* The row loop *******/

  /** What LIMIT limit+1 OFFSET offset returns of the full, ordered result. */
  function Window<T>(all: seq<T>, limit: nat, offset: nat): seq<T> {
    var rest := if offset <= |all| then all[offset..] else [];
    if |rest| <= limit then rest else rest[..limit]
  }

  /** It is the rows from position `offset` on, `limit` of them or as many as there are. */
  lemma WindowMeaning<T>(all: seq<T>, limit: nat, offset: nat)
    ensures |Window(all, limit, offset)| == Min(limit, Max(0, |all| - offset))
    ensures forall k :: 0 <= k < |Window(all, limit, offset)| ==> Window(all, limit, offset)[k] == all[offset + k]
  {
  }

  /** The rows are the first `limit` after `offset`, and `truncated` says whether there are more. */
  method Serve<T>(rows: seq<T>, limit: nat, ghost all: seq<T>, ghost offset: nat)
    returns (result: seq<T>, truncated: bool)
    requires rows == Window(all, limit + 1, offset)
    ensures result == Window(all, limit, offset)
    ensures truncated <==> |all| > offset + limit
  {
    result, truncated := [], false;
    var i := 0;
    while i < |rows|
      invariant i <= |rows| && i <= limit && result == rows[..i]
    {
      if |result| == limit {
        truncated := true;
        break;
      }
      result := result + [rows[i]];
      i := i + 1;
    }
  }
}

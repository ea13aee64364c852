/**
 * The query that GetVehiclesWithFilters (models/vehicle.go) builds, and how
 * the database engine reads it.  The builder appends one
 * " AND <column> = $<n>" clause per active filter, numbering placeholders with
 * a running counter, and collects the matching argument list.  The engine
 * side parses that text back into conditions, applies Postgres' rule that a
 * statement takes as many parameters as its highest `$n`, and keeps the
 * vehicles that satisfy every condition.
 */
module FilterQuery {
  import opened Results
  import opened Db

  datatype Column = TypeColumn | BrandColumn | YearColumn

  /** An argument of the bind message. */
  datatype Arg = TextArg(text: string) | IntArg(number: int)

  /** One active filter: the column it constrains and the value it binds. */
  datatype Filter = Filter(column: Column, arg: Arg)

  /** One clause of the WHERE part: `column = $placeholder`. */
  datatype Condition = Condition(column: Column, placeholder: nat)

  const BaseQuery: string := "SELECT * FROM vehicles WHERE 1=1"

  function ColumnName(c: Column): string {
    match c
    case TypeColumn => "type"
    case BrandColumn => "brand"
    case YearColumn => "year"
  }

  /** Position of a column in the order the builder tests the filters. */
  function Rank(c: Column): nat {
    match c
    case TypeColumn => 0
    case BrandColumn => 1
    case YearColumn => 2
  }

  /** The text of a clause up to its placeholder number. */
  function ClauseHead(c: Column): string {
    " AND " + ColumnName(c) + " = $"
  }

  // ---------------------------------------------------------------- decimal numbers

  predicate IsDigit(ch: char) {
    '0' <= ch <= '9'
  }

  predicate AllDigits(s: string) {
    forall i :: 0 <= i < |s| ==> IsDigit(s[i])
  }

  function DigitChar(d: nat): (ch: char)
    requires d < 10
    ensures IsDigit(ch) && ch as int - '0' as int == d
  {
    ('0' as int + d) as char
  }

  /** `fmt.Sprintf("%d", n)` for a non-negative `n`. */
  function Decimal(n: nat): (s: string)
    ensures |s| > 0 && AllDigits(s)
  {
    if n < 10 then [DigitChar(n)] else Decimal(n / 10) + [DigitChar(n % 10)]
  }

  /** The value of a string of decimal digits. */
  function DigitsValue(s: string): nat
    requires AllDigits(s)
  {
    if s == [] then 0 else DigitsValue(s[..|s| - 1]) * 10 + (s[|s| - 1] as int - '0' as int)
  }

  /** Reading back a printed number gives the number. */
  lemma {:induction false} DecimalValue(n: nat)
    ensures DigitsValue(Decimal(n)) == n
  {
    if n >= 10 {
      var s := Decimal(n);
      assert s[..|s| - 1] == Decimal(n / 10);
      DecimalValue(n / 10);
    }
  }

  /** The longest prefix of `s` made of digits. */
  function TakeDigits(s: string): (d: string)
    ensures d <= s && AllDigits(d)
    ensures |d| < |s| ==> !IsDigit(s[|d|])
  {
    if s != [] && IsDigit(s[0]) then [s[0]] + TakeDigits(s[1..]) else []
  }

  lemma {:induction false} TakeDigitsOf(d: string, rest: string)
    requires AllDigits(d)
    requires rest == [] || !IsDigit(rest[0])
    ensures TakeDigits(d + rest) == d
  {
    if d != [] {
      assert (d + rest)[1..] == d[1..] + rest;
      TakeDigitsOf(d[1..], rest);
    } else {
      assert d + rest == rest;
    }
  }

  // ---------------------------------------------------------------- the builder

  /**
   * The filters that are active, in the order the builder tests them: type
   * when non-empty, brand when non-empty, year when positive.
   */
  function ActiveFilters(vehicleType: string, brand: string, year: int): (fs: seq<Filter>)
    ensures |fs| == (if vehicleType != "" then 1 else 0) + (if brand != "" then 1 else 0) + (if year > 0 then 1 else 0)
  {
    (if vehicleType != "" then [Filter(TypeColumn, TextArg(vehicleType))] else [])
    + (if brand != "" then [Filter(BrandColumn, TextArg(brand))] else [])
    + (if year > 0 then [Filter(YearColumn, IntArg(year))] else [])
  }

  /**
   * No filter is active exactly when type and brand are empty and the year
   * is not positive; each filter is present exactly when it is active;
   * nothing else is present; and filters come in the order type, brand, year.
   */
  lemma ActiveFiltersShape(vehicleType: string, brand: string, year: int)
    ensures var fs := ActiveFilters(vehicleType, brand, year);
      && (fs == [] <==> vehicleType == "" && brand == "" && year <= 0)
      && (Filter(TypeColumn, TextArg(vehicleType)) in fs <==> vehicleType != "")
      && (Filter(BrandColumn, TextArg(brand)) in fs <==> brand != "")
      && (Filter(YearColumn, IntArg(year)) in fs <==> year > 0)
      && (forall f :: f in fs ==>
            || f == Filter(TypeColumn, TextArg(vehicleType))
            || f == Filter(BrandColumn, TextArg(brand))
            || f == Filter(YearColumn, IntArg(year)))
      && (forall i, j :: 0 <= i < j < |fs| ==> Rank(fs[i].column) < Rank(fs[j].column))
  {
  }

  /** The clauses for `fs`, with placeholders numbered consecutively from `first`. */
  function Numbered(fs: seq<Filter>, first: nat): (cs: seq<Condition>)
    ensures |cs| == |fs|
    ensures forall k :: 0 <= k < |fs| ==> cs[k] == Condition(fs[k].column, first + k)
  {
    if fs == [] then [] else [Condition(fs[0].column, first)] + Numbered(fs[1..], first + 1)
  }

  /** The arguments bound by `fs`, in order. */
  function ArgsOf(fs: seq<Filter>): (args: seq<Arg>)
    ensures |args| == |fs|
    ensures forall k :: 0 <= k < |fs| ==> args[k] == fs[k].arg
  {
    if fs == [] then [] else [fs[0].arg] + ArgsOf(fs[1..])
  }

  /** The text of a sequence of clauses. */
  function Render(cs: seq<Condition>): string {
    if cs == [] then "" else ClauseHead(cs[0].column) + Decimal(cs[0].placeholder) + Render(cs[1..])
  }

  lemma {:induction false} RenderAppend(cs: seq<Condition>, c: Condition)
    ensures Render(cs + [c]) == Render(cs) + ClauseHead(c.column) + Decimal(c.placeholder)
  {
    if cs == [] {
      assert cs + [c] == [c];
    } else {
      assert (cs + [c])[1..] == cs[1..] + [c];
      RenderAppend(cs[1..], c);
    }
  }

  lemma {:induction false} NumberedAppend(fs: seq<Filter>, f: Filter, first: nat)
    ensures Numbered(fs + [f], first) == Numbered(fs, first) + [Condition(f.column, first + |fs|)]
  {
    if fs == [] {
      assert fs + [f] == [f];
    } else {
      assert (fs + [f])[1..] == fs[1..] + [f];
      NumberedAppend(fs[1..], f, first + 1);
    }
  }

  lemma ArgsAppend(fs: seq<Filter>, f: Filter)
    ensures ArgsOf(fs + [f]) == ArgsOf(fs) + [f.arg]
  {
    var a, b := ArgsOf(fs + [f]), ArgsOf(fs) + [f.arg];
    forall k | 0 <= k < |a| ensures a[k] == b[k] {
      if k < |fs| { assert (fs + [f])[k] == fs[k]; }
    }
  }

  /** Appending two pieces to a prefixed text appends them to the part after the prefix. */
  lemma AppendAfterPrefix(prefix: string, body: string, head: string, number: string)
    ensures prefix + body + head + number == prefix + (body + head + number)
  {
  }

  /**
   * One more filter adds one clause, whose placeholder is the next number,
   * and one argument.
   */
  lemma AppendFilter(fs: seq<Filter>, f: Filter)
    ensures Render(Numbered(fs + [f], 1)) == Render(Numbered(fs, 1)) + ClauseHead(f.column) + Decimal(|fs| + 1)
    ensures ArgsOf(fs + [f]) == ArgsOf(fs) + [f.arg]
  {
    NumberedAppend(fs, f, 1);
    RenderAppend(Numbered(fs, 1), Condition(f.column, |fs| + 1));
    ArgsAppend(fs, f);
  }

  /**
   * One step of the builder: append the clause of `f` with placeholder
   * `paramCount`, append its argument, advance the counter.
   */
  method AppendClause(query: string, args: seq<Arg>, paramCount: nat, ghost used: seq<Filter>, f: Filter)
    returns (query': string, args': seq<Arg>, paramCount': nat)
    requires query == BaseQuery + Render(Numbered(used, 1))
    requires args == ArgsOf(used) && paramCount == |used| + 1
    ensures query' == BaseQuery + Render(Numbered(used + [f], 1))
    ensures args' == ArgsOf(used + [f]) && paramCount' == |used + [f]| + 1
  {
    AppendFilter(used, f);
    AppendAfterPrefix(BaseQuery, Render(Numbered(used, 1)), ClauseHead(f.column), Decimal(paramCount));
    query' := query + ClauseHead(f.column) + Decimal(paramCount);
    args' := args + [f.arg];
    paramCount' := paramCount + 1;
  }

  /**
   * The builder of models/vehicle.go:113-133: it starts from BaseQuery and,
   * for each active filter in turn (type, brand, year), appends its clause
   * with the current value of the placeholder counter, appends its argument
   * and advances the counter.
   */
  method BuildQuery(vehicleType: string, brand: string, year: int) returns (query: string, args: seq<Arg>)
    ensures query == BaseQuery + Render(Numbered(ActiveFilters(vehicleType, brand, year), 1))
    ensures args == ArgsOf(ActiveFilters(vehicleType, brand, year))
    ensures |args| == |ActiveFilters(vehicleType, brand, year)|
    ensures vehicleType == "" && brand == "" && year <= 0 ==>
      query == "SELECT * FROM vehicles WHERE 1=1" && args == []
  {
    query := BaseQuery;
    args := [];
    var paramCount: nat := 1;
    ghost var used: seq<Filter> := [];
    if vehicleType != "" {
      query, args, paramCount := AppendClause(query, args, paramCount, used, Filter(TypeColumn, TextArg(vehicleType)));
      used := used + [Filter(TypeColumn, TextArg(vehicleType))];
    }
    if brand != "" {
      query, args, paramCount := AppendClause(query, args, paramCount, used, Filter(BrandColumn, TextArg(brand)));
      used := used + [Filter(BrandColumn, TextArg(brand))];
    }
    if year > 0 {
      query, args, paramCount := AppendClause(query, args, paramCount, used, Filter(YearColumn, IntArg(year)));
      used := used + [Filter(YearColumn, IntArg(year))];
    }
    assert used == ActiveFilters(vehicleType, brand, year);
  }

  // ---------------------------------------------------------------- the engine's reading

  /** Which clause head `s` starts with, if any. */
  function ParseHead(s: string): (c: Option<Column>)
    ensures c.Some? ==> ClauseHead(c.value) <= s
  {
    if ClauseHead(TypeColumn) <= s then Some(TypeColumn)
    else if ClauseHead(BrandColumn) <= s then Some(BrandColumn)
    else if ClauseHead(YearColumn) <= s then Some(YearColumn)
    else None
  }

  /** The conditions written in `s`, or None when `s` is not a sequence of clauses. */
  function ParseConditions(s: string): Option<seq<Condition>>
    decreases |s|
  {
    if s == [] then Some([])
    else match ParseHead(s)
      case None => None
      case Some(c) =>
        var rest := s[|ClauseHead(c)|..];
        var digits := TakeDigits(rest);
        if digits == [] then None
        else match ParseConditions(rest[|digits|..])
          case None => None
          case Some(tail) => Some([Condition(c, DigitsValue(digits))] + tail)
  }

  lemma ParseHeadOf(c: Column, rest: string)
    ensures ParseHead(ClauseHead(c) + rest) == Some(c)
  {
    var s := ClauseHead(c) + rest;
    assert s[5] == ColumnName(c)[0];
    assert ClauseHead(TypeColumn)[5] == 't' && ClauseHead(BrandColumn)[5] == 'b';
  }

  /** A clause followed by a space or by nothing is read back as that clause. */
  lemma ParseOneClause(c: Condition, tail: string)
    requires tail == [] || tail[0] == ' '
    ensures ParseConditions(ClauseHead(c.column) + Decimal(c.placeholder) + tail)
      == match ParseConditions(tail)
         case None => None
         case Some(cs) => Some([c] + cs)
  {
    var s := ClauseHead(c.column) + Decimal(c.placeholder) + tail;
    assert s == ClauseHead(c.column) + (Decimal(c.placeholder) + tail);
    ParseHeadOf(c.column, Decimal(c.placeholder) + tail);
    var rest := s[|ClauseHead(c.column)|..];
    assert rest == Decimal(c.placeholder) + tail;
    TakeDigitsOf(Decimal(c.placeholder), tail);
    assert rest[|Decimal(c.placeholder)|..] == tail;
    DecimalValue(c.placeholder);
  }

  /** Parsing the rendered text gives back the conditions it was rendered from. */
  lemma {:induction false} ParseRender(cs: seq<Condition>)
    ensures ParseConditions(Render(cs)) == Some(cs)
  {
    if cs != [] {
      var tail := Render(cs[1..]);
      assert tail == [] || tail[0] == ' ';
      ParseOneClause(cs[0], tail);
      ParseRender(cs[1..]);
      assert [cs[0]] + cs[1..] == cs;
    }
  }

  /** The highest placeholder number used, 0 when there is none. */
  function MaxPlaceholder(cs: seq<Condition>): nat {
    if cs == [] then 0
    else if cs[0].placeholder >= MaxPlaceholder(cs[1..]) then cs[0].placeholder
    else MaxPlaceholder(cs[1..])
  }

  /**
   * Postgres infers a statement's parameter count from its highest `$n`
   * and rejects a bind message that supplies a different number; `$0` does
   * not exist.
   */
  predicate Bindable(cs: seq<Condition>, argCount: nat) {
    MaxPlaceholder(cs) == argCount && forall k :: 0 <= k < |cs| ==> cs[k].placeholder >= 1
  }

  /** Whether column `c` of `v` equals `a`; a value of the wrong kind never matches. */
  predicate FieldEquals(v: Vehicle, c: Column, a: Arg) {
    match c
    case TypeColumn => a.TextArg? && v.vehicleType == a.text
    case BrandColumn => a.TextArg? && v.brand == a.text
    case YearColumn => a.IntArg? && v.year == a.number
  }

  /** Whether `v` satisfies every condition, `$n` standing for `args[n - 1]`. */
  predicate Satisfies(v: Vehicle, cs: seq<Condition>, args: seq<Arg>) {
    cs == [] ||
    (&& 1 <= cs[0].placeholder <= |args|
     && FieldEquals(v, cs[0].column, args[cs[0].placeholder - 1])
     && Satisfies(v, cs[1..], args))
  }

  /** The rows that satisfy the conditions, in scan order. */
  function Select(rows: seq<Vehicle>, cs: seq<Condition>, args: seq<Arg>): seq<Vehicle> {
    if rows == [] then []
    else (if Satisfies(rows[0], cs, args) then [rows[0]] else []) + Select(rows[1..], cs, args)
  }

  /** The engine running `SELECT * FROM vehicles WHERE 1=1 <clauses>` with `args`. */
  function ExecuteSelect(vehicles: map<int, Vehicle>, n: int, query: string, args: seq<Arg>)
    : Result<seq<Vehicle>, DbError>
  {
    if !(BaseQuery <= query) then Failure(SyntaxError)
    else match ParseConditions(query[|BaseQuery|..])
      case None => Failure(SyntaxError)
      case Some(cs) =>
        if Bindable(cs, |args|) then Success(Select(Scan(vehicles, n), cs, args)) else Failure(BindMismatch)
  }

  // ---------------------------------------------------------------- what the query means

  /** The filters a vehicle must match: each non-empty text filter and a positive year. */
  predicate MatchesFilters(v: Vehicle, vehicleType: string, brand: string, year: int) {
    && (vehicleType != "" ==> v.vehicleType == vehicleType)
    && (brand != "" ==> v.brand == brand)
    && (year > 0 ==> v.year == year)
  }

  /** The rows that match the filters, in scan order. */
  function FilterRows(rows: seq<Vehicle>, vehicleType: string, brand: string, year: int): seq<Vehicle> {
    if rows == [] then []
    else
      (if MatchesFilters(rows[0], vehicleType, brand, year) then [rows[0]] else [])
      + FilterRows(rows[1..], vehicleType, brand, year)
  }

  /** A row is kept exactly when it is one of the rows and matches every active filter. */
  lemma {:induction false} FilterRowsMembers(rows: seq<Vehicle>, vehicleType: string, brand: string, year: int, v: Vehicle)
    ensures v in FilterRows(rows, vehicleType, brand, year) <==> v in rows && MatchesFilters(v, vehicleType, brand, year)
  {
    if rows != [] {
      FilterRowsMembers(rows[1..], vehicleType, brand, year, v);
      assert rows == [rows[0]] + rows[1..];
    }
  }

  /** With no active filter every row is kept, so listing all vehicles is the same query. */
  lemma {:induction false} NoFilterKeepsAll(rows: seq<Vehicle>, vehicleType: string, brand: string, year: int)
    requires vehicleType == "" && brand == "" && year <= 0
    ensures FilterRows(rows, vehicleType, brand, year) == rows
  {
    if rows != [] {
      NoFilterKeepsAll(rows[1..], vehicleType, brand, year);
      assert rows == [rows[0]] + rows[1..];
    }
  }

  predicate AllHold(v: Vehicle, fs: seq<Filter>) {
    forall k :: 0 <= k < |fs| ==> FieldEquals(v, fs[k].column, fs[k].arg)
  }

  /**
   * With the arguments laid out so that `$first + k` stands for the argument
   * of filter k, the numbered clauses hold exactly when every filter holds.
   */
  lemma {:induction false} SatisfiesNumbered(v: Vehicle, fs: seq<Filter>, first: nat, args: seq<Arg>)
    requires 1 <= first && first + |fs| - 1 <= |args|
    requires forall k :: 0 <= k < |fs| ==> args[first + k - 1] == fs[k].arg
    ensures Satisfies(v, Numbered(fs, first), args) <==> AllHold(v, fs)
    decreases |fs|
  {
    if fs != [] {
      var cs := Numbered(fs, first);
      assert cs[1..] == Numbered(fs[1..], first + 1);
      forall k | 0 <= k < |fs[1..]| ensures args[first + 1 + k - 1] == fs[1..][k].arg {
        assert fs[1..][k] == fs[k + 1];
      }
      SatisfiesNumbered(v, fs[1..], first + 1, args);
      if AllHold(v, fs[1..]) && FieldEquals(v, fs[0].column, fs[0].arg) {
        forall k | 0 <= k < |fs| ensures FieldEquals(v, fs[k].column, fs[k].arg) {
          if k > 0 { assert fs[k] == fs[1..][k - 1]; }
        }
      }
      if AllHold(v, fs) {
        assert FieldEquals(v, fs[0].column, fs[0].arg);
        forall k | 0 <= k < |fs[1..]| ensures FieldEquals(v, fs[1..][k].column, fs[1..][k].arg) {
          assert fs[1..][k] == fs[k + 1];
        }
      }
    }
  }

  lemma AllHoldConcat(v: Vehicle, a: seq<Filter>, b: seq<Filter>)
    ensures AllHold(v, a + b) <==> AllHold(v, a) && AllHold(v, b)
  {
    if AllHold(v, a) && AllHold(v, b) {
      forall k | 0 <= k < |a + b| ensures FieldEquals(v, (a + b)[k].column, (a + b)[k].arg) {
        if k >= |a| { assert (a + b)[k] == b[k - |a|]; }
      }
    }
    if AllHold(v, a + b) {
      forall k | 0 <= k < |a| ensures FieldEquals(v, a[k].column, a[k].arg) {
        assert (a + b)[k] == a[k];
      }
      forall k | 0 <= k < |b| ensures FieldEquals(v, b[k].column, b[k].arg) {
        assert (a + b)[|a| + k] == b[k];
      }
    }
  }

  /** The built clauses, bound to the built arguments, express exactly the filters. */
  lemma ActiveFiltersMeaning(v: Vehicle, vehicleType: string, brand: string, year: int)
    ensures var fs := ActiveFilters(vehicleType, brand, year);
      Satisfies(v, Numbered(fs, 1), ArgsOf(fs)) <==> MatchesFilters(v, vehicleType, brand, year)
  {
    var fs := ActiveFilters(vehicleType, brand, year);
    SatisfiesNumbered(v, fs, 1, ArgsOf(fs));
    var a := if vehicleType != "" then [Filter(TypeColumn, TextArg(vehicleType))] else [];
    var b := if brand != "" then [Filter(BrandColumn, TextArg(brand))] else [];
    var c := if year > 0 then [Filter(YearColumn, IntArg(year))] else [];
    assert fs == (a + b) + c;
    AllHoldConcat(v, a + b, c);
    AllHoldConcat(v, a, b);
    if vehicleType != "" { assert a[0] == Filter(TypeColumn, TextArg(vehicleType)); }
    if brand != "" { assert b[0] == Filter(BrandColumn, TextArg(brand)); }
    if year > 0 { assert c[0] == Filter(YearColumn, IntArg(year)); }
  }

  lemma {:induction false} MaxOfNumbered(fs: seq<Filter>, first: nat)
    ensures MaxPlaceholder(Numbered(fs, first)) == if fs == [] then 0 else first + |fs| - 1
    decreases |fs|
  {
    if fs != [] {
      assert Numbered(fs, first)[1..] == Numbered(fs[1..], first + 1);
      MaxOfNumbered(fs[1..], first + 1);
    }
  }

  lemma {:induction false} SelectIsFilter(rows: seq<Vehicle>, vehicleType: string, brand: string, year: int)
    ensures var fs := ActiveFilters(vehicleType, brand, year);
      Select(rows, Numbered(fs, 1), ArgsOf(fs)) == FilterRows(rows, vehicleType, brand, year)
  {
    if rows != [] {
      ActiveFiltersMeaning(rows[0], vehicleType, brand, year);
      SelectIsFilter(rows[1..], vehicleType, brand, year);
    }
  }

  /**
   * Running the built query with the built arguments succeeds, and returns
   * the scanned vehicles that match every active filter.
   */
  lemma BuiltQueryExecutes(vehicles: map<int, Vehicle>, n: int, vehicleType: string, brand: string, year: int)
    ensures var fs := ActiveFilters(vehicleType, brand, year);
      ExecuteSelect(vehicles, n, BaseQuery + Render(Numbered(fs, 1)), ArgsOf(fs))
      == Success(FilterRows(Scan(vehicles, n), vehicleType, brand, year))
  {
    var fs := ActiveFilters(vehicleType, brand, year);
    var query := BaseQuery + Render(Numbered(fs, 1));
    assert query[|BaseQuery|..] == Render(Numbered(fs, 1));
    ParseRender(Numbered(fs, 1));
    MaxOfNumbered(fs, 1);
    SelectIsFilter(Scan(vehicles, n), vehicleType, brand, year);
  }
}

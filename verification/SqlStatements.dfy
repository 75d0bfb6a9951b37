/**
 * The SQL text and the statements built around a compiled filter (core/character_self_db.py):
 * placeholders in the text, SET values before WHERE values, LIMIT and OFFSET after them.
 */
module SqlStatements {
  import opened Wrappers
  import opened WhereCompiler
  import opened ColumnValues
  import opened SqlMeaning

  // ---- The text of a filter ----

  function Quoted(name: string): string {
    "\"" + name + "\""
  }

  function Placeholders(n: nat): string {
    if n == 0 then "" else if n == 1 then "?" else Placeholders(n - 1) + ",?"
  }

  function OpText(op: CompareOp): string {
    match op case Eq => "=" case Ne => "!=" case Gt => ">" case Lt => "<"
  }

  function Render(c: Clause): string {
    match c
    case InList(column, n) => Quoted(column) + " IN (" + Placeholders(n) + ")"
    case Contains(column) => "CAST(" + Quoted(column) + " AS TEXT) LIKE ? ESCAPE '\\'"
    case NullTest(column, negated) => Quoted(column) + " IS " + (if negated then "NOT " else "") + "NULL"
    case Compare(column, op) => Quoted(column) + " " + OpText(op) + " ?"
  }

  /** `" AND ".join(clauses)` */
  function RenderAll(clauses: seq<Clause>): string {
    if clauses == [] then "" else if |clauses| == 1 then Render(clauses[0])
    else Render(clauses[0]) + " AND " + RenderAll(clauses[1..])
  }

  lemma Glue(a: string, x: string, y: string, z: string)
    ensures a + x + y + z == a + (x + y + z)
  {
  }

  lemma OperatorTexts()
    ensures " " + OpText(Eq) + " ?" == " = ?" && " " + OpText(Ne) + " ?" == " != ?"
    ensures " " + OpText(Gt) + " ?" == " > ?" && " " + OpText(Lt) + " ?" == " < ?"
  {
  }

  /** What each comparison reads as. */
  lemma ComparisonReads(column: string, op: CompareOp)
    ensures Render(Compare(column, op)) ==
            "\"" + column + "\"" + (match op case Eq => " = ?" case Ne => " != ?" case Gt => " > ?" case Lt => " < ?")
  {
    OperatorTexts();
    hide OpText;
    Glue(Quoted(column), " ", OpText(op), " ?");
  }

  lemma NullTexts()
    ensures " IS " + "" + "NULL" == " IS NULL" && " IS " + "NOT " + "NULL" == " IS NOT NULL"
  {
  }

  /** What the tests for NULL and for a substring read as. */
  lemma TestReads(column: string, negated: bool)
    ensures Render(NullTest(column, negated)) == "\"" + column + "\"" + (if negated then " IS NOT NULL" else " IS NULL")
    ensures Render(Contains(column)) == "CAST(" + ("\"" + column + "\"") + " AS TEXT) LIKE ? ESCAPE '\\'"
  {
    NullTexts();
    Glue(Quoted(column), " IS ", if negated then "NOT " else "", "NULL");
  }

  lemma ListTexts()
    ensures " IN (" + Placeholders(1) + ")" == " IN (?)" && " IN (" + Placeholders(3) + ")" == " IN (?,?,?)"
  {
    assert Placeholders(2) == "?,?";
    assert Placeholders(3) == "?,?,?";
  }

  /** What a membership test reads as, for one value and for three. */
  lemma MembershipReads(column: string)
    ensures Render(InList(column, 1)) == "\"" + column + "\"" + " IN (?)"
    ensures Render(InList(column, 3)) == "\"" + column + "\"" + " IN (?,?,?)"
  {
    ListTexts();
    hide Placeholders;
    Glue(Quoted(column), " IN (", Placeholders(1), ")");
    Glue(Quoted(column), " IN (", Placeholders(3), ")");
  }

  /** Clauses are joined by AND, in their order. */
  lemma {:induction false} ClausesJoin(a: seq<Clause>, b: seq<Clause>)
    requires a != [] && b != []
    ensures RenderAll(a + b) == RenderAll(a) + " AND " + RenderAll(b)
  {
    hide Render;
    if |a| == 1 {
      assert (a + b)[1..] == b && (a + b)[0] == a[0];
    } else {
      assert (a + b)[1..] == a[1..] + b && (a + b)[0] == a[0];
      ClausesJoin(a[1..], b);
      assert RenderAll(a) == Render(a[0]) + " AND " + RenderAll(a[1..]);
    }
  }

  function Count(s: string, c: char): nat {
    if s == "" then 0 else (if s[0] == c then 1 else 0) + Count(s[1..], c)
  }

  lemma {:induction false} CountAppend(a: string, b: string, c: char)
    ensures Count(a + b, c) == Count(a, c) + Count(b, c)
  {
    if a == "" {
      assert a + b == b;
    } else {
      assert (a + b)[1..] == a[1..] + b;
      CountAppend(a[1..], b, c);
    }
  }

  lemma {:induction false} CountAbsent(s: string, c: char)
    requires c !in s
    ensures Count(s, c) == 0
  {
    if s != "" {
      CountAbsent(s[1..], c);
    }
  }

  lemma {:induction false} PlaceholderCount(n: nat)
    ensures Count(Placeholders(n), '?') == n
  {
    assert Count(",?", '?') == 1 by { assert ",?"[1..] == "?" && "?"[1..] == ""; }
    assert Count("?", '?') == 1 by { assert "?"[1..] == ""; }
    if n > 1 {
      PlaceholderCount(n - 1);
      CountAppend(Placeholders(n - 1), ",?", '?');
    }
  }

  lemma IdentHasNoPlaceholder(h: Host, name: string)
    requires IsIdent(h, name)
    ensures Count(Quoted(name), '?') == 0
  {
    CountAbsent(Quoted(name), '?');
  }

  /** A clause's text has one `?` per parameter it consumes: column names bring none. */
  lemma RenderedHoles(h: Host, c: Clause)
    requires IsIdent(h, c.column)
    ensures Count(Render(c), '?') == Holes(c)
  {
    hide IsIdent, Count;
    var q := Quoted(c.column);
    IdentHasNoPlaceholder(h, c.column);
    match c
    case InList(_, n) =>
      PlaceholderCount(n);
      CountAppend(q, " IN (", '?');
      CountAppend(q + " IN (", Placeholders(n), '?');
      CountAppend(q + " IN (" + Placeholders(n), ")", '?');
      CountAbsent(" IN (", '?');
      CountAbsent(")", '?');
    case Contains(_) =>
      CountAppend("CAST(", q, '?');
      CountAppend("CAST(" + q, " AS TEXT) LIKE ? ESCAPE '\\'", '?');
      CountAbsent("CAST(", '?');
      var tail := " ESCAPE '\\'";
      assert " AS TEXT) LIKE ? ESCAPE '\\'" == " AS TEXT) LIKE " + "?" + tail;
      CountAppend(" AS TEXT) LIKE " + "?", tail, '?');
      CountAppend(" AS TEXT) LIKE ", "?", '?');
      CountAbsent(" AS TEXT) LIKE ", '?');
      CountAbsent(tail, '?');
      PlaceholderCount(1);
    case NullTest(_, negated) =>
      CountAppend(q, " IS ", '?');
      CountAppend(q + " IS ", if negated then "NOT " else "", '?');
      CountAppend(q + " IS " + (if negated then "NOT " else ""), "NULL", '?');
      CountAbsent(" IS ", '?');
      CountAbsent(if negated then "NOT " else "", '?');
      CountAbsent("NULL", '?');
    case Compare(_, op) =>
      CountAppend(q, " ", '?');
      CountAppend(q + " ", OpText(op), '?');
      CountAppend(q + " " + OpText(op), " ?", '?');
      CountAbsent(" ", '?');
      CountAbsent(OpText(op), '?');
      assert " ?" == " " + "?";
      CountAppend(" ", "?", '?');
      PlaceholderCount(1);
  }

  ghost predicate NamesAreIdents(h: Host, clauses: seq<Clause>) {
    forall c | c in clauses :: IsIdent(h, c.column)
  }

  lemma {:induction false} JoinedHoles(h: Host, clauses: seq<Clause>)
    requires NamesAreIdents(h, clauses)
    ensures Count(RenderAll(clauses), '?') == AllHoles(clauses)
  {
    hide IsIdent, Render;
    if clauses != [] {
      RenderedHoles(h, clauses[0]);
      assert clauses == [clauses[0]] + clauses[1..];
      if |clauses| > 1 {
        JoinedHoles(h, clauses[1..]);
        CountAppend(Render(clauses[0]) + " AND ", RenderAll(clauses[1..]), '?');
        CountAppend(Render(clauses[0]), " AND ", '?');
        CountAbsent(" AND ", '?');
      } else {
        assert clauses[1..] == [] && AllHoles(clauses[1..]) == 0;
      }
    }
  }

  lemma {:induction false} ConditionNames(h: Host, column: string, t: ColType, conditions: seq<(string, Json)>)
    requires IsIdent(h, column) && CompileConditions(h, column, t, conditions).Ok?
    ensures NamesAreIdents(h, CompileConditions(h, column, t, conditions).value.clauses)
  {
    hide IsIdent;
    if conditions != [] {
      ConditionNames(h, column, t, conditions[..|conditions| - 1]);
    }
  }

  lemma {:induction false} ColumnNames(h: Host, types: Types, columns: seq<(string, Json)>)
    requires CompileColumns(h, types, columns).Ok?
    ensures NamesAreIdents(h, CompileColumns(h, types, columns).value.clauses)
  {
    hide IsIdent, CompileConditions;
    if columns != [] {
      var last := columns[|columns| - 1];
      ColumnNames(h, types, columns[..|columns| - 1]);
      ConditionNames(h, last.0, types[last.0], Conditions(last.1));
    }
  }

  /** The WHERE text has exactly as many placeholders as parameters were appended. */
  lemma TextMatchesParameters(h: Host, show: real -> string, types: Types, filter: Json)
    requires CompileWhere(h, types, filter).Ok?
    ensures var c := CompileWhere(h, types, filter).value; Count(RenderAll(c.clauses), '?') == |c.params|
  {
    ColumnNames(h, types, filter.fields);
    JoinedHoles(h, CompileWhere(h, types, filter).value.clauses);
    CompiledFilterMeansSource(h, show, types, filter, map[]);
  }

  // ---- UPDATE ----

  /** `UPDATE ... SET columns WHERE clauses` with one positional parameter list. */
  datatype UpdateStatement = UpdateStatement(columns: seq<string>, clauses: seq<Clause>, params: seq<SqlValue>)

  function CoerceAssignments(h: Host, types: Types, sets: seq<(string, Json)>): (r: Result<seq<SqlValue>, Code>)
    ensures r.Ok? ==> |r.value| == |sets| && forall i | 0 <= i < |sets| ::
                        sets[i].0 in types && sets[i].0 != ID_COLUMN && Coerce(h, sets[i].1, types[sets[i].0]) == Ok(r.value[i])
  {
    if sets == [] then Ok([])
    else
      match CoerceAssignments(h, types, sets[..|sets| - 1])
      case Err(e) => Err(e)
      case Ok(front) =>
        var (column, value) := sets[|sets| - 1];
        if column !in types || column == ID_COLUMN then Err(UnknownColumn)
        else match Coerce(h, value, types[column])
          case Err(e) => Err(e)
          case Ok(v) => Ok(front + [v])
  }

  function SetColumns(sets: seq<(string, Json)>): seq<string> {
    seq(|sets|, i requires 0 <= i < |sets| => sets[i].0)
  }

  function PlanUpdate(h: Host, types: Types, filter: Json, sets: seq<(string, Json)>): Result<UpdateStatement, Code> {
    match CoerceAssignments(h, types, sets)
    case Err(e) => Err(e)
    case Ok(values) =>
      match CompileWhere(h, types, filter)
      case Err(e) => Err(e)
      case Ok(c) => Ok(UpdateStatement(SetColumns(sets), c.clauses, values + c.params))
  }

  lemma NoAssignments(h: Host, types: Types)
    ensures CoerceAssignments(h, types, []) == Ok([]) && SetColumns([]) == []
  {
  }

  lemma NextAssignment(h: Host, types: Types, sets: seq<(string, Json)>, s: (string, Json))
    requires CoerceAssignments(h, types, sets).Ok?
    ensures SetColumns(sets + [s]) == SetColumns(sets) + [s.0]
    ensures CoerceAssignments(h, types, sets + [s]) ==
            if s.0 !in types || s.0 == ID_COLUMN then Err(UnknownColumn)
            else match Coerce(h, s.1, types[s.0])
              case Err(e) => Err(e)
              case Ok(v) => Ok(CoerceAssignments(h, types, sets).value + [v])
  {
    hide Coerce;
    assert (sets + [s])[..|sets|] == sets;
  }

  method BuildUpdate(h: Host, types: Types, filter: Json, sets: seq<(string, Json)>) returns (r: Result<UpdateStatement, Code>)
    ensures r == PlanUpdate(h, types, filter, sets)
  {
    hide Coerce, CompileWhere, CoerceAssignments, SetColumns;
    NoAssignments(h, types);
    assert sets[..0] == [];
    var assignments: seq<string> := [];
    var values: seq<SqlValue> := [];
    var i := 0;
    while i < |sets|
      invariant 0 <= i <= |sets|
      invariant CoerceAssignments(h, types, sets[..i]) == Ok(values)
      invariant assignments == SetColumns(sets[..i])
    {
      var (column, value) := sets[i];
      assert sets[..i + 1] == sets[..i] + [sets[i]];
      NextAssignment(h, types, sets[..i], sets[i]);
      if column !in types || column == ID_COLUMN {
        FirstAssignmentErrorStays(h, types, sets, i + 1);
        return Err(UnknownColumn);
      }
      match Coerce(h, value, types[column]) {
        case Err(e) =>
          FirstAssignmentErrorStays(h, types, sets, i + 1);
          return Err(e);
        case Ok(v) => values := values + [v];
      }
      assignments := assignments + [column];
      i := i + 1;
    }
    assert sets[..i] == sets;
    var c := BuildWhere(h, types, filter);
    if c.Err? {
      return Err(c.error);
    }
    r := Ok(UpdateStatement(assignments, c.value.clauses, values + c.value.params));
  }

  lemma {:induction false} FirstAssignmentErrorStays(h: Host, types: Types, sets: seq<(string, Json)>, i: nat)
    requires i <= |sets| && CoerceAssignments(h, types, sets[..i]).Err?
    ensures CoerceAssignments(h, types, sets) == CoerceAssignments(h, types, sets[..i])
  {
    if i < |sets| {
      var front := sets[..|sets| - 1];
      assert front[..i] == sets[..i];
      FirstAssignmentErrorStays(h, types, front, i);
    } else {
      assert sets[..i] == sets;
    }
  }

  function Assign(row: Row, columns: seq<string>, values: seq<SqlValue>): Row
    requires |columns| == |values|
  {
    if columns == [] then row
    else Assign(row, columns[..|columns| - 1], values[..|values| - 1])[columns[|columns| - 1] := values[|values| - 1]]
  }

  /** The engine's update of one row: the first parameters bind the assignments, the rest the filter. */
  function ExecUpdate(show: real -> string, u: UpdateStatement, row: Row): Row
    requires |u.params| == |u.columns| + AllHoles(u.clauses)
  {
    var n := |u.columns|;
    if Eval(show, u.clauses, row, u.params[n..]) == True then Assign(row, u.columns, u.params[..n]) else row
  }

  lemma {:induction false} AssignFacts(row: Row, columns: seq<string>, values: seq<SqlValue>, c: string)
    requires |columns| == |values|
    requires forall i, j | 0 <= i < j < |columns| :: columns[i] != columns[j]
    ensures c !in columns ==> Get(Assign(row, columns, values), c) == Get(row, c)
    ensures forall i | 0 <= i < |columns| && columns[i] == c :: Get(Assign(row, columns, values), c) == values[i]
  {
    if columns != [] {
      AssignFacts(row, columns[..|columns| - 1], values[..|values| - 1], c);
    }
  }

  /**
   * A planned update changes exactly the rows the filter describes: there each listed column gets
   * what its own argument denotes and every other column keeps its value.
   */
  lemma UpdateMeansSource(h: Host, show: real -> string, types: Types, filter: Json, sets: seq<(string, Json)>, row: Row, c: string)
    requires PlanUpdate(h, types, filter, sets).Ok?
    requires forall i, j | 0 <= i < j < |sets| :: sets[i].0 != sets[j].0
    ensures var u := PlanUpdate(h, types, filter, sets).value;
            && |u.params| == |u.columns| + AllHoles(u.clauses)
            && var updated := ExecUpdate(show, u, row);
            && (!FilterHolds(h, show, types, filter.fields, row) ==> updated == row)
            && (FilterHolds(h, show, types, filter.fields, row) ==>
                  && (c !in SetColumns(sets) ==> Get(updated, c) == Get(row, c))
                  && forall i | 0 <= i < |sets| && sets[i].0 == c :: Denotes(h, types[c], sets[i].1, Get(updated, c)))
  {
    hide CompileWhere, Eval, Coerce, FilterHolds, AllHoles, Denotes;
    CompiledFilterMeansSource(h, show, types, filter, row);
    var u := PlanUpdate(h, types, filter, sets).value;
    var values := CoerceAssignments(h, types, sets).value;
    var n := |u.columns|;
    assert u.params[..n] == values && u.params[n..] == CompileWhere(h, types, filter).value.params;
    AssignFacts(row, u.columns, values, c);
    assert forall i | 0 <= i < |sets| :: u.columns[i] == sets[i].0;
    forall i | 0 <= i < |sets|
      ensures Denotes(h, types[sets[i].0], sets[i].1, values[i])
    {
      CoerceDenotes(h, types[sets[i].0], sets[i].1, values[i]);
    }
  }

  // ---- SELECT ----

  /** The WHERE part of a query: none without a filter. */
  function PlanQuery(h: Host, types: Types, filter: Json): Result<Compiled, Code> {
    if filter == Null || (filter.Dict? && filter.fields == []) then Ok(Compiled([], []))
    else if !filter.Dict? then Err(InvalidWhere)
    else CompileWhere(h, types, filter)
  }

  function Columns(filter: Json): seq<(string, Json)> {
    if filter.Dict? then filter.fields else []
  }

  /** The rows a WHERE statement selects, in table order; no clauses select all. */
  function Matching(show: real -> string, clauses: seq<Clause>, params: seq<SqlValue>, rows: seq<Row>): seq<Row>
    requires |params| == AllHoles(clauses)
  {
    if rows == [] then []
    else Matching(show, clauses, params, rows[..|rows| - 1]) +
         (if Eval(show, clauses, rows[|rows| - 1], params) == True then [rows[|rows| - 1]] else [])
  }

  function Page(rows: seq<Row>, limit: int, offset: int): seq<Row> {
    var from := if offset < 0 then 0 else if offset > |rows| then |rows| else offset;
    var to := if limit < 0 || from + limit > |rows| then |rows| else from + limit;
    rows[from..to]
  }

  /** `arrange` is what ORDER BY does to the selected rows; `LIMIT ? OFFSET ?` bind the last two parameters. */
  function ExecQuery(show: real -> string, clauses: seq<Clause>, params: seq<SqlValue>, arrange: seq<Row> -> seq<Row>,
                     rows: seq<Row>): Option<seq<Row>>
    requires |params| == AllHoles(clauses) + 2
  {
    var n := AllHoles(clauses);
    if params[n].SqlNumber? && params[n + 1].SqlNumber?
    then Some(Page(arrange(Matching(show, clauses, params[..n], rows)), params[n].r.Floor, params[n + 1].r.Floor))
    else None
  }

  /** The rows of which every condition of the filter holds; all of them without a filter. */
  ghost function Described(h: Host, show: real -> string, types: Types, columns: seq<(string, Json)>, rows: seq<Row>): seq<Row> {
    if rows == [] then []
    else Described(h, show, types, columns, rows[..|rows| - 1]) +
         (if FilterHolds(h, show, types, columns, rows[|rows| - 1]) then [rows[|rows| - 1]] else [])
  }

  /** A planned query consumes exactly its parameters, and is true of exactly the rows its filter describes. */
  lemma PlanMeansSource(h: Host, show: real -> string, types: Types, filter: Json, row: Row)
    requires PlanQuery(h, types, filter).Ok?
    ensures var c := PlanQuery(h, types, filter).value;
            && |c.params| == AllHoles(c.clauses)
            && (Eval(show, c.clauses, row, c.params) == True <==> FilterHolds(h, show, types, Columns(filter), row))
  {
    hide CompileWhere;
    if filter.Dict? && filter.fields != [] {
      CompiledFilterMeansSource(h, show, types, filter, row);
    }
  }

  lemma {:induction false} MatchingIsDescribed(h: Host, show: real -> string, types: Types, filter: Json, rows: seq<Row>)
    requires PlanQuery(h, types, filter).Ok?
    ensures var c := PlanQuery(h, types, filter).value;
            && |c.params| == AllHoles(c.clauses)
            && Matching(show, c.clauses, c.params, rows) == Described(h, show, types, Columns(filter), rows)
  {
    hide Eval, FilterHolds, PlanQuery, AllHoles;
    if rows == [] {
      PlanMeansSource(h, show, types, filter, map[]);
    } else {
      PlanMeansSource(h, show, types, filter, rows[|rows| - 1]);
      MatchingIsDescribed(h, show, types, filter, rows[..|rows| - 1]);
    }
  }

  /**
   * The page a query returns is the requested slice of exactly the rows the filter describes, arranged,
   * and the reported total is their number.
   */
  lemma QueryMeansSource(h: Host, show: real -> string, types: Types, filter: Json, arrange: seq<Row> -> seq<Row>,
                         rows: seq<Row>, limit: int, offset: int)
    requires PlanQuery(h, types, filter).Ok?
    ensures var c := PlanQuery(h, types, filter).value;
            var params := c.params + [SqlNumber(limit as real), SqlNumber(offset as real)];
            var described := Described(h, show, types, Columns(filter), rows);
            && |c.params| == AllHoles(c.clauses) && |params| == AllHoles(c.clauses) + 2
            && ExecQuery(show, c.clauses, params, arrange, rows) == Some(Page(arrange(described), limit, offset))
            && |Matching(show, c.clauses, c.params, rows)| == |described|
  {
    hide Eval, PlanQuery, AllHoles, Described, Matching;
    MatchingIsDescribed(h, show, types, filter, rows);
    var c := PlanQuery(h, types, filter).value;
    var params := c.params + [SqlNumber(limit as real), SqlNumber(offset as real)];
    assert params[..|c.params|] == c.params;
  }
}

/**
 * The meaning of compiled filters (core/character_self_db.py) under SQL's three-valued logic with
 * positional binding, and the proof that a compiled filter selects exactly the rows its source
 * filter describes.
 */
module SqlMeaning {
  import opened Wrappers
  import opened WhereCompiler
  import opened ColumnValues
  import Strings = Text

  type Row = map<string, SqlValue>

  // ---- SQL ----

  datatype Truth = True | False | Unknown

  function And(a: Truth, b: Truth): Truth {
    if a == False || b == False then False else if a == True && b == True then True else Unknown
  }

  function Or(a: Truth, b: Truth): Truth {
    if a == True || b == True then True else if a == False && b == False then False else Unknown
  }

  function Of(b: bool): Truth {
    if b then True else False
  }

  /** A column's value; a column the row lacks is NULL. */
  function Get(row: Row, column: string): SqlValue {
    if column in row then row[column] else SqlNull
  }

  /** BINARY collation. */
  predicate TextLess(a: string, b: string) {
    b != "" && (a == "" || a[0] < b[0] || (a[0] == b[0] && TextLess(a[1..], b[1..])))
  }

  /** Order of stored values: numbers before texts. */
  predicate Less(a: SqlValue, b: SqlValue)
    requires a != SqlNull && b != SqlNull
  {
    match (a, b)
    case (SqlNumber(x), SqlNumber(y)) => x < y
    case (SqlText(x), SqlText(y)) => TextLess(x, y)
    case (SqlNumber(_), SqlText(_)) => true
    case (SqlText(_), SqlNumber(_)) => false
  }

  function CompareValues(op: CompareOp, a: SqlValue, b: SqlValue): Truth {
    if a == SqlNull || b == SqlNull then Unknown
    else match op
      case Eq => Of(a == b)
      case Ne => Of(a != b)
      case Gt => Of(Less(b, a))
      case Lt => Of(Less(a, b))
  }

  function InValues(a: SqlValue, list: seq<SqlValue>): Truth {
    if list == [] then False
    else Or(CompareValues(Eq, a, list[0]), InValues(a, list[1..]))
  }

  /** `LIKE pattern ESCAPE '\'`: `%` is any run, `_` any character, letters ignore ASCII case. */
  predicate Like(pattern: string, text: string)
    decreases |pattern| + |text|
  {
    if pattern == "" then text == ""
    else if pattern[0] == '\\' then
      |pattern| > 1 && text != "" && Strings.Lower(text[0]) == Strings.Lower(pattern[1]) && Like(pattern[2..], text[1..])
    else if pattern[0] == '%' then Like(pattern[1..], text) || (text != "" && Like(pattern, text[1..]))
    else text != "" && (pattern[0] == '_' || Strings.Lower(text[0]) == Strings.Lower(pattern[0])) && Like(pattern[1..], text[1..])
  }

  /** `CAST(value AS TEXT)` of a value that is not NULL; `show` is the engine's rendering of numbers. */
  function CastText(show: real -> string, v: SqlValue): string {
    if v.SqlText? then v.s else if v.SqlNumber? then show(v.r) else ""
  }

  function EvalClause(show: real -> string, c: Clause, row: Row, args: seq<SqlValue>): Truth
    requires |args| == Holes(c)
  {
    var v := Get(row, c.column);
    match c
    case InList(_, _) => InValues(v, args)
    case Contains(_) => if v == SqlNull || !args[0].SqlText? then Unknown else Of(Like(args[0].s, CastText(show, v)))
    case NullTest(_, negated) => Of((v == SqlNull) != negated)
    case Compare(_, op) => CompareValues(op, v, args[0])
  }

  function AllHoles(clauses: seq<Clause>): nat {
    if clauses == [] then 0 else Holes(clauses[0]) + AllHoles(clauses[1..])
  }

  /** The conjunction, each clause taking its parameters from the front of those still unbound. */
  function Eval(show: real -> string, clauses: seq<Clause>, row: Row, params: seq<SqlValue>): Truth
    requires |params| == AllHoles(clauses)
  {
    if clauses == [] then True
    else
      var n := Holes(clauses[0]);
      And(EvalClause(show, clauses[0], row, params[..n]), Eval(show, clauses[1..], row, params[n..]))
  }

  // ---- What a filter says ----

  function Fold(s: string): string {
    LowerAscii(s)
  }

  predicate OccursAt(part: string, whole: string, k: nat) {
    k + |part| <= |whole| && Fold(whole)[k..k + |part|] == Fold(part)
  }

  /** `part` occurs in `whole`, letters ignoring ASCII case. */
  ghost predicate Occurs(part: string, whole: string) {
    exists k: nat :: OccursAt(part, whole, k)
  }

  /** One condition, in two-valued terms over what its operand denotes: a NULL satisfies nothing but a test for NULL. */
  ghost predicate Holds(h: Host, show: real -> string, t: ColType, op: string, operand: Json, v: SqlValue) {
    if op == "in" then v != SqlNull && operand.List? && exists i :: 0 <= i < |operand.items| && Denotes(h, t, operand.items[i], v)
    else if op == "contains" then v != SqlNull && operand.Text? && Occurs(operand.s, CastText(show, v))
    else if operand == Null then (if op == "eq" then v == SqlNull else v != SqlNull)
    else
      v != SqlNull && exists c :: Denotes(h, t, operand, c) && Compares(op, v, c)
  }

  ghost predicate Compares(op: string, v: SqlValue, c: SqlValue)
    requires v != SqlNull
  {
    c != SqlNull &&
    match op
    case "eq" => v == c
    case "ne" => v != c
    case "gt" => Less(c, v)
    case _ => Less(v, c)
  }

  ghost predicate ColumnHolds(h: Host, show: real -> string, t: ColType, conditions: seq<(string, Json)>, v: SqlValue) {
    forall j | 0 <= j < |conditions| :: Holds(h, show, t, conditions[j].0, conditions[j].1, v)
  }

  /** A dictionary of operators asks for each of them, any other value for equality with it. */
  ghost predicate SpecHolds(h: Host, show: real -> string, t: ColType, spec: Json, v: SqlValue) {
    match spec
    case Dict(fields) => ColumnHolds(h, show, t, fields, v)
    case _ => Holds(h, show, t, "eq", spec, v)
  }

  /** Every condition on every column holds of the row. */
  ghost predicate FilterHolds(h: Host, show: real -> string, types: Types, columns: seq<(string, Json)>, row: Row) {
    forall i | 0 <= i < |columns| ::
      columns[i].0 in types &&
      SpecHolds(h, show, types[columns[i].0], columns[i].1, Get(row, columns[i].0))
  }

  // ---- LIKE ----

  lemma {:induction false} ReplaceCons(c: char, s: string, x: char, e: string)
    ensures Replace([x] + s, c, e) == (if x == c then e else [x]) + Replace(s, c, e)
  {
    assert ([x] + s)[1..] == s;
  }

  lemma {:induction false} ReplaceAppend(a: string, b: string, c: char, e: string)
    ensures Replace(a + b, c, e) == Replace(a, c, e) + Replace(b, c, e)
  {
    if a == "" {
      assert a + b == b;
    } else {
      assert (a + b)[1..] == a[1..] + b;
      ReplaceAppend(a[1..], b, c, e);
    }
  }

  function EscapedChar(x: char): string {
    if x == '\\' || x == '%' || x == '_' then ['\\', x] else [x]
  }

  lemma ReplaceOne(x: char, c: char, e: string)
    ensures Replace([x], c, e) == if x == c then e else [x]
  {
    ReplaceCons(c, "", x, e);
  }

  lemma ReplaceTwo(x: char, y: char, c: char, e: string)
    ensures Replace([x, y], c, e) == Replace([x], c, e) + Replace([y], c, e)
  {
    ReplaceAppend([x], [y], c, e);
    assert [x] + [y] == [x, y];
  }

  /** The three replacements, in that order, escape each character once. */
  lemma {:induction false} EscapedIsPerCharacter(s: string)
    requires s != ""
    ensures Escaped(s) == EscapedChar(s[0]) + Escaped(s[1..])
  {
    var x, rest := s[0], s[1..];
    assert s == [x] + rest;
    ReplaceCons('\\', rest, x, "\\\\");
    var one := if x == '\\' then "\\\\" else [x];
    var r1 := Replace(rest, '\\', "\\\\");
    ReplaceAppend(one, r1, '%', "\\%");
    var two := Replace(one, '%', "\\%");
    ReplaceOne(x, '%', "\\%");
    ReplaceTwo('\\', '\\', '%', "\\%");
    ReplaceOne('\\', '%', "\\%");
    ReplaceAppend(two, Replace(r1, '%', "\\%"), '_', "\\_");
    ReplaceOne(x, '_', "\\_");
    ReplaceTwo('\\', '\\', '_', "\\_");
    ReplaceTwo('\\', '%', '_', "\\_");
    ReplaceOne('\\', '_', "\\_");
    ReplaceOne('%', '_', "\\_");
    assert "\\\\" == ['\\', '\\'] && "\\%" == ['\\', '%'] && "\\_" == ['\\', '_'];
  }

  lemma PrefixCons(f: string, g: string)
    requires g != "" && |g| <= |f|
    ensures f[..|g|] == g <==> f[0] == g[0] && f[1..][..|g| - 1] == g[1..]
  {
    assert f[..|g|] == [f[0]] + f[1..][..|g| - 1];
    assert g == [g[0]] + g[1..];
  }

  /** Prefixes are compared character by character. */
  lemma FoldPrefix(s: string, text: string)
    requires s != "" && text != ""
    ensures |s| <= |text| && Fold(text)[..|s|] == Fold(s) <==>
            |s| <= |text| && Fold(text[1..])[..|s| - 1] == Fold(s[1..]) && Strings.Lower(text[0]) == Strings.Lower(s[0])
  {
    if |s| <= |text| {
      PrefixCons(Fold(text), Fold(s));
      assert Fold(text)[1..] == Fold(text[1..]) && Fold(s)[1..] == Fold(s[1..]);
    }
  }

  /** An escaped literal followed by `%` matches exactly the texts that begin with it. */
  lemma {:induction false} LikeLiteralPrefix(s: string, text: string)
    ensures Like(Escaped(s) + "%", text) <==> |s| <= |text| && Fold(text)[..|s|] == Fold(s)
    decreases |s|
  {
    if s == "" {
      assert Escaped(s) + "%" == "%";
      PercentMatchesAll(text);
    } else {
      EscapedIsPerCharacter(s);
      var p := Escaped(s) + "%";
      var rest := Escaped(s[1..]) + "%";
      var e := EscapedChar(s[0]);
      assert p == e + rest;
      assert p[|e|..] == rest;
      if text != "" {
        LikeLiteralPrefix(s[1..], text[1..]);
        FoldPrefix(s, text);
        hide Escaped, Fold;
      }
    }
  }

  lemma {:induction false} PercentMatchesAll(text: string)
    ensures Like("%", text)
  {
    assert "%"[1..] == "";
    if text != "" {
      PercentMatchesAll(text[1..]);
    }
  }

  lemma {:induction false} LikeAnywhere(p: string, text: string)
    ensures Like("%" + p, text) <==> exists k :: 0 <= k <= |text| && Like(p, text[k..])
    decreases |text|
  {
    var q := "%" + p;
    assert q[1..] == p && text[0..] == text;
    if text != "" {
      LikeAnywhere(p, text[1..]);
      if k :| 0 <= k <= |text[1..]| && Like(p, text[1..][k..]) {
        assert text[1..][k..] == text[k + 1..];
      }
      if k :| 0 <= k <= |text| && Like(p, text[k..]) {
        if k > 0 {
          assert text[1..][k - 1..] == text[k..];
        }
      }
    }
  }

  /** The pattern built for `contains` matches exactly the texts in which the operand occurs. */
  lemma ContainsPattern(s: string, text: string)
    ensures Like("%" + Escaped(s) + "%", text) <==> Occurs(s, text)
  {
    var p := Escaped(s) + "%";
    assert "%" + Escaped(s) + "%" == "%" + p;
    LikeAnywhere(p, text);
    forall k: nat | k <= |text|
      ensures Like(p, text[k..]) <==> OccursAt(s, text, k)
    {
      LikeLiteralPrefix(s, text[k..]);
      assert Fold(text[k..]) == Fold(text)[k..];
      if k + |s| <= |text| {
        assert Fold(text)[k..][..|s|] == Fold(text)[k..k + |s|];
      }
    }
  }

  // ---- Clauses ----

  lemma {:induction false} InValuesTrue(a: SqlValue, list: seq<SqlValue>)
    ensures InValues(a, list) == True <==> a != SqlNull && a in list
  {
    if list != [] {
      InValuesTrue(a, list[1..]);
    }
  }

  /** One compiled condition is true of a row exactly when the condition holds. */
  lemma ConditionMeaning(h: Host, show: real -> string, column: string, t: ColType, op: string, operand: Json, row: Row)
    requires CompileCondition(h, column, t, op, operand).Ok?
    ensures var c := CompileCondition(h, column, t, op, operand).value;
            EvalClause(show, c.clauses[0], row, c.params) == True <==> Holds(h, show, t, op, operand, Get(row, column))
  {
    hide Like, Occurs, Escaped, Less, Coerce, Denotes;
    var c := CompileCondition(h, column, t, op, operand).value;
    var v := Get(row, column);
    if op == "in" {
      InValuesTrue(v, c.params);
      AllDenoted(h, t, operand.items, v);
    } else if op == "contains" {
      ContainsPattern(operand.s, CastText(show, v));
    } else if operand != Null {
      var x := c.params[0];
      CoerceDenotes(h, t, operand, x);
      forall y | Denotes(h, t, operand, y)
        ensures y == x
      {
        DenotesOne(h, t, operand, x, y);
      }
    }
  }

  lemma {:induction false} HolesAppend(a: seq<Clause>, b: seq<Clause>)
    ensures AllHoles(a + b) == AllHoles(a) + AllHoles(b)
  {
    if a == [] {
      assert a + b == b;
    } else {
      assert (a + b)[1..] == a[1..] + b;
      HolesAppend(a[1..], b);
    }
  }

  lemma AndAssociates(a: Truth, b: Truth, c: Truth)
    ensures And(And(a, b), c) == And(a, And(b, c)) && And(True, a) == a
  {
  }

  /** Appended clauses read exactly the parameters appended for them. */
  lemma {:induction false} EvalAppend(show: real -> string, a: Compiled, b: Compiled, row: Row)
    requires |a.params| == AllHoles(a.clauses) && |b.params| == AllHoles(b.clauses)
    ensures AllHoles(a.clauses + b.clauses) == |a.params + b.params|
    ensures Eval(show, a.clauses + b.clauses, row, a.params + b.params) ==
            And(Eval(show, a.clauses, row, a.params), Eval(show, b.clauses, row, b.params))
    decreases |a.clauses|
  {
    hide EvalClause, And;
    HolesAppend(a.clauses, b.clauses);
    if a.clauses == [] {
      assert a.clauses + b.clauses == b.clauses && a.params + b.params == b.params;
      AndAssociates(Eval(show, b.clauses, row, b.params), True, True);
    } else {
      var n := Holes(a.clauses[0]);
      var cs, ps := a.clauses + b.clauses, a.params + b.params;
      assert cs[1..] == a.clauses[1..] + b.clauses;
      assert ps[..n] == a.params[..n] && ps[n..] == a.params[n..] + b.params;
      EvalAppend(show, Compiled(a.clauses[1..], a.params[n..]), b, row);
      AndAssociates(EvalClause(show, a.clauses[0], row, a.params[..n]), Eval(show, a.clauses[1..], row, a.params[n..]),
                    Eval(show, b.clauses, row, b.params));
    }
  }

  lemma EvalOne(show: real -> string, c: Compiled, row: Row)
    requires |c.clauses| == 1 && |c.params| == Holes(c.clauses[0])
    ensures AllHoles(c.clauses) == |c.params|
    ensures Eval(show, c.clauses, row, c.params) == And(EvalClause(show, c.clauses[0], row, c.params), True)
  {
    assert c.clauses[1..] == [] && c.params[..|c.params|] == c.params;
    assert AllHoles(c.clauses[1..]) == 0;
  }

  lemma {:induction false} ConditionsMeaning(h: Host, show: real -> string, column: string, t: ColType,
                                             conditions: seq<(string, Json)>, row: Row)
    requires CompileConditions(h, column, t, conditions).Ok?
    ensures var c := CompileConditions(h, column, t, conditions).value;
            && |c.params| == AllHoles(c.clauses)
            && (Eval(show, c.clauses, row, c.params) == True <==> ColumnHolds(h, show, t, conditions, Get(row, column)))
  {
    hide CompileCondition, EvalClause, Eval, Holds;
    if conditions == [] {
      EvalNone(show, row);
    } else {
      var front, last := conditions[..|conditions| - 1], conditions[|conditions| - 1];
      ConditionsMeaning(h, show, column, t, front, row);
      ConditionMeaning(h, show, column, t, last.0, last.1, row);
      var a, b := CompileConditions(h, column, t, front).value, CompileCondition(h, column, t, last.0, last.1).value;
      EvalOne(show, b, row);
      EvalAppend(show, a, b, row);
      assert forall j | 0 <= j < |front| :: front[j] == conditions[j];
    }
  }

  lemma SpecIsConditions(h: Host, show: real -> string, t: ColType, spec: Json, v: SqlValue)
    ensures SpecHolds(h, show, t, spec, v) <==> ColumnHolds(h, show, t, Conditions(spec), v)
  {
    hide Holds;
    assert !spec.Dict? ==> Conditions(spec)[0] == ("eq", spec);
  }

  lemma EvalNone(show: real -> string, row: Row)
    ensures AllHoles([]) == 0 && Eval(show, [], row, []) == True
  {
  }

  lemma {:induction false} ColumnsMeaning(h: Host, show: real -> string, types: Types, columns: seq<(string, Json)>, row: Row)
    requires CompileColumns(h, types, columns).Ok?
    ensures var c := CompileColumns(h, types, columns).value;
            && |c.params| == AllHoles(c.clauses)
            && (Eval(show, c.clauses, row, c.params) == True <==> FilterHolds(h, show, types, columns, row))
  {
    hide CompileConditions, EvalClause, Eval, ColumnHolds, SpecHolds, IsIdent;
    if columns == [] {
      EvalNone(show, row);
    } else {
      var front, last := columns[..|columns| - 1], columns[|columns| - 1];
      ColumnsMeaning(h, show, types, front, row);
      ConditionsMeaning(h, show, last.0, types[last.0], Conditions(last.1), row);
      SpecIsConditions(h, show, types[last.0], last.1, Get(row, last.0));
      var a, b := CompileColumns(h, types, front).value, CompileColumn(h, types, last.0, last.1).value;
      EvalAppend(show, a, b, row);
      assert forall i | 0 <= i < |front| :: front[i] == columns[i];
    }
  }

  /**
   * A compiled filter has exactly one parameter per placeholder and, bound by position, is true of
   * exactly the rows on which every condition of the source filter holds.
   */
  lemma CompiledFilterMeansSource(h: Host, show: real -> string, types: Types, filter: Json, row: Row)
    requires CompileWhere(h, types, filter).Ok?
    ensures var c := CompileWhere(h, types, filter).value;
            && |c.params| == AllHoles(c.clauses)
            && (Eval(show, c.clauses, row, c.params) == True <==> FilterHolds(h, show, types, filter.fields, row))
  {
    ColumnsMeaning(h, show, types, filter.fields, row);
  }
}

/**
 * The structured filter compiler of the self database (core/character_self_db.py): nested filters
 * become SQL clauses with positional parameters.
 */
module WhereCompiler {
  import opened Wrappers
  import Strings = Text

  const MAX_IN_VALUES: nat := 50
  const MAX_TEXT_CHARS: nat := 4000
  const ID_COLUMN: string := "_id"

  /** A tool argument; dictionaries keep their insertion order. */
  datatype Json = Null | Bool(b: bool) | Int(n: int) | Real(r: real) | Text(s: string)
                | List(items: seq<Json>) | Dict(fields: seq<(string, Json)>)

  datatype ColType = TextType | NumberType | BoolType | DateType
  type Types = map<string, ColType>

  /** A stored or bound value; integers and floats compare as numbers. */
  datatype SqlValue = SqlNull | SqlNumber(r: real) | SqlText(s: string)

  datatype Code = WhereRequired | InvalidIdentifier | UnknownColumn | InvalidWhere | InvalidValue | ValueTooLong

  /** Number, date and character conversions of the host language. */
  datatype Host = Host(showInt: int -> string, showReal: real -> string, parseNumber: string -> Option<real>,
                       parseDate: string -> Option<string>, isWord: char -> bool)

  datatype CompareOp = Eq | Ne | Gt | Lt

  datatype Clause = InList(column: string, count: nat) | Contains(column: string)
                  | NullTest(column: string, negated: bool) | Compare(column: string, op: CompareOp)

  /** Clauses joined by AND, with the parameters appended for them. */
  datatype Compiled = Compiled(clauses: seq<Clause>, params: seq<SqlValue>)

  /** Number of placeholders a clause consumes. */
  function Holes(c: Clause): nat {
    match c
    case InList(_, count) => count
    case Contains(_) => 1
    case NullTest(_, _) => 0
    case Compare(_, _) => 1
  }

  // ---- Values and identifiers ----

  predicate IsIdentStart(c: char) {
    'a' <= c <= 'z' || 'A' <= c <= 'Z' || c == '_' || 0x4E00 <= c as int <= 0x9FFF
  }

  predicate IsIdentChar(h: Host, c: char) {
    IsIdentStart(c) || '0' <= c <= '9' || (c as int >= 0x80 && h.isWord(c))
  }

  predicate IsIdent(h: Host, name: string) {
    1 <= |name| <= 32 && IsIdentStart(name[0]) && forall i | 0 <= i < |name| :: IsIdentChar(h, name[i])
  }

  function Shown(h: Host, v: Json): string {
    match v
    case Bool(b) => if b then "True" else "False"
    case Int(n) => h.showInt(n)
    case Real(r) => h.showReal(r)
    case Text(s) => s
    case _ => ""
  }

  function LowerAscii(s: string): string {
    seq(|s|, i requires 0 <= i < |s| => Strings.Lower(s[i]))
  }

  /** What a column of the type can hold besides NULL; a date is what the host's date parser writes. */
  ghost predicate Fits(h: Host, v: SqlValue, t: ColType) {
    match t
    case TextType => v.SqlText? && |v.s| <= MAX_TEXT_CHARS
    case NumberType => v.SqlNumber?
    case BoolType => v.SqlNumber? && (v.r == 0.0 || v.r == 1.0)
    case DateType => v.SqlText? && exists text :: h.parseDate(text) == Some(v.s)
  }

  /** A value converted to its column's type, or an error. */
  function Coerce(h: Host, v: Json, t: ColType): (r: Result<SqlValue, Code>)
    ensures v == Null ==> r == Ok(SqlNull)
    ensures v != Null && r.Ok? ==> Fits(h, r.value, t)
    ensures r.Err? ==> r.error == (if t.TextType? && !v.List? && !v.Dict? then ValueTooLong else InvalidValue)
  {
    if v == Null then Ok(SqlNull)
    else if v.List? || v.Dict? then Err(InvalidValue)
    else match t
      case TextType =>
        var text := if v.Bool? then (if v.b then "true" else "false") else Shown(h, v);
        if |text| > MAX_TEXT_CHARS then Err(ValueTooLong) else Ok(SqlText(text))
      case NumberType =>
        (match v
         case Int(n) => Ok(SqlNumber(n as real))
         case Real(r) => Ok(SqlNumber(r))
         case Text(s) => (match h.parseNumber(s) case None => Err(InvalidValue) case Some(r) => Ok(SqlNumber(r)))
         case _ => Err(InvalidValue))
      case BoolType =>
        (match v
         case Bool(b) => Ok(SqlNumber(if b then 1.0 else 0.0))
         case Int(n) => if n == 0 || n == 1 then Ok(SqlNumber(n as real)) else Err(InvalidValue)
         case Text(s) =>
           if LowerAscii(s) == "true" then Ok(SqlNumber(1.0))
           else if LowerAscii(s) == "false" then Ok(SqlNumber(0.0))
           else Err(InvalidValue)
         case _ => Err(InvalidValue))
      case DateType =>
        match h.parseDate(Shown(h, v)) case None => Err(InvalidValue) case Some(d) => Ok(SqlText(d))
  }

  function CoerceAll(h: Host, vs: seq<Json>, t: ColType): (r: Result<seq<SqlValue>, Code>)
    ensures r.Ok? ==> |r.value| == |vs| && forall i | 0 <= i < |vs| :: Coerce(h, vs[i], t) == Ok(r.value[i])
  {
    if vs == [] then Ok([])
    else
      match CoerceAll(h, vs[..|vs| - 1], t)
      case Err(e) => Err(e)
      case Ok(front) =>
        match Coerce(h, vs[|vs| - 1], t)
        case Err(e) => Err(e)
        case Ok(last) => Ok(front + [last])
  }

  // ---- LIKE escaping ----

  function Replace(s: string, c: char, escape: string): string {
    if s == "" then "" else (if s[0] == c then escape else [s[0]]) + Replace(s[1..], c, escape)
  }

  /** Backslashes first, then the two wildcards. */
  function Escaped(s: string): string {
    Replace(Replace(Replace(s, '\\', "\\\\"), '%', "\\%"), '_', "\\_")
  }

  // ---- The compiler ----

  function ParseOp(op: string): Option<CompareOp> {
    if op == "eq" then Some(Eq) else if op == "ne" then Some(Ne)
    else if op == "gt" then Some(Gt) else if op == "lt" then Some(Lt) else None
  }

  function CompileCondition(h: Host, column: string, t: ColType, op: string, operand: Json): (r: Result<Compiled, Code>)
    ensures r.Ok? ==> |r.value.clauses| == 1 && |r.value.params| == Holes(r.value.clauses[0])
  {
    if op == "in" then
      if !operand.List? || operand.items == [] || |operand.items| > MAX_IN_VALUES then Err(InvalidWhere)
      else match CoerceAll(h, operand.items, t)
        case Err(e) => Err(e)
        case Ok(values) => Ok(Compiled([InList(column, |values|)], values))
    else if op == "contains" then
      if !operand.Text? || operand.s == "" then Err(InvalidWhere)
      else Ok(Compiled([Contains(column)], [SqlText("%" + Escaped(operand.s) + "%")]))
    else if ParseOp(op).None? then Err(InvalidWhere)
    else if operand == Null then
      if op != "eq" && op != "ne" then Err(InvalidWhere)
      else Ok(Compiled([NullTest(column, op == "ne")], []))
    else match Coerce(h, operand, t)
      case Err(e) => Err(e)
      case Ok(value) => Ok(Compiled([Compare(column, ParseOp(op).value)], [value]))
  }

  function Append(a: Compiled, b: Compiled): Compiled {
    Compiled(a.clauses + b.clauses, a.params + b.params)
  }

  function CompileConditions(h: Host, column: string, t: ColType, conditions: seq<(string, Json)>): Result<Compiled, Code> {
    if conditions == [] then Ok(Compiled([], []))
    else
      match CompileConditions(h, column, t, conditions[..|conditions| - 1])
      case Err(e) => Err(e)
      case Ok(front) =>
        var (op, operand) := conditions[|conditions| - 1];
        match CompileCondition(h, column, t, op, operand)
        case Err(e) => Err(e)
        case Ok(last) => Ok(Append(front, last))
  }

  /** The conditions of one column: a dictionary of operators, or a bare value meaning equality. */
  function Conditions(spec: Json): seq<(string, Json)> {
    if spec.Dict? then spec.fields else [("eq", spec)]
  }

  function CompileColumn(h: Host, types: Types, column: string, spec: Json): Result<Compiled, Code> {
    if !IsIdent(h, column) then Err(InvalidIdentifier)
    else if column !in types then Err(UnknownColumn)
    else if Conditions(spec) == [] then Err(InvalidWhere)
    else CompileConditions(h, column, types[column], Conditions(spec))
  }

  function CompileColumns(h: Host, types: Types, columns: seq<(string, Json)>): Result<Compiled, Code> {
    if columns == [] then Ok(Compiled([], []))
    else
      match CompileColumns(h, types, columns[..|columns| - 1])
      case Err(e) => Err(e)
      case Ok(front) =>
        var (column, spec) := columns[|columns| - 1];
        match CompileColumn(h, types, column, spec)
        case Err(e) => Err(e)
        case Ok(last) => Ok(Append(front, last))
  }

  function CompileWhere(h: Host, types: Types, filter: Json): Result<Compiled, Code> {
    if !filter.Dict? || filter.fields == [] then Err(WhereRequired)
    else CompileColumns(h, types, filter.fields)
  }

  /** The inner loop: the conditions of one column, appended to the lists built so far. */
  method AppendConditions(h: Host, column: string, t: ColType, conditions: seq<(string, Json)>, before: Compiled)
    returns (r: Result<Compiled, Code>)
    ensures match CompileConditions(h, column, t, conditions)
            case Err(e) => r == Err(e)
            case Ok(done) => r == Ok(Append(before, done))
  {
    hide CompileCondition;
    var clauses, params := before.clauses, before.params;
    ghost var done := Compiled([], []);
    var j := 0;
    while j < |conditions|
      invariant 0 <= j <= |conditions|
      invariant CompileConditions(h, column, t, conditions[..j]) == Ok(done)
      invariant Compiled(clauses, params) == Append(before, done)
    {
      var (op, operand) := conditions[j];
      assert conditions[..j + 1][..j] == conditions[..j];
      var one := CompileCondition(h, column, t, op, operand);
      if one.Err? {
        FirstConditionErrorStays(h, column, t, conditions, j + 1);
        return Err(one.error);
      }
      clauses, params := clauses + one.value.clauses, params + one.value.params;
      done := Append(done, one.value);
      j := j + 1;
    }
    assert conditions[..j] == conditions;
    r := Ok(Compiled(clauses, params));
  }

  /** The outer loop over columns, appending to one clause and parameter list. */
  method BuildWhere(h: Host, types: Types, filter: Json) returns (r: Result<Compiled, Code>)
    ensures r == CompileWhere(h, types, filter)
  {
    hide CompileConditions, IsIdent;
    if !filter.Dict? || filter.fields == [] {
      return Err(WhereRequired);
    }
    var columns := filter.fields;
    var built := Compiled([], []);
    var i := 0;
    while i < |columns|
      invariant 0 <= i <= |columns|
      invariant CompileColumns(h, types, columns[..i]) == Ok(built)
    {
      var (column, spec) := columns[i];
      assert columns[..i + 1][..i] == columns[..i];
      if !IsIdent(h, column) {
        FirstErrorStays(h, types, columns, i + 1);
        return Err(InvalidIdentifier);
      }
      if column !in types {
        FirstErrorStays(h, types, columns, i + 1);
        return Err(UnknownColumn);
      }
      var conditions := Conditions(spec);
      if conditions == [] {
        FirstErrorStays(h, types, columns, i + 1);
        return Err(InvalidWhere);
      }
      var next := AppendConditions(h, column, types[column], conditions, built);
      if next.Err? {
        FirstErrorStays(h, types, columns, i + 1);
        return next;
      }
      built := next.value;
      i := i + 1;
    }
    assert columns[..i] == columns;
    r := Ok(built);
  }

  /** The first error ends the compilation. */
  lemma {:induction false} FirstErrorStays(h: Host, types: Types, columns: seq<(string, Json)>, i: nat)
    requires i <= |columns| && CompileColumns(h, types, columns[..i]).Err?
    ensures CompileColumns(h, types, columns) == CompileColumns(h, types, columns[..i])
  {
    if i < |columns| {
      var front := columns[..|columns| - 1];
      assert front[..i] == columns[..i];
      FirstErrorStays(h, types, front, i);
    } else {
      assert columns[..i] == columns;
    }
  }

  lemma {:induction false} FirstConditionErrorStays(h: Host, column: string, t: ColType, conditions: seq<(string, Json)>, i: nat)
    requires i <= |conditions| && CompileConditions(h, column, t, conditions[..i]).Err?
    ensures CompileConditions(h, column, t, conditions) == CompileConditions(h, column, t, conditions[..i])
  {
    if i < |conditions| {
      var front := conditions[..|conditions| - 1];
      assert front[..i] == conditions[..i];
      FirstConditionErrorStays(h, column, t, front, i);
    } else {
      assert conditions[..i] == conditions;
    }
  }
}

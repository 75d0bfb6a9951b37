/**
 * Which filters and assignments the self database accepts (core/character_self_db.py): plain column
 * names, fitting operators, and arguments that denote a value of their column.
 */
module WhereAcceptance {
  import opened Wrappers
  import opened WhereCompiler
  import opened ColumnValues
  import opened SqlStatements

  /** The argument denotes some value of the column type. */
  ghost predicate Meant(h: Host, t: ColType, v: Json) {
    exists x :: Denotes(h, t, v, x)
  }

  lemma MeantIff(h: Host, t: ColType, v: Json)
    ensures Coerce(h, v, t).Ok? <==> Meant(h, t, v)
  {
    hide Coerce, Denotes;
    if Coerce(h, v, t).Ok? {
      CoerceDenotes(h, t, v, Coerce(h, v, t).value);
    }
    if x :| Denotes(h, t, v, x) {
      CoerceDenotes(h, t, v, x);
    }
  }

  /** A condition the compiler accepts: operator, operand and type fit, and values can be converted. */
  ghost predicate Accepted(h: Host, t: ColType, op: string, operand: Json) {
    if op == "in" then
      operand.List? && 1 <= |operand.items| <= 50 && forall i | 0 <= i < |operand.items| :: Meant(h, t, operand.items[i])
    else if op == "contains" then operand.Text? && operand.s != ""
    else if op == "eq" || op == "ne" then Meant(h, t, operand)
    else (op == "gt" || op == "lt") && operand != Null && Meant(h, t, operand)
  }

  ghost predicate ColumnAccepted(h: Host, types: Types, column: string, spec: Json) {
    && IsIdent(h, column) && column in types
    && match spec
       case Dict(fields) => fields != [] && forall j | 0 <= j < |fields| :: Accepted(h, types[column], fields[j].0, fields[j].1)
       case _ => Accepted(h, types[column], "eq", spec)
  }

  /** A filter compiles if and only if it is a non-empty dictionary and every condition of every column is accepted. */
  lemma CompilesIff(h: Host, types: Types, filter: Json)
    ensures CompileWhere(h, types, filter).Ok? <==>
            filter.Dict? && filter.fields != []
            && forall i | 0 <= i < |filter.fields| :: ColumnAccepted(h, types, filter.fields[i].0, filter.fields[i].1)
  {
    hide ColumnAccepted, CompileColumns;
    if filter.Dict? {
      ColumnsCompileIff(h, types, filter.fields);
    }
  }

  lemma {:induction false} ColumnsCompileIff(h: Host, types: Types, columns: seq<(string, Json)>)
    ensures CompileColumns(h, types, columns).Ok? <==>
            forall i | 0 <= i < |columns| :: ColumnAccepted(h, types, columns[i].0, columns[i].1)
  {
    hide IsIdent, CompileConditions, Accepted;
    if columns != [] {
      var front, last := columns[..|columns| - 1], columns[|columns| - 1];
      ColumnsCompileIff(h, types, front);
      assert columns == front + [last];
      if last.0 in types {
        ConditionsCompileIff(h, last.0, types[last.0], Conditions(last.1));
        assert !last.1.Dict? ==> Conditions(last.1)[0] == ("eq", last.1);
      }
    }
  }

  lemma {:induction false} ConditionsCompileIff(h: Host, column: string, t: ColType, conditions: seq<(string, Json)>)
    ensures CompileConditions(h, column, t, conditions).Ok? <==>
            forall j | 0 <= j < |conditions| :: Accepted(h, t, conditions[j].0, conditions[j].1)
  {
    hide Accepted, CompileCondition;
    if conditions != [] {
      var front, last := conditions[..|conditions| - 1], conditions[|conditions| - 1];
      ConditionsCompileIff(h, column, t, front);
      assert conditions == front + [last];
      ConditionCompilesIff(h, column, t, last.0, last.1);
    }
  }

  lemma ConditionCompilesIff(h: Host, column: string, t: ColType, op: string, operand: Json)
    ensures CompileCondition(h, column, t, op, operand).Ok? <==> Accepted(h, t, op, operand)
  {
    hide CoerceAll, Meant, Coerce;
    MeantIff(h, t, operand);
    if operand.List? {
      AllCoercedIff(h, operand.items, t);
    }
  }

  lemma {:induction false} AllCoercedIff(h: Host, vs: seq<Json>, t: ColType)
    ensures CoerceAll(h, vs, t).Ok? <==> forall i | 0 <= i < |vs| :: Meant(h, t, vs[i])
  {
    hide Coerce, Meant;
    if vs != [] {
      AllCoercedIff(h, vs[..|vs| - 1], t);
      MeantIff(h, t, vs[|vs| - 1]);
      assert vs == vs[..|vs| - 1] + [vs[|vs| - 1]];
    }
  }

  // ---- Names ----

  ghost predicate Letter(c: char) {
    'a' <= c <= 'z' || 'A' <= c <= 'Z' || c == '_'
  }

  ghost predicate Plain(c: char) {
    Letter(c) || '0' <= c <= '9'
  }

  /**
   * An ASCII name is accepted if and only if it is at most 32 letters, digits and underscores, not
   * beginning with a digit; no accepted name holds any other ASCII character, such as a quote.
   */
  lemma NamesArePlain(h: Host, name: string)
    ensures (forall i | 0 <= i < |name| :: name[i] as int < 0x80) ==>
              (IsIdent(h, name) <==> 1 <= |name| <= 32 && Letter(name[0]) && forall i | 0 <= i < |name| :: Plain(name[i]))
    ensures IsIdent(h, name) ==> 1 <= |name| <= 32 && forall i | 0 <= i < |name| :: Plain(name[i]) || name[i] as int >= 0x80
  {
  }

  // ---- Assignments ----

  /** The assignment names a column of the table other than the row id, and its argument denotes a value of it. */
  ghost predicate Assignable(h: Host, types: Types, s: (string, Json)) {
    s.0 in types && s.0 != "_id" && Meant(h, types[s.0], s.1)
  }

  lemma {:induction false} AssignmentsCoerceIff(h: Host, types: Types, sets: seq<(string, Json)>)
    ensures CoerceAssignments(h, types, sets).Ok? <==> forall i | 0 <= i < |sets| :: Assignable(h, types, sets[i])
  {
    hide Coerce, Meant;
    if sets != [] {
      var front, last := sets[..|sets| - 1], sets[|sets| - 1];
      AssignmentsCoerceIff(h, types, front);
      assert sets == front + [last];
      if last.0 in types {
        MeantIff(h, types[last.0], last.1);
      }
    }
  }

  /** An update is planned if and only if every assignment can be made and the filter compiles. */
  lemma UpdatePlansIff(h: Host, types: Types, filter: Json, sets: seq<(string, Json)>)
    ensures PlanUpdate(h, types, filter, sets).Ok? <==>
            (forall i | 0 <= i < |sets| :: Assignable(h, types, sets[i])) && CompileWhere(h, types, filter).Ok?
  {
    hide CompileWhere, CoerceAssignments, Assignable;
    AssignmentsCoerceIff(h, types, sets);
  }

  // ---- Pages ----

  /** A page holds, in order, the rows from the offset on, as many as there are up to the limit. */
  lemma PageMeans(rows: seq<map<string, SqlValue>>, limit: nat, offset: nat, i: nat)
    ensures |Page(rows, limit, offset)| == if offset >= |rows| then 0 else if |rows| - offset <= limit then |rows| - offset else limit
    ensures i < |Page(rows, limit, offset)| ==> offset + i < |rows| && Page(rows, limit, offset)[i] == rows[offset + i]
  {
  }
}

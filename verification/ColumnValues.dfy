/**
 * What a tool argument means as the value of a column (core/character_self_db.py): a relation between
 * arguments and stored values that the conversion is proved to decide, and the way back to an argument.
 */
module ColumnValues {
  import opened Wrappers
  import opened WhereCompiler
  import Strings = Text

  ghost predicate Truth(v: Json, b: bool) {
    match v
    case Bool(c) => c == b
    case Int(n) => n == if b then 1 else 0
    case Text(s) => Strings.Spells(s, if b then "true" else "false")
    case _ => false
  }

  ghost predicate Number(h: Host, v: Json, r: real) {
    match v
    case Int(n) => n as real == r
    case Real(x) => x == r
    case Text(s) => h.parseNumber(s) == Some(r)
    case _ => false
  }

  ghost predicate Wording(h: Host, v: Json, s: string) {
    match v
    case Text(x) => x == s
    case Bool(b) => s == if b then "true" else "false"
    case Int(n) => h.showInt(n) == s
    case Real(r) => h.showReal(r) == s
    case _ => false
  }

  ghost predicate Day(h: Host, v: Json, s: string) {
    match v
    case Text(x) => h.parseDate(x) == Some(s)
    case Bool(b) => h.parseDate(if b then "True" else "False") == Some(s)
    case Int(n) => h.parseDate(h.showInt(n)) == Some(s)
    case Real(r) => h.parseDate(h.showReal(r)) == Some(s)
    case _ => false
  }

  /** The argument `v`, as a value of a column of type `t`, is stored as `x`. */
  ghost predicate Denotes(h: Host, t: ColType, v: Json, x: SqlValue) {
    if v == Null then x == SqlNull
    else match t
      case TextType => x.SqlText? && |x.s| <= 4000 && Wording(h, v, x.s)
      case NumberType => x.SqlNumber? && Number(h, v, x.r)
      case BoolType => (x == SqlNumber(1.0) && Truth(v, true)) || (x == SqlNumber(0.0) && Truth(v, false))
      case DateType => x.SqlText? && Day(h, v, x.s)
  }

  lemma SpellsLower(s: string, w: string)
    requires w == "true" || w == "false"
    ensures LowerAscii(s) == w <==> Strings.Spells(s, w)
  {
    assert forall k | 0 <= k < |w| :: 'a' <= w[k] <= 'z';
    if LowerAscii(s) == w {
      assert forall k | 0 <= k < |s| :: LowerAscii(s)[k] == Strings.Lower(s[k]);
    }
  }

  /** The conversion succeeds with `x` if and only if the argument denotes `x`. */
  lemma CoerceDenotes(h: Host, t: ColType, v: Json, x: SqlValue)
    ensures Coerce(h, v, t) == Ok(x) <==> Denotes(h, t, v, x)
  {
    hide Strings.Spells, LowerAscii;
    if v.Text? {
      SpellsLower(v.s, "true");
      SpellsLower(v.s, "false");
    }
  }

  lemma {:induction false} AllDenoted(h: Host, t: ColType, vs: seq<Json>, x: SqlValue)
    requires CoerceAll(h, vs, t).Ok?
    ensures x in CoerceAll(h, vs, t).value <==> exists i :: 0 <= i < |vs| && Denotes(h, t, vs[i], x)
  {
    hide Coerce, Denotes;
    var xs := CoerceAll(h, vs, t).value;
    forall i | 0 <= i < |vs|
      ensures Denotes(h, t, vs[i], x) <==> xs[i] == x
    {
      CoerceDenotes(h, t, vs[i], x);
    }
    if x in xs {
      var i :| 0 <= i < |xs| && xs[i] == x;
      assert Denotes(h, t, vs[i], x);
    }
    if i :| 0 <= i < |vs| && Denotes(h, t, vs[i], x) {
      assert xs[i] == x;
    }
  }

  /** No argument denotes two values. */
  lemma DenotesOne(h: Host, t: ColType, v: Json, x: SqlValue, y: SqlValue)
    requires Denotes(h, t, v, x) && Denotes(h, t, v, y)
    ensures x == y
  {
    CoerceDenotes(h, t, v, x);
    CoerceDenotes(h, t, v, y);
  }

  /** A boolean column takes exactly the booleans, 0 and 1, and the two words in any case; true and false stay apart. */
  lemma BooleansDenote(h: Host, v: Json, x: SqlValue)
    ensures (exists y :: Denotes(h, BoolType, v, y)) <==> v == Null || Truth(v, true) || Truth(v, false)
    ensures !(Truth(v, true) && Truth(v, false))
    ensures Denotes(h, BoolType, Bool(true), x) <==> Denotes(h, BoolType, Int(1), x)
    ensures Denotes(h, BoolType, Bool(true), x) <==> Denotes(h, BoolType, Text("True"), x)
    ensures Denotes(h, BoolType, Bool(false), x) <==> Denotes(h, BoolType, Int(0), x)
    ensures Denotes(h, BoolType, Bool(true), x) ==> !Denotes(h, BoolType, Bool(false), x)
  {
    if Truth(v, true) {
      assert Denotes(h, BoolType, v, SqlNumber(1.0)) || v == Null;
    }
    if Truth(v, false) {
      assert Denotes(h, BoolType, v, SqlNumber(0.0)) || v == Null;
    }
    if v == Null {
      assert Denotes(h, BoolType, v, SqlNull);
    }
  }

  // ---- The way back ----

  /** A stored value as it is returned; redaction of texts is not part of this model. */
  function OutValue(x: SqlValue, t: ColType): Json {
    match x
    case SqlNull => Null
    case SqlText(s) => if t.BoolType? then Bool(s != "") else Text(s)
    case SqlNumber(r) =>
      if t.BoolType? then Bool(r != 0.0)
      else if t.NumberType? && r == r.Floor as real then Int(r.Floor)
      else Real(r)
  }

  /** A value of the column's own kind comes back as it went in; a whole float comes back as an integer. */
  lemma OwnValuesComeBack(h: Host, t: ColType, v: Json, x: SqlValue)
    requires Coerce(h, v, t) == Ok(x)
    ensures v == Null ==> OutValue(x, t) == Null
    ensures t == BoolType && v.Bool? ==> OutValue(x, t) == v
    ensures t == TextType && v.Text? ==> OutValue(x, t) == v
    ensures t == NumberType && v.Int? ==> OutValue(x, t) == v
    ensures t == NumberType && v.Real? ==>
              OutValue(x, t) == v || (OutValue(x, t).Int? && OutValue(x, t).n as real == v.r)
  {
    CoerceDenotes(h, t, v, x);
  }
}

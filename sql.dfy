// The SQL text that MySqlDbConnector builds by concatenation
// (connectors.py: _generate_insert_statement, _generate_constraint_statement,
// the SELECT of fetch_records and the statement of create_view). Values are
// spliced in verbatim: quotes inside values are not escaped, as in the source.

module Sql {
  import opened Results
  import opened Text
  import opened Json

  /** True when every value of the record is a Python `str`. */
  predicate AllStr(r: Record)
  {
    forall k :: 0 <= k < |r| ==> r[k].1.Str?
  }

  function StrValues(r: Record): (vs: seq<string>)
    requires AllStr(r)
    ensures |vs| == |r|
    ensures forall k :: 0 <= k < |r| ==> vs[k] == r[k].1.s
  {
    if r == [] then [] else [r[0].1.s] + StrValues(r[1..])
  }

  /**
   * A text MySQL reads back as itself once it is spliced between quotes: it has
   * no quote of either kind and no backslash.
   */
  predicate Unquoted(s: string)
  {
    '\'' !in s && '"' !in s && '\\' !in s
  }

  /** The text a value contributes to a WHERE condition or a VALUES list. */
  function Spliced(v: Value): string
  {
    if v.Str? then v.s else PyStr(v)
  }

  /** Every value of the record splices into the SQL text unchanged. */
  predicate UnquotedValues(r: Record)
  {
    forall k :: 0 <= k < |r| ==> Unquoted(Spliced(r[k].1))
  }

  /**
   * `_generate_insert_statement`: `'", "'.join(values)` raises a TypeError
   * unless every value is a `str`.
   */
  function InsertStatement(r: Record, table: string): Result<string>
  {
    if !AllStr(r) then Err("TypeError: sequence item: expected str instance")
    else Ok("INSERT INTO " + table + " (" + Join(Keys(r), ", ") + ") VALUES (\"" +
            Join(StrValues(r), "\", \"") + "\");")
  }

  /**
   * The insert statement exists exactly for all-`str` records, and its column
   * list and value list decode back to the record's keys and values, in order:
   * as many values as columns.
   */
  lemma InsertStatementDecodes(r: Record, table: string)
    requires |r| > 0
    requires forall k :: 0 <= k < |r| ==> !Occurs(r[k].0, ", ")
    requires forall k :: 0 <= k < |r| ==> r[k].1.Str? ==> '"' !in r[k].1.s
    ensures InsertStatement(r, table).Ok? <==> AllStr(r)
    ensures AllStr(r) ==>
      exists cols, vals ::
        InsertStatement(r, table) == Ok("INSERT INTO " + table + " (" + cols + ") VALUES (\"" + vals + "\");") &&
        SplitOn(cols, ", ") == Keys(r) && SplitOn(vals, "\", \"") == StrValues(r) &&
        |SplitOn(cols, ", ")| == |SplitOn(vals, "\", \"")|
  {
    if AllStr(r) {
      var cols, vals := Join(Keys(r), ", "), Join(StrValues(r), "\", \"");
      forall k | 0 <= k < |r| ensures SepFree(Keys(r)[k], ", ") && SepFree(StrValues(r)[k], "\", \"") {
        CommaSepFree(r[k].0);
        FirstAbsentSepFree(r[k].1.s, "\", \"");
      }
      SplitJoin(Keys(r), ", ");
      SplitJoin(StrValues(r), "\", \"");
      assert InsertStatement(r, table) == Ok("INSERT INTO " + table + " (" + cols + ") VALUES (\"" + vals + "\");");
    }
  }

  /** One condition of the WHERE clause: strings quoted, everything else through `str`. */
  function Condition(key: string, v: Value): string
  {
    if v.Str? then key + "='" + v.s + "'" else key + "=" + PyStr(v)
  }

  function Conditions(c: Record): (conds: seq<string>)
    ensures |conds| == |c|
    ensures forall k :: 0 <= k < |c| ==> conds[k] == Condition(c[k].0, c[k].1)
  {
    if c == [] then [] else [Condition(c[0].0, c[0].1)] + Conditions(c[1..])
  }

  function WhereClause(c: Record): string
  {
    "WHERE " + Join(Conditions(c), " AND ")
  }

  /** `_generate_constraint_statement`: appends one condition per entry, then joins them. */
  method ConstraintStatement(c: Record) returns (s: string)
    ensures s == WhereClause(c)
  {
    var conditionList: seq<string> := [];
    var k := 0;
    while k < |c|
      invariant 0 <= k <= |c|
      invariant conditionList == Conditions(c[..k])
    {
      var condition;
      if c[k].1.Str? {
        condition := c[k].0 + "='" + c[k].1.s + "'";
      } else {
        condition := c[k].0 + "=" + PyStr(c[k].1);
      }
      assert c[..k + 1] == c[..k] + [c[k]];
      ConditionsAppend(c[..k], c[k]);
      conditionList := conditionList + [condition];
      k := k + 1;
    }
    assert c[..k] == c;
    s := "WHERE " + Join(conditionList, " AND ");
  }

  lemma ConditionsAppend(c: Record, e: (string, Value))
    ensures Conditions(c + [e]) == Conditions(c) + [Condition(e.0, e.1)]
  {
  }

  /** A text without ", " is never cut early by `split(", ")`: the separator cannot overlap itself. */
  lemma CommaSepFree(x: string)
    requires !Occurs(x, ", ")
    ensures SepFree(x, ", ")
  {
    var sep := ", ";
    var s := x + sep;
    forall j: nat | j < |x| ensures !StartsAt(s, sep, j) {
      if j + 2 <= |x| {
        assert !StartsAt(x, sep, j);
        assert s[j..j + 2] == x[j..j + 2];
      } else {
        assert s[j..j + 2][1] == s[|x|] == ',';
      }
    }
  }

  /**
   * A text without " AND " that does not end in 'D' is never cut early by
   * `split(" AND ")`: only a trailing " AND" can run into the next separator.
   */
  lemma AndSepFree(x: string)
    requires !Occurs(x, " AND ") && (x == [] || x[|x| - 1] != 'D')
    ensures SepFree(x, " AND ")
  {
    var sep := " AND ";
    var s := x + sep;
    forall j: nat | j < |x| ensures !StartsAt(s, sep, j) {
      if j + 5 <= |x| {
        assert !StartsAt(x, sep, j);
        assert s[j..j + 5] == x[j..j + 5];
      } else {
        var m := |x| - j;
        assert s[j..j + 5][m] == s[|x|] == ' ';
        if m == 4 {
          assert s[j..j + 5][3] == x[|x| - 1];
        }
      }
    }
  }

  /** The characters a condition can end in: a closing quote, a digit, 'e' (None, True, False), ']' or '}'. */
  predicate ClosingChar(c: char)
  {
    c == '\'' || '0' <= c <= '9' || c == 'e' || c == ']' || c == '}'
  }

  /** `str(v)` of a value that is not a `str` is never empty and ends in a closing character. */
  lemma PyStrEnd(v: Value)
    requires !v.Str?
    ensures var t := PyStr(v); |t| > 0 && ClosingChar(t[|t| - 1])
  {
    match v
    case Null =>
    case Bool(b) =>
    case Int(i) =>
    case Arr(items) =>
      var t := "[" + Join(ReprItems(v, items), ", ") + "]";
      assert PyStr(v) == t && t[|t| - 1] == ']';
    case Obj(fields) =>
      var t := "{" + Join(ReprFields(v, fields), ", ") + "}";
      assert PyStr(v) == t && t[|t| - 1] == '}';
  }

  /** A condition is never empty and ends in a closing character, so never in 'D'. */
  lemma ConditionEnd(key: string, v: Value)
    ensures var cond := Condition(key, v);
      |cond| > 0 && ClosingChar(cond[|cond| - 1])
  {
    if !v.Str? {
      PyStrEnd(v);
      var t := PyStr(v);
      var cond := key + "=" + t;
      assert cond[|cond| - 1] == t[|t| - 1];
    }
  }

  /**
   * The WHERE clause starts with "WHERE " and its conditions decode back, one per
   * constraint and in the constraints' order, when no condition contains " AND ".
   */
  lemma WhereClauseDecodes(c: Record)
    requires |c| > 0
    requires forall k :: 0 <= k < |c| ==> !Occurs(Condition(c[k].0, c[k].1), " AND ")
    ensures var w := WhereClause(c);
      |w| >= 6 && w[..6] == "WHERE " && SplitOn(w[6..], " AND ") == Conditions(c)
  {
    var w := WhereClause(c);
    assert w[6..] == Join(Conditions(c), " AND ");
    forall k | 0 <= k < |c| ensures SepFree(Conditions(c)[k], " AND ") {
      ConditionEnd(c[k].0, c[k].1);
      AndSepFree(Condition(c[k].0, c[k].1));
    }
    SplitJoin(Conditions(c), " AND ");
  }

  /** The query of `fetch_records`: `*` when no fields are given, WHERE only with constraints. */
  function SelectQuery(table: string, fields: seq<string>, c: Record): string
  {
    "SELECT " + (if fields != [] then Join(fields, ", ") else "*") + " FROM " + table + " " +
    (if c != [] then WhereClause(c) else "")
  }

  /**
   * The SELECT names the requested columns in order (or `*`), and carries a WHERE
   * clause iff there are constraints.
   */
  lemma SelectQueryDecodes(table: string, fields: seq<string>, c: Record)
    requires forall k :: 0 <= k < |fields| ==> !Occurs(fields[k], ", ")
    ensures exists cols, where ::
      SelectQuery(table, fields, c) == "SELECT " + cols + " FROM " + table + " " + where &&
      (fields == [] ==> cols == "*") &&
      (fields != [] ==> SplitOn(cols, ", ") == fields) &&
      (where == "" <==> c == []) &&
      (c != [] ==> where == WhereClause(c))
  {
    var cols := if fields != [] then Join(fields, ", ") else "*";
    var where := if c != [] then WhereClause(c) else "";
    if fields != [] {
      forall k | 0 <= k < |fields| ensures SepFree(fields[k], ", ") {
        CommaSepFree(fields[k]);
      }
      SplitJoin(fields, ", ");
    }
    assert SelectQuery(table, fields, c) == "SELECT " + cols + " FROM " + table + " " + where;
  }

  /** The statement of `create_view` (two spaces after VIEW, as in the source). */
  function CreateViewStatement(name: string, query: string): (s: string)
    ensures |s| == 31 + |name| + |query|
    ensures s[..24] == "CREATE OR REPLACE VIEW  " && s[24..24 + |name|] == name
    ensures s[24 + |name|..29 + |name|] == " AS (" && s[29 + |name|..|s| - 2] == query
    ensures s[|s| - 2..] == ");"
  {
    "CREATE OR REPLACE VIEW  " + name + " AS (" + query + ");"
  }
}

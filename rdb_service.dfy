/** The statement builders of the relational record store, with the driver
    abstracted as a function from (statement text, bound arguments) to what
    the driver did. A Python dict argument is a sequence of (key, value)
    pairs in insertion order. */
module RdbService {
  import opened Wrappers
  import opened Decimal
  import opened SqlText
  import opened Seqs

  /** A column value: the model keeps the int and string values callers
      pass; other JSON values are not modelled. */
  datatype Value = VInt(i: int) | VStr(s: string)

  /** One (column, value) entry of a dict. */
  type Pair = (string, Value)

  /** What an f-string writes for a value (Python str()): strings go in
      verbatim, without quotes or escaping. */
  function Str(v: Value): string {
    match v
    case VInt(i) => IntToString(i)
    case VStr(s) => s
  }

  /** The two exceptions the store raises: ValueError for a call without
      conditions, RDBServiceException wrapping a driver failure. */
  datatype Error = ValueError(msg: string) | RDBServiceException(cause: string)

  /** What the driver did with one statement: the row count and
      lastrowid of a successful execute, or the exception it raised. */
  datatype Execution = Executed(rowCount: nat, lastRowId: int) | Raised(cause: string)

  /** The database: statement text and bound arguments (None when execute
      is called without args) to the outcome of executing it. */
  type Database = (string, Option<seq<Value>>) -> Execution

  const UpdateWithoutConditions := "Must have at least one condition for a record update."
  const DeleteWithoutConditions := "Missing conditions for deletion."

  /** The largest BIGINT UNSIGNED, 2^64 - 1: the row count the store writes
      as the limit when only an offset is given. */
  const MaxUnsignedBigint: nat := 18446744073709551615

  /** The limit text written when only an offset is given. */
  const UnboundedLimitText: string := NatToString(MaxUnsignedBigint)

  function Keys(t: seq<Pair>): seq<string> {
    seq(|t|, k requires 0 <= k < |t| => t[k].0)
  }

  function Values(t: seq<Pair>): seq<Value> {
    seq(|t|, k requires 0 <= k < |t| => t[k].1)
  }

  /** `k=%s` for every key: the terms of a parameterised WHERE clause. */
  function PlaceholderTerms(t: seq<Pair>): seq<string> {
    seq(|t|, k requires 0 <= k < |t| => t[k].0 + "=%s")
  }

  /** `k = v` for every entry, the value written into the text. */
  function EqualityTerms(t: seq<Pair>): seq<string> {
    seq(|t|, k requires 0 <= k < |t| => EqualityTerm(t[k]))
  }

  function EqualityTerm(p: Pair): string {
    p.0 + " = " + Str(p.1)
  }

  function SelectFrom(schema: string, table: string): string {
    "SELECT * FROM " + schema + "." + table
  }

  predicate NoKeyHolds(t: seq<Pair>, c: char) {
    forall k :: 0 <= k < |t| ==> CountChar(t[k].0, c) == 0
  }

  predicate NoEntryHolds(t: seq<Pair>, c: char) {
    forall k :: 0 <= k < |t| ==> CountChar(t[k].0, c) == 0 && CountChar(Str(t[k].1), c) == 0
  }

  // ---------------------------------------------------------------------
  // WHERE clause of a template query

  /** The clause and bound arguments of a template: nothing for an absent
      or empty template, otherwise one `k=%s` term per key joined by AND and
      the values in key order. */
  function WhereClause(template: Option<seq<Pair>>): (string, Option<seq<Value>>) {
    if template.None? || template.value == [] then ("", None)
    else (" WHERE " + Join(" AND ", PlaceholderTerms(template.value)), Some(Values(template.value)))
  }

  method GetWhereClauseArgs(template: Option<seq<Pair>>) returns (clause: string, args: Option<seq<Value>>)
    ensures (clause, args) == WhereClause(template)
  {
    var terms: seq<string> := [];
    var argList: seq<Value> := [];
    if template.None? || template.value == [] {
      clause := "";
      args := None;
    } else {
      var t := template.value;
      var k := 0;
      while k < |t|
        invariant 0 <= k <= |t|
        invariant terms == PlaceholderTerms(t[..k])
        invariant argList == Values(t[..k])
      {
        terms := terms + [t[k].0 + "=%s"];
        argList := argList + [t[k].1];
        k := k + 1;
      }
      assert t[..k] == t;
      clause := " WHERE " + Join(" AND ", terms);
      args := Some(argList);
    }
  }

  lemma {:induction false} PlaceholderTermsCount(t: seq<Pair>)
    requires NoKeyHolds(t, '%')
    ensures forall k :: 0 <= k < |t| ==> CountChar(PlaceholderTerms(t)[k], '%') == 1
  {
    assert CountChar("=%s", '%') == 1;
    forall k | 0 <= k < |t| ensures CountChar(PlaceholderTerms(t)[k], '%') == 1 {
      assert PlaceholderTerms(t)[k] == t[k].0 + "=%s";
      CountCharConcat(t[k].0, "=%s", '%');
    }
  }

  lemma {:induction false} PlaceholderCount(t: seq<Pair>)
    requires NoKeyHolds(t, '%')
    ensures CountChar(" WHERE " + Join(" AND ", PlaceholderTerms(t)), '%') == |t|
  {
    PlaceholderTermsCount(t);
    AbsentCount(" AND ", '%');
    AbsentCount(" WHERE ", '%');
    CountCharJoinParts(" AND ", PlaceholderTerms(t), '%');
    CountCharConcat(" WHERE ", Join(" AND ", PlaceholderTerms(t)), '%');
  }

  /** The clause is empty exactly when no arguments are bound; otherwise
      the arguments are the template's values in order and, when no key
      holds a '%', the clause holds one placeholder per argument. */
  lemma {:induction false} WhereClausePlaceholders(template: Option<seq<Pair>>)
    ensures WhereClause(template).0 == "" <==> WhereClause(template).1.None?
    ensures template.Some? && template.value != [] ==>
      var t, args := template.value, WhereClause(template).1;
      args.Some? && |args.value| == |t| &&
      (forall k :: 0 <= k < |t| ==> args.value[k] == t[k].1) &&
      (NoKeyHolds(t, '%') ==> CountChar(WhereClause(template).0, '%') == |args.value|)
  {
    if template.Some? && template.value != [] {
      var t := template.value;
      var terms := Join(" AND ", PlaceholderTerms(t));
      var clause := " WHERE " + terms;
      assert WhereClause(template) == (clause, Some(Values(t)));
      assert |clause| == 7 + |terms|;
      if NoKeyHolds(t, '%') {
        PlaceholderCount(t);
      }
    } else {
      assert WhereClause(template) == ("", None);
    }
  }

  // ---------------------------------------------------------------------
  // LIMIT tail of fetch_all_records and find_by_template

  /** The text appended for the optional offset and limit. */
  function LimitSuffix(offset: Option<int>, limit: Option<int>): string {
    if offset.Some? && limit.Some? then " LIMIT " + IntToString(offset.value) + "," + IntToString(limit.value)
    else if offset.Some? then " LIMIT " + IntToString(offset.value) + "," + UnboundedLimitText
    else if limit.Some? then " LIMIT " + IntToString(limit.value)
    else ""
  }

  function Min(a: nat, b: nat): nat {
    if a <= b then a else b
  }

  /** The rows a MySQL LIMIT tail selects from an ordered result ("" for no
      tail): `LIMIT n` keeps the first n rows, `LIMIT o,n` skips o rows and
      keeps n. None for a tail the server rejects: a number that is not an
      unsigned decimal literal, or one above the largest value LIMIT takes,
      2^64-1. */
  function ApplyLimit<T>(rows: seq<T>, tail: string): Option<seq<T>> {
    if tail == "" then Some(rows)
    else if |tail| < 7 || tail[..7] != " LIMIT " then None
    else
      var body := tail[7..];
      match IndexOf(body, ',')
      case None => ApplyCount(rows, body)
      case Some(i) => ApplyPair(rows, body[..i], body[i + 1..])
  }

  /** `LIMIT n`: the first n rows. */
  function ApplyCount<T>(rows: seq<T>, n: string): Option<seq<T>> {
    match ParseNat(n)
    case Some(n) => if n > MaxUnsignedBigint then None else Some(rows[..Min(n, |rows|)])
    case None => None
  }

  /** `LIMIT o,n`: n rows after the first o. */
  function ApplyPair<T>(rows: seq<T>, o: string, n: string): Option<seq<T>> {
    match (ParseNat(o), ParseNat(n))
    case (Some(o), Some(n)) =>
      if o > MaxUnsignedBigint || n > MaxUnsignedBigint then None
      else Some(rows[Min(o, |rows|)..Min(o + n, |rows|)])
    case _ => None
  }

  /** The page a caller asks for: skip `offset` rows (none if absent), then
      keep `limit` rows (all the rest if absent). */
  function Page<T>(rows: seq<T>, offset: Option<nat>, limit: Option<nat>): seq<T> {
    var start := if offset.Some? then Min(offset.value, |rows|) else 0;
    if limit.Some? then rows[start..Min(start + limit.value, |rows|)] else rows[start..]
  }

  /** The tail split back into " LIMIT " and its body, stated apart so
      that the LIMIT lemmas need not unfold the concatenation. */
  lemma {:induction false} LimitTail(body: string)
    ensures var tail := " LIMIT " + body;
      tail != "" && |tail| >= 7 && tail[..7] == " LIMIT " && tail[7..] == body
  {
  }

  /** `a,b` splits at the comma when `a` holds none. */
  lemma {:induction false} SplitAtComma(a: string, b: string)
    requires forall k :: 0 <= k < |a| ==> a[k] != ','
    ensures var body := a + "," + b;
      IndexOf(body, ',') == Some(|a|) && body[..|a|] == a && body[|a| + 1..] == b
  {
    IndexOfAfter(a, "," + b, ',');
    assert a + "," + b == a + ("," + b);
  }

  /** A tail `LIMIT a,b` selects by the two numbers it reads. */
  lemma {:induction false} PairTail<T>(rows: seq<T>, a: string, b: string)
    requires forall k :: 0 <= k < |a| ==> a[k] != ','
    ensures ApplyLimit(rows, " LIMIT " + (a + "," + b)) == ApplyPair(rows, a, b)
  {
    LimitTail(a + "," + b);
    SplitAtComma(a, b);
  }

  lemma {:induction false} LimitPairSelects<T>(rows: seq<T>, o: nat, n: nat)
    requires o <= MaxUnsignedBigint && n <= MaxUnsignedBigint
    ensures ApplyLimit(rows, " LIMIT " + NatToString(o) + "," + NatToString(n)) ==
            Some(rows[Min(o, |rows|)..Min(o + n, |rows|)])
  {
    Regroup4(" LIMIT ", NatToString(o), ",", NatToString(n));
    PairTail(rows, NatToString(o), NatToString(n));
    PairOfNats(rows, o, n);
  }

  lemma {:induction false} PairOfNats<T>(rows: seq<T>, o: nat, n: nat)
    requires o <= MaxUnsignedBigint && n <= MaxUnsignedBigint
    ensures ApplyPair(rows, NatToString(o), NatToString(n)) == Some(rows[Min(o, |rows|)..Min(o + n, |rows|)])
  {
    NatToStringRoundTrip(o);
    NatToStringRoundTrip(n);
  }

  lemma {:induction false} UnboundedLimitParses()
    ensures ParseNat(UnboundedLimitText) == Some(MaxUnsignedBigint)
  {
    NatToStringRoundTrip(MaxUnsignedBigint);
  }

  /** `LIMIT o,b` where `b` reads as at least the number of rows keeps
      every row from the offset on. */
  lemma {:induction false} LimitOffsetSelects<T>(rows: seq<T>, o: nat, b: string, n: nat)
    requires o <= MaxUnsignedBigint && ParseNat(b) == Some(n) && |rows| <= n <= MaxUnsignedBigint
    ensures ApplyLimit(rows, " LIMIT " + NatToString(o) + "," + b) == Some(rows[Min(o, |rows|)..])
  {
    Regroup4(" LIMIT ", NatToString(o), ",", b);
    PairTail(rows, NatToString(o), b);
    OffsetPair(rows, o, b, n);
  }

  lemma {:induction false} OffsetPair<T>(rows: seq<T>, o: nat, b: string, n: nat)
    requires o <= MaxUnsignedBigint && ParseNat(b) == Some(n) && |rows| <= n <= MaxUnsignedBigint
    ensures ApplyPair(rows, NatToString(o), b) == Some(rows[Min(o, |rows|)..])
  {
    NatToStringRoundTrip(o);
    assert Min(o + n, |rows|) == |rows|;
    assert rows[Min(o, |rows|)..|rows|] == rows[Min(o, |rows|)..];
  }

  lemma {:induction false} LimitCountSelects<T>(rows: seq<T>, n: nat)
    requires n <= MaxUnsignedBigint
    ensures ApplyLimit(rows, " LIMIT " + NatToString(n)) == Some(rows[..Min(n, |rows|)])
  {
    LimitTail(NatToString(n));
    NatToStringRoundTrip(n);
  }

  /** For arguments in the range LIMIT takes, the tail selects exactly the
      requested page of any result the server can return; in particular an
      offset without a limit still skips the offset. */
  lemma {:induction false} LimitSuffixSelectsPage<T>(rows: seq<T>, offset: Option<nat>, limit: Option<nat>)
    requires |rows| <= MaxUnsignedBigint
    requires offset.Some? ==> offset.value <= MaxUnsignedBigint
    requires limit.Some? ==> limit.value <= MaxUnsignedBigint
    ensures ApplyLimit(rows, LimitSuffix(offset, limit)) == Some(Page(rows, offset, limit))
  {
    match (offset, limit)
    case (Some(o), Some(n)) => PairSuffixSelects(rows, o, n);
    case (Some(o), None) => OffsetSuffixSelects(rows, o);
    case (None, Some(n)) => CountSuffixSelects(rows, n);
    case (None, None) =>
  }

  lemma {:induction false} PairSuffixSelects<T>(rows: seq<T>, o: nat, n: nat)
    requires o <= MaxUnsignedBigint && n <= MaxUnsignedBigint
    ensures ApplyLimit(rows, LimitSuffix(Some(o), Some(n))) == Some(Page(rows, Some(o), Some(n)))
  {
    PairSuffixText(o, n);
    LimitPairSelects(rows, o, n);
    PairPage(rows, o, n);
  }

  /** The two-number tail as text, stated apart so that PairSuffixSelects
      does not unfold LimitSuffix next to ApplyLimit. */
  lemma {:induction false} PairSuffixText(o: nat, n: nat)
    ensures LimitSuffix(Some(o), Some(n)) == " LIMIT " + NatToString(o) + "," + NatToString(n)
  {
    assert IntToString(o) == NatToString(o) && IntToString(n) == NatToString(n);
  }

  /** Page with both bounds as one slice, stated apart for the same reason. */
  lemma {:induction false} PairPage<T>(rows: seq<T>, o: nat, n: nat)
    ensures Page(rows, Some(o), Some(n)) == rows[Min(o, |rows|)..Min(o + n, |rows|)]
  {
    assert Min(Min(o, |rows|) + n, |rows|) == Min(o + n, |rows|);
  }

  lemma {:induction false} OffsetSuffixSelects<T>(rows: seq<T>, o: nat)
    requires |rows| <= MaxUnsignedBigint && o <= MaxUnsignedBigint
    ensures ApplyLimit(rows, LimitSuffix(Some(o), None)) == Some(Page(rows, Some(o), None))
  {
    assert LimitSuffix(Some(o), None) == " LIMIT " + NatToString(o) + "," + UnboundedLimitText;
    UnboundedLimitParses();
    LimitOffsetSelects(rows, o, UnboundedLimitText, MaxUnsignedBigint);
  }

  lemma {:induction false} CountSuffixSelects<T>(rows: seq<T>, n: nat)
    requires n <= MaxUnsignedBigint
    ensures ApplyLimit(rows, LimitSuffix(None, Some(n))) == Some(Page(rows, None, Some(n)))
  {
    assert LimitSuffix(None, Some(n)) == " LIMIT " + NatToString(n);
    LimitCountSelects(rows, n);
  }

  /** A tail `LIMIT a,b` whose first number does not start with a digit
      is rejected. */
  lemma {:induction false} SignedOffsetRejected<T>(rows: seq<T>, a: string, b: string)
    requires a != [] && !IsDigit(a[0]) && forall k :: 0 <= k < |a| ==> a[k] != ','
    ensures ApplyLimit(rows, " LIMIT " + (a + "," + b)) == None
  {
    PairTail(rows, a, b);
  }

  /** A tail `LIMIT a` whose number does not start with a digit is rejected. */
  lemma {:induction false} SignedCountRejected<T>(rows: seq<T>, a: string)
    requires a != [] && !IsDigit(a[0]) && forall k :: 0 <= k < |a| ==> a[k] != ','
    ensures ApplyLimit(rows, " LIMIT " + a) == None
  {
    LimitTail(a);
    assert IndexOf(a, ',') == None;
  }

  /** A tail `LIMIT a,b` whose second number does not start with a digit
      is rejected. */
  lemma {:induction false} SignedPairLimitRejected<T>(rows: seq<T>, a: string, b: string)
    requires b != [] && !IsDigit(b[0]) && forall k :: 0 <= k < |a| ==> a[k] != ','
    ensures ApplyLimit(rows, " LIMIT " + (a + "," + b)) == None
  {
    PairTail(rows, a, b);
    assert ParseNat(b) == None;
  }

  /** A negative offset, or a negative limit with or without an offset,
      gives a tail the server rejects. */
  lemma {:induction false} NegativeLimitRejected<T>(rows: seq<T>, offset: Option<int>, limit: Option<int>)
    requires (offset.Some? && offset.value < 0) || (limit.Some? && limit.value < 0)
    ensures ApplyLimit(rows, LimitSuffix(offset, limit)) == None
  {
    if offset.Some? {
      var a := IntToString(offset.value);
      var b := if limit.Some? then IntToString(limit.value) else UnboundedLimitText;
      assert LimitSuffix(offset, limit) == " LIMIT " + a + "," + b;
      Regroup4(" LIMIT ", a, ",", b);
      if offset.value < 0 {
        SignedOffsetRejected(rows, a, b);
      } else {
        SignedPairLimitRejected(rows, a, b);
      }
    } else {
      SignedCountRejected(rows, IntToString(limit.value));
    }
  }
  /** An offset or a limit above 2^64-1 gives a tail the server rejects. */
  lemma {:induction false} OversizedLimitRejected<T>(rows: seq<T>, offset: Option<int>, limit: Option<int>)
    requires (offset.Some? && offset.value > MaxUnsignedBigint) || (limit.Some? && limit.value > MaxUnsignedBigint)
    ensures ApplyLimit(rows, LimitSuffix(offset, limit)) == None
  {
    if (offset.Some? && offset.value < 0) || (limit.Some? && limit.value < 0) {
      NegativeLimitRejected(rows, offset, limit);
    } else if offset.Some? {
      var o: nat := offset.value;
      var a := NatToString(o);
      var b := if limit.Some? then IntToString(limit.value) else UnboundedLimitText;
      assert LimitSuffix(offset, limit) == " LIMIT " + a + "," + b;
      Regroup4(" LIMIT ", a, ",", b);
      PairTail(rows, a, b);
      NatToStringRoundTrip(o);
      if limit.Some? {
        var n: nat := limit.value;
        assert b == NatToString(n);
        NatToStringRoundTrip(n);
      } else {
        UnboundedLimitParses();
      }
    } else {
      var n: nat := limit.value;
      var a := NatToString(n);
      assert LimitSuffix(offset, limit) == " LIMIT " + a;
      LimitTail(a);
      assert IndexOf(a, ',') == None;
      NatToStringRoundTrip(n);
    }
  }



  // ---------------------------------------------------------------------
  // Read statements

  function FetchAllStatement(schema: string, table: string, offset: Option<int>, limit: Option<int>): string {
    SelectFrom(schema, table) + LimitSuffix(offset, limit)
  }

  /** The if/elif chain that extends a SELECT with its LIMIT tail. */
  method AppendLimit(sql: string, offset: Option<int>, limit: Option<int>) returns (r: string)
    ensures r == sql + LimitSuffix(offset, limit)
  {
    r := sql;
    if offset.Some? && limit.Some? {
      r := r + (" LIMIT " + IntToString(offset.value) + "," + IntToString(limit.value));
    } else if offset.Some? && limit.None? {
      r := r + (" LIMIT " + IntToString(offset.value) + "," + UnboundedLimitText);
    } else if offset.None? && limit.Some? {
      r := r + (" LIMIT " + IntToString(limit.value));
    }
  }

  /** The statement fetch_all_records executes, without bound arguments. */
  method FetchAllRecordsStatement(schema: string, table: string, offset: Option<int>, limit: Option<int>)
    returns (sql: string)
    ensures sql == FetchAllStatement(schema, table, offset, limit)
  {
    sql := SelectFrom(schema, table);
    sql := AppendLimit(sql, offset, limit);
  }

  /** The statement and arguments find_by_template executes; a space is
      written between the table and the clause, which itself starts with a
      space. */
  function FindByTemplateSql(schema: string, table: string, template: Option<seq<Pair>>,
                             offset: Option<int>, limit: Option<int>): (string, Option<seq<Value>>)
  {
    (SelectFrom(schema, table) + " " + WhereClause(template).0 + LimitSuffix(offset, limit), WhereClause(template).1)
  }

  method FindByTemplateStatement(schema: string, table: string, template: Option<seq<Pair>>,
                                 offset: Option<int>, limit: Option<int>)
    returns (sql: string, args: Option<seq<Value>>)
    ensures (sql, args) == FindByTemplateSql(schema, table, template, offset, limit)
  {
    var whereClause, whereArgs := GetWhereClauseArgs(template);
    sql := SelectFrom(schema, table) + " " + whereClause;
    sql := AppendLimit(sql, offset, limit);
    args := whereArgs;
  }

  /** With no template, find_by_template binds no arguments and executes
      the fetch_all_records statement with one extra space before the
      LIMIT tail. */
  lemma {:induction false} EmptyTemplateIsFetchAll(schema: string, table: string, template: Option<seq<Pair>>,
                                                   offset: Option<int>, limit: Option<int>)
    requires template.None? || template == Some([])
    ensures var head, tail := SelectFrom(schema, table), LimitSuffix(offset, limit);
      FindByTemplateSql(schema, table, template, offset, limit) == (head + " " + tail, None) &&
      FetchAllStatement(schema, table, offset, limit) == head + tail
  {
    assert SelectFrom(schema, table) + " " + "" == SelectFrom(schema, table) + " ";
  }

  /** With a template the text holds two spaces before WHERE. */
  lemma {:induction false} TemplateDoubleSpace(schema: string, table: string, template: Option<seq<Pair>>,
                                               offset: Option<int>, limit: Option<int>)
    requires template.Some? && template.value != []
    ensures var head, sql := SelectFrom(schema, table), FindByTemplateSql(schema, table, template, offset, limit).0;
      |sql| >= |head| + 8 && sql[..|head| + 8] == head + "  WHERE "
  {
    var head, terms := SelectFrom(schema, table), Join(" AND ", PlaceholderTerms(template.value));
    Regroup(head, " ", " WHERE ", terms, LimitSuffix(offset, limit));
    assert " " + " WHERE " == "  WHERE ";
    TakeConcat(head + "  WHERE ", terms + LimitSuffix(offset, limit));
  }

  /** The statement get_by_prefix executes: the prefix is written into a
      quoted LIKE pattern, without escaping. */
  function GetByPrefixStatement(schema: string, table: string, column: string, prefix: string): (r: string)
    ensures var open := |LikeHead(schema, table, column)| + 1;
      |r| >= open + 2 && r[..open] == LikeHead(schema, table, column) + "'" &&
      r[open..|r| - 1] == prefix + "%" && r[|r| - 1] == '\''
  {
    QuotedPattern(LikeHead(schema, table, column), prefix);
    TakeConcat(LikeHead(schema, table, column) + "'", prefix + "%'");
    LikeHead(schema, table, column) + "'" + prefix + "%'"
  }

  /** The text before the pattern literal's opening quote. */
  function LikeHead(schema: string, table: string, column: string): string {
    SelectFrom(schema, table) + " WHERE " + column + " LIKE "
  }

  /** The pattern literal opened after LIKE is closed by the last
      character and by no earlier quote exactly when the prefix holds no
      quote; the literal then reads back as the prefix followed by '%'. */
  lemma {:induction false} GetByPrefixLiteral(schema: string, table: string, column: string, prefix: string)
    ensures var sql := GetByPrefixStatement(schema, table, column, prefix);
      var open := |LikeHead(schema, table, column)| + 1;
      sql[|sql| - 1] == '\'' &&
      (CountChar(prefix, '\'') == 0 <==> IndexOf(sql[open..], '\'') == Some(|sql| - 1 - open)) &&
      sql[open..|sql| - 1] == prefix + "%"
  {
    QuotedPattern(LikeHead(schema, table, column), prefix);
  }

  /** A quoted pattern written after any head text. */
  lemma {:induction false} QuotedPattern(head: string, prefix: string)
    ensures var sql, open := head + "'" + prefix + "%'", |head| + 1;
      sql[|sql| - 1] == '\'' &&
      (CountChar(prefix, '\'') == 0 <==> IndexOf(sql[open..], '\'') == Some(|sql| - 1 - open)) &&
      sql[open..|sql| - 1] == prefix + "%"
  {
    var sql := head + "'" + prefix + "%'";
    var lit := sql[|head| + 1..];
    assert lit == prefix + "%'";
    assert forall k :: 0 <= k < |prefix| ==> lit[k] == prefix[k];
  }

  // ---------------------------------------------------------------------
  // Statements that change the store

  /** What _execute_db_commit_query makes of an execution: the row count,
      or the driver's exception wrapped in RDBServiceException. */
  function Commit(e: Execution): (r: Result<nat, Error>)
    ensures r.Failure? <==> e.Raised?
    ensures r.Failure? ==> r.error == RDBServiceException(e.cause)
    ensures r.Success? ==> r.value == e.rowCount
  {
    match e
    case Executed(n, _) => Success(n)
    case Raised(cause) => Failure(RDBServiceException(cause))
  }

  /** _execute_db_commit_query: execute the text without bound arguments. */
  function ExecuteDbCommitQuery(sql: string, db: Database): (r: Result<nat, Error>)
    ensures r.Failure? <==> db(sql, None).Raised?
    ensures r.Failure? ==> r.error == RDBServiceException(db(sql, None).cause)
    ensures r.Success? ==> r.value == db(sql, None).rowCount
  {
    Commit(db(sql, None))
  }

  /** The UPDATE text: SET terms and condition terms both `k = v` with the
      values written in, and both lists joined by ", ". */
  function UpdateStatement(schema: string, table: string, conditions: Option<seq<Pair>>, fields: seq<Pair>): (r: Result<string, Error>)
    ensures r.Failure? <==> conditions.None? || conditions.value == []
    ensures r.Failure? ==> r.error == ValueError(UpdateWithoutConditions)
  {
    if conditions.None? || |conditions.value| == 0 then Failure(ValueError(UpdateWithoutConditions))
    else
      var updateSql := Join(", ", EqualityTerms(fields));
      var conditionSql := Join(", ", EqualityTerms(conditions.value));
      Success("UPDATE " + schema + "." + table + " SET " + updateSql + " WHERE " + conditionSql)
  }

  /** With conditions, the UPDATE text starts with the table's SET and ends
      with " WHERE " followed by the conditions joined by ", ". */
  lemma {:induction false} UpdateShape(schema: string, table: string, conditions: seq<Pair>, fields: seq<Pair>)
    requires conditions != []
    ensures var sql := UpdateStatement(schema, table, Some(conditions), fields).value;
      var head := "UPDATE " + schema + "." + table + " SET ";
      var tail := " WHERE " + Join(", ", EqualityTerms(conditions));
      |sql| >= |head| + |tail| && sql[..|head|] == head && sql[|sql| - |tail|..] == tail
  {
    var head := "UPDATE " + schema + "." + table + " SET ";
    var assignments := Join(", ", EqualityTerms(fields));
    var tail := " WHERE " + Join(", ", EqualityTerms(conditions));
    var sql := UpdateStatement(schema, table, Some(conditions), fields).value;
    assert sql == head + (assignments + tail);
    TakeConcat(head, assignments + tail);
    assert sql == (head + assignments) + tail;
    DropConcat(head + assignments, tail);
  }

  /** update_record: rejected before any statement reaches the database
      when there is no condition, whatever the database would do. */
  function UpdateRecord(schema: string, table: string, conditions: Option<seq<Pair>>, fields: seq<Pair>, db: Database): (r: Result<nat, Error>)
    ensures (conditions.None? || conditions.value == []) ==> r == Failure(ValueError(UpdateWithoutConditions))
    ensures conditions.Some? && conditions.value != [] ==>
      r == Commit(db(UpdateStatement(schema, table, conditions, fields).value, None))
    ensures r.Failure? && r.error.ValueError? ==> conditions.None? || conditions.value == []
    ensures r.Failure? && r.error.RDBServiceException? ==>
      conditions.Some? && conditions.value != [] &&
      db(UpdateStatement(schema, table, conditions, fields).value, None).Raised?
  {
    match UpdateStatement(schema, table, conditions, fields)
    case Failure(e) => Failure(e)
    case Success(sql) => ExecuteDbCommitQuery(sql, db)
  }

  lemma {:induction false} EqualityTermsCount(t: seq<Pair>, c: char)
    requires NoEntryHolds(t, c)
    ensures forall k :: 0 <= k < |t| ==> CountChar(EqualityTerms(t)[k], c) == CountChar(" = ", c)
  {
    forall k | 0 <= k < |t| ensures CountChar(EqualityTerms(t)[k], c) == CountChar(" = ", c) {
      assert EqualityTerms(t)[k] == t[k].0 + " = " + Str(t[k].1);
      CountCharConcat(t[k].0, " = ", c);
      CountCharConcat(t[k].0 + " = ", Str(t[k].1), c);
    }
  }

  /** The condition text of an UPDATE has one '=' per condition and the
      conditions are separated by commas, not AND, when no key or value
      holds those characters. */
  lemma {:induction false} UpdateConditionsCommaJoined(conditions: seq<Pair>)
    requires |conditions| > 0
    requires NoEntryHolds(conditions, '=') && NoEntryHolds(conditions, ',')
    ensures var text := Join(", ", EqualityTerms(conditions));
      CountChar(text, '=') == |conditions| && CountChar(text, ',') == |conditions| - 1
  {
    var terms := EqualityTerms(conditions);
    EqualityTermsCount(conditions, '=');
    EqualityTermsCount(conditions, ',');
    assert CountChar(" = ", '=') == 1 && CountChar(" = ", ',') == 0;
    assert CountChar(", ", '=') == 0 && CountChar(", ", ',') == 1;
    CountCharJoinParts(", ", terms, '=');
    CountCharJoinSeparators(", ", terms, ',');
  }

  function Placeholders(n: nat): seq<string> {
    seq(n, k => "%s")
  }

  function ColumnSpecifier(fields: seq<Pair>): string {
    "(" + Join(", ", Keys(fields)) + ")"
  }

  function ValueSpecifier(n: nat): string {
    "(" + Join(", ", Placeholders(n)) + ")"
  }

  /** The INSERT text and its bound arguments. */
  function InsertStatement(schema: string, table: string, fields: seq<Pair>): (r: (string, seq<Value>))
    ensures var head := "INSERT INTO " + schema + "." + table;
      |r.0| > |head| && r.0[..|head|] == head
    ensures |r.1| == |fields| && forall k :: 0 <= k < |fields| ==> r.1[k] == fields[k].1
  {
    ("INSERT INTO " + schema + "." + table + ColumnSpecifier(fields) + " VALUES " + ValueSpecifier(|fields|),
     Values(fields))
  }

  /** Parentheses around a list add no other character. */
  lemma {:induction false} ParenCount(x: string, c: char)
    requires c != '(' && c != ')'
    ensures CountChar("(" + x + ")", c) == CountChar(x, c)
  {
    AbsentCount("(", c);
    AbsentCount(")", c);
    CountCharConcat("(", x, c);
    CountCharConcat("(" + x, ")", c);
  }

  /** One placeholder and one column per field, and the bound arguments
      are the field values in key order. */
  lemma {:induction false} InsertListsAgree(schema: string, table: string, fields: seq<Pair>)
    requires NoKeyHolds(fields, ',')
    ensures var (sql, args) := InsertStatement(schema, table, fields);
      |args| == |fields| && (forall k :: 0 <= k < |fields| ==> args[k] == fields[k].1) &&
      CountChar(ValueSpecifier(|fields|), '%') == |fields| &&
      CountChar(ColumnSpecifier(fields), ',') == CountChar(ValueSpecifier(|fields|), ',')
  {
    var n := |fields|;
    var keys, marks := Keys(fields), Placeholders(n);
    assert CountChar(", ", ',') == 1;
    AbsentCount(", ", '%');
    assert CountChar("%s", '%') == 1;
    AbsentCount("%s", ',');
    assert forall k :: 0 <= k < n ==> marks[k] == "%s";
    CountCharJoinParts(", ", marks, '%');
    ParenCount(Join(", ", marks), '%');
    ParenCount(Join(", ", marks), ',');
    ParenCount(Join(", ", keys), ',');
    if n > 0 {
      CountCharJoinSeparators(", ", keys, ',');
      CountCharJoinSeparators(", ", marks, ',');
    }
  }

  /** create_new_record: the new row's lastrowid, or the driver's exception
      wrapped in RDBServiceException. */
  function CreateNewRecord(schema: string, table: string, fields: seq<Pair>, db: Database): (r: Result<int, Error>)
    ensures var (sql, args) := InsertStatement(schema, table, fields);
      var e := db(sql, Some(args));
      (r.Failure? <==> e.Raised?) &&
      (r.Failure? ==> r.error == RDBServiceException(e.cause)) &&
      (r.Success? ==> r.value == e.lastRowId)
  {
    var (sql, args) := InsertStatement(schema, table, fields);
    match db(sql, Some(args))
    case Executed(_, id) => Success(id)
    case Raised(cause) => Failure(RDBServiceException(cause))
  }

  /** The DELETE text for a non-empty key list: every `k = v` joined by AND. */
  function DeleteSql(schema: string, table: string, keys: seq<Pair>): string {
    DeleteHead(schema, table) + Join(" AND ", EqualityTerms(keys))
  }

  function DeleteHead(schema: string, table: string): string {
    "DELETE FROM " + schema + "." + table + " WHERE "
  }

  /** One more key appended by the first_done loop. */
  lemma {:induction false} DeleteLoopStep(head: string, done: seq<Pair>, p: Pair)
    ensures var before := head + Join(" AND ", EqualityTerms(done));
      head + Join(" AND ", EqualityTerms(done + [p])) ==
      if done == [] then before + EqualityTerm(p) else before + " AND " + EqualityTerm(p)
  {
    var ts := EqualityTerms(done);
    assert EqualityTerms(done + [p]) == ts + [EqualityTerm(p)];
    JoinSnoc(" AND ", ts, EqualityTerm(p));
    if done == [] {
      assert ts == [];
      assert head + Join(" AND ", ts) == head;
    } else {
      assert ts != [];
      assert head + (Join(" AND ", ts) + " AND " + EqualityTerm(p)) == head + Join(" AND ", ts) + " AND " + EqualityTerm(p);
    }
  }

  method DeleteStatement(schema: string, table: string, keys: seq<Pair>) returns (r: Result<string, Error>)
    ensures keys == [] ==> r == Failure(ValueError(DeleteWithoutConditions))
    ensures keys != [] ==> r == Success(DeleteSql(schema, table, keys))
  {
    var sql := "DELETE FROM " + schema + "." + table;
    if |keys| == 0 {
      return Failure(ValueError(DeleteWithoutConditions));
    }
    sql := sql + " WHERE ";
    ghost var head := sql;
    var firstDone := false;
    var k := 0;
    while k < |keys|
      invariant 0 <= k <= |keys|
      invariant firstDone <==> k > 0
      invariant sql == head + Join(" AND ", EqualityTerms(keys[..k]))
    {
      DeleteLoopStep(head, keys[..k], keys[k]);
      TakeOneMore(keys, k);
      if firstDone {
        sql := sql + " AND ";
      }
      firstDone := true;
      sql := sql + (keys[k].0 + " = " + Str(keys[k].1));
      k := k + 1;
    }
    assert keys[..k] == keys;
    r := Success(sql);
  }

  /** A statement head `h schema.table w` holds no `c` when none of its
      pieces does. */
  lemma {:induction false} HeadCount(h: string, w: string, schema: string, table: string, c: char)
    requires c !in h && c !in w && c != '.'
    requires CountChar(schema, c) == 0 && CountChar(table, c) == 0
    ensures CountChar(h + schema + "." + table + w, c) == 0
  {
    AbsentCount(h, c);
    AbsentCount(".", c);
    AbsentCount(w, c);
    CountCharConcat(h, schema, c);
    CountCharConcat(h + schema, ".", c);
    CountCharConcat(h + schema + ".", table, c);
    CountCharConcat(h + schema + "." + table, w, c);
  }

  /** A DELETE always carries a condition: it starts with the table's
      WHERE and, when no key or value holds '=', has one `k = v` per pair. */
  lemma {:induction false} DeleteHeadCount(schema: string, table: string)
    requires CountChar(schema, '=') == 0 && CountChar(table, '=') == 0
    ensures CountChar(DeleteHead(schema, table), '=') == 0
  {
    HeadCount("DELETE FROM ", " WHERE ", schema, table, '=');
  }

  /** One '=' per key in the WHERE part of a DELETE. */
  lemma {:induction false} DeleteConditionsCount(keys: seq<Pair>)
    requires NoEntryHolds(keys, '=')
    ensures CountChar(Join(" AND ", EqualityTerms(keys)), '=') == |keys|
  {
    EqualityTermsCount(keys, '=');
    assert CountChar(" = ", '=') == 1;
    AbsentCount(" AND ", '=');
    CountCharJoinParts(" AND ", EqualityTerms(keys), '=');
  }

  /** Every DELETE text starts with the table's WHERE, whatever the keys,
      values, schema and table hold. */
  lemma {:induction false} DeleteStartsWithWhere(schema: string, table: string, keys: seq<Pair>)
    ensures var head := DeleteHead(schema, table);
      var sql := DeleteSql(schema, table, keys);
      |sql| >= |head| && sql[..|head|] == head
  {
    TakeConcat(DeleteHead(schema, table), Join(" AND ", EqualityTerms(keys)));
  }

  /** When no key, value, schema or table name holds '=', a DELETE holds
      exactly one '=' per key pair, all after its WHERE. */
  lemma {:induction false} DeleteIsConditional(schema: string, table: string, keys: seq<Pair>)
    requires keys != []
    requires NoEntryHolds(keys, '=') && CountChar(schema, '=') == 0 && CountChar(table, '=') == 0
    ensures var head := DeleteHead(schema, table);
      var sql := DeleteSql(schema, table, keys);
      sql[..|head|] == head && CountChar(sql, '=') == |keys|
  {
    var head := DeleteHead(schema, table);
    var conds := Join(" AND ", EqualityTerms(keys));
    DeleteConditionsCount(keys);
    DeleteHeadCount(schema, table);
    CountCharConcat(head, conds, '=');
    DeleteStartsWithWhere(schema, table, keys);
  }

  /** delete_record_by_multikey: rejected before any statement reaches the
      database when there is no key; otherwise the row count, or the
      driver's exception wrapped in RDBServiceException. */
  method DeleteRecordByMultikey(schema: string, table: string, keys: seq<Pair>, db: Database) returns (r: Result<nat, Error>)
    ensures keys == [] ==> r == Failure(ValueError(DeleteWithoutConditions))
    ensures keys != [] ==> r == Commit(db(DeleteSql(schema, table, keys), None))
  {
    var sql := DeleteStatement(schema, table, keys);
    match sql
    case Failure(e) => r := Failure(e);
    case Success(text) => r := ExecuteDbCommitQuery(text, db);
  }
}

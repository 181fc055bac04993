/** The SQLite composer (sqlite/compose.go): one SELECT statement from a
    Banquet record, its clauses in a fixed order, identifiers in double
    quotes. */
module SqliteCompose {
  import opened Wrappers
  import opened GoStrings
  import opened SqlQuoting
  import opened Notation

  /** QuoteIdentifier: "" and `*` pass through; anything else becomes a
      double-quoted identifier with every `"` doubled. */
  function QuoteIdentifier(s: string): (r: string)
    ensures s == "" || s == "*" ==> r == s
    ensures s != "" && s != "*" ==> |r| >= 2 && r[0] == '"' && r[|r| - 1] == '"'
  {
    if s == "" || s == "*" then s else Quoted(s, '"')
  }

  /** A quoted identifier reads back as the identifier. */
  lemma QuoteIdentifierRoundTrip(s: string)
    requires s != "" && s != "*"
    ensures Dequote(QuoteIdentifier(s), '"') == Some(s)
  {
    DequoteQuoted(s, '"');
  }

  /** InferTable: the table tier when set; otherwise `sqlite_master` for a
      dataset whose name, lowered by strings.ToLower, ends in `.sqlite` or
      `.db`, and `tb0` for any other. */
  function InferTable(b: Banquet): (t: string)
    ensures b.table != "" ==> t == b.table
    ensures b.table == "" ==>
      (t == "sqlite_master" <==> HasSuffix(GoLower(b.dataSetPath), ".sqlite") || HasSuffix(GoLower(b.dataSetPath), ".db"))
    ensures b.table == "" ==> t == "sqlite_master" || t == "tb0"
  {
    if b.table != "" then b.table
    else
      var lower := GoLower(b.dataSetPath);
      if HasSuffix(lower, ".sqlite") || HasSuffix(lower, ".db") then "sqlite_master" else "tb0"
  }

  /** A dataset named `data.SQLİTE`, with the dotted capital U+0130, is an
      SQLite database: strings.ToLower turns the name into `data.sqlite`. */
  lemma DottedCapitalDatabase(b: Banquet)
    requires b.table == "" && b.dataSetPath == "data.SQL" + "\U{C4}\U{B0}" + "TE"
    ensures InferTable(b) == "sqlite_master"
  {
    var a, e := "data.SQL", "TE";
    assert GoLower(b.dataSetPath) == "data" + ".sqlite" by {
      LowerPieces();
      assert b.dataSetPath == a + ("\U{C4}\U{B0}" + e);
      GoLowerAsciiPrefix(a, "\U{C4}\U{B0}" + e, b.dataSetPath);
      GoLowerDottedI(e);
      GoLowerAscii(e);
    }
    HasSuffixConcat("data", ".sqlite");
  }

  /** The pieces of `data.SQLİTE` around the dotted capital are ASCII, and
      lowered they spell `data.sqlite`. */
  lemma LowerPieces()
    ensures IsAscii("data.SQL") && IsAscii("TE")
    ensures AsciiLower("data.SQL") + ("i" + AsciiLower("TE")) == "data" + ".sqlite"
  {
    assert AsciiLower("TE") == "te";
    assert AsciiLower("data.SQL") == "data.sql";
  }

  /** The quoted columns, in order. */
  function QuoteAll(cols: seq<string>): (r: seq<string>)
    ensures |r| == |cols| && forall i :: 0 <= i < |cols| ==> r[i] == QuoteIdentifier(cols[i])
  {
    seq(|cols|, i requires 0 <= i < |cols| => QuoteIdentifier(cols[i]))
  }

  /** The select list. */
  function SelectClause(select: seq<string>): string {
    if |select| > 0 && select[0] != "*" then Join(QuoteAll(select), ", ") else "*"
  }

  /** The table of the FROM clause. */
  function FromTable(b: Banquet): string {
    if b.table == "" then InferTable(b) else b.table
  }

  /** The ORDER BY operand: the quoted column and the direction, if any. */
  function OrderTerm(b: Banquet): string {
    QuoteIdentifier(b.orderBy) + (if b.sortDirection != "" then " " + b.sortDirection else "")
  }

  /** A clause that is emitted only when its operand is non-empty. */
  function Optional(keyword: string, operand: string, text: string): seq<string> {
    if operand != "" then [keyword + text] else []
  }

  /** The SELECT and FROM clauses, always present. */
  function Head(b: Banquet): seq<string> {
    ["SELECT " + SelectClause(b.select), "FROM " + QuoteIdentifier(FromTable(b))]
  }

  /** The clauses up to WHERE. */
  function UpToWhere(b: Banquet): seq<string> {
    Head(b) + Optional("WHERE ", b.where, b.where)
  }

  /** The clauses up to GROUP BY. */
  function UpToGroupBy(b: Banquet): seq<string> {
    UpToWhere(b) + Optional("GROUP BY ", b.groupBy, QuoteIdentifier(b.groupBy))
  }

  /** The clauses up to HAVING. */
  function UpToHaving(b: Banquet): seq<string> {
    UpToGroupBy(b) + Optional("HAVING ", b.having, b.having)
  }

  /** The clauses up to ORDER BY. */
  function UpToOrderBy(b: Banquet): seq<string> {
    UpToHaving(b) + Optional("ORDER BY ", b.orderBy, OrderTerm(b))
  }

  /** The clauses up to LIMIT. */
  function UpToLimit(b: Banquet): seq<string> {
    UpToOrderBy(b) + Optional("LIMIT ", b.limit, b.limit)
  }

  /** The clauses of the statement, in the order they are emitted. */
  function Clauses(b: Banquet): seq<string> {
    UpToLimit(b) + Optional("OFFSET ", b.offset, b.offset)
  }

  /** The statement Compose writes. */
  function ComposeSql(b: Banquet): string {
    Join(Clauses(b), " ")
  }

  /** The select list of Compose, quoting each column into an array. */
  method ComposeSelect(select: seq<string>) returns (selectClause: string)
    ensures selectClause == SelectClause(select)
  {
    selectClause := "*";
    if |select| > 0 && select[0] != "*" {
      var quotedCols := new string[|select|];
      for i := 0 to |select|
        invariant forall k :: 0 <= k < i ==> quotedCols[k] == QuoteIdentifier(select[k])
      {
        quotedCols[i] := QuoteIdentifier(select[i]);
      }
      assert quotedCols[..] == QuoteAll(select);
      selectClause := Join(quotedCols[..], ", ");
    }
  }

  /** Compose. */
  method Compose(b: Banquet) returns (sql: string)
    ensures sql == ComposeSql(b)
  {
    var parts: seq<string> := [];

    var selectClause := ComposeSelect(b.select);
    parts := parts + ["SELECT " + selectClause];

    var table := b.table;
    if table == "" {
      table := InferTable(b);
    }
    parts := parts + ["FROM " + QuoteIdentifier(table)];
    assert parts == Head(b);

    if b.where != "" {
      parts := parts + ["WHERE " + b.where];
    }
    assert parts == UpToWhere(b);
    if b.groupBy != "" {
      parts := parts + ["GROUP BY " + QuoteIdentifier(b.groupBy)];
    }
    assert parts == UpToGroupBy(b);
    if b.having != "" {
      parts := parts + ["HAVING " + b.having];
    }
    assert parts == UpToHaving(b);
    if b.orderBy != "" {
      var orderBy := QuoteIdentifier(b.orderBy);
      if b.sortDirection != "" {
        orderBy := orderBy + " " + b.sortDirection;
      }
      assert orderBy == OrderTerm(b);
      parts := parts + ["ORDER BY " + orderBy];
    }
    assert parts == UpToOrderBy(b);
    if b.limit != "" {
      parts := parts + ["LIMIT " + b.limit];
    }
    assert parts == UpToLimit(b);
    if b.offset != "" {
      parts := parts + ["OFFSET " + b.offset];
    }
    assert parts == Clauses(b);
    sql := Join(parts, " ");
  }

  /** The select list is `*` exactly when the selection is empty or starts
      with `*`; otherwise it is the quoted columns joined by `, `, each
      reading back as its column. */
  lemma SelectClauseStar(select: seq<string>)
    ensures SelectClause(select) == "*" <==> |select| == 0 || select[0] == "*"
    ensures |select| > 0 && select[0] != "*" ==>
      SelectClause(select) == Join(QuoteAll(select), ", ")
      && forall i :: 0 <= i < |select| && select[i] != "" && select[i] != "*" ==>
           Dequote(QuoteAll(select)[i], '"') == Some(select[i])
  {
    forall i | 0 <= i < |select| && select[i] != "" && select[i] != "*" {
      QuoteIdentifierRoundTrip(select[i]);
    }
    if |select| > 0 && select[0] != "*" {
      var qs := QuoteAll(select);
      var q0 := qs[0];
      assert q0 == "" || q0[0] == '"';
      if |qs| == 1 {
        assert Join(qs, ", ") == q0;
      } else {
        assert Join(qs, ", ") == q0 + ", " + Join(qs[1..], ", ");
        assert (q0 + ", " + Join(qs[1..], ", "))[0] == if q0 == "" then ',' else '"';
      }
    }
  }

  /** The statement starts with the SELECT clause followed by the FROM
      clause. */
  lemma ComposeShape(b: Banquet)
    ensures HasPrefix(ComposeSql(b), "SELECT " + SelectClause(b.select) + " FROM " + QuoteIdentifier(FromTable(b)))
  {
    var cs := Clauses(b);
    assert Head(b) <= UpToWhere(b) <= UpToGroupBy(b) <= UpToHaving(b);
    assert UpToHaving(b) <= UpToOrderBy(b) <= UpToLimit(b) <= cs;
    assert cs[..2] == Head(b);
    assert cs == Head(b) + cs[2..];
    JoinHead(Head(b)[0], Head(b)[1], cs[2..], " ");
  }

  /** There is exactly one clause beyond SELECT and FROM for each of WHERE,
      GROUP BY, HAVING, ORDER BY, LIMIT and OFFSET whose field is set. */
  lemma ClauseCount(b: Banquet)
    ensures |Clauses(b)| == 2 + Count(b.where) + Count(b.groupBy) + Count(b.having)
                              + Count(b.orderBy) + Count(b.limit) + Count(b.offset)
  {
  }

  /** 1 for a field that is set, else 0. */
  function Count(field: string): nat {
    if field != "" then 1 else 0
  }

  /** A record with only a selection and a table composes to the two clauses
      alone. */
  lemma ComposeMinimal(b: Banquet)
    requires b.where == "" && b.groupBy == "" && b.having == ""
    requires b.orderBy == "" && b.limit == "" && b.offset == ""
    ensures ComposeSql(b) == "SELECT " + SelectClause(b.select) + " FROM " + QuoteIdentifier(FromTable(b))
  {
    var cs := Clauses(b);
    assert cs == Head(b);
    JoinPair(cs[0], cs[1], " ");
  }

  /** A record with a selection, a table and an order only composes to the
      SELECT, FROM and ORDER BY clauses. */
  lemma ComposeOrdered(b: Banquet)
    requires b.where == "" && b.groupBy == "" && b.having == ""
    requires b.orderBy != "" && b.limit == "" && b.offset == ""
    ensures ComposeSql(b) == "SELECT " + SelectClause(b.select) + " FROM " + QuoteIdentifier(FromTable(b))
                             + " ORDER BY " + OrderTerm(b)
  {
    var x := "SELECT " + SelectClause(b.select);
    var f := QuoteIdentifier(FromTable(b));
    var o := OrderTerm(b);
    assert Clauses(b) == [x, "FROM " + f, "ORDER BY " + o];
    JoinTriple(x, "FROM " + f, "ORDER BY " + o, " ");
    SpliceWord(x, "FROM ", f);
    SpliceWord(x + " FROM " + f, "ORDER BY ", o);
    assert " " + "FROM " == " FROM ";
    assert " " + "ORDER BY " == " ORDER BY ";
  }

  /** Joining at a space before a keyword is writing the keyword with a
      leading space. */
  lemma SpliceWord(x: string, keyword: string, y: string)
    ensures x + " " + (keyword + y) == x + (" " + keyword) + y
  {
  }

  /** ORDER BY carries ` ASC` or ` DESC` only when a direction is set. */
  lemma OrderClause(b: Banquet)
    requires b.orderBy != ""
    ensures "ORDER BY " + OrderTerm(b) in Clauses(b)
    ensures b.sortDirection == "" ==> OrderTerm(b) == QuoteIdentifier(b.orderBy)
    ensures b.sortDirection != "" ==> OrderTerm(b) == QuoteIdentifier(b.orderBy) + " " + b.sortDirection
  {
    var cs := Clauses(b);
    var pre := UpToHaving(b);
    var post := Optional("LIMIT ", b.limit, b.limit) + Optional("OFFSET ", b.offset, b.offset);
    assert cs == pre + ["ORDER BY " + OrderTerm(b)] + post;
    assert cs[|pre|] == "ORDER BY " + OrderTerm(b);
  }

  /** A text whose first letter differs from the keyword's is not the
      keyword's clause. */
  lemma NotOptional(w: string, keyword: string, operand: string, text: string)
    requires |keyword| > 0 && |w| > 0 && w[0] != keyword[0]
    ensures w !in Optional(keyword, operand, text)
  {
    if operand != "" {
      assert (keyword + text)[0] == keyword[0];
    }
  }

  /** Without a filter no clause starts with `W`, so none is a WHERE clause. */
  lemma WhereOmitted(b: Banquet)
    requires b.where == ""
    ensures "WHERE " !in Clauses(b)
  {
    var w := "WHERE ";
    var g := Optional("GROUP BY ", b.groupBy, QuoteIdentifier(b.groupBy));
    var h := Optional("HAVING ", b.having, b.having);
    var o := Optional("ORDER BY ", b.orderBy, OrderTerm(b));
    var l := Optional("LIMIT ", b.limit, b.limit);
    var f := Optional("OFFSET ", b.offset, b.offset);
    NotOptional(w, "GROUP BY ", b.groupBy, QuoteIdentifier(b.groupBy));
    NotOptional(w, "HAVING ", b.having, b.having);
    NotOptional(w, "ORDER BY ", b.orderBy, OrderTerm(b));
    NotOptional(w, "LIMIT ", b.limit, b.limit);
    NotOptional(w, "OFFSET ", b.offset, b.offset);
    assert w !in Head(b) by {
      assert Head(b)[0][0] == 'S' && Head(b)[1][0] == 'F';
    }
    assert UpToWhere(b) == Head(b) + [];
    assert Head(b) + [] == Head(b);
    assert Clauses(b) == Head(b) + g + h + o + l + f;
  }

  /** With a filter the third clause is the WHERE clause. */
  lemma WhereEmitted(b: Banquet)
    requires b.where != ""
    ensures |Clauses(b)| > 2 && Clauses(b)[2] == "WHERE " + b.where
  {
    var w := "WHERE " + b.where;
    assert UpToWhere(b)[2] == w;
    assert UpToWhere(b) <= UpToGroupBy(b) <= UpToHaving(b) <= UpToOrderBy(b) <= UpToLimit(b) <= Clauses(b);
  }

  /** The WHERE clause is emitted exactly when a filter is set. */
  lemma WhereClause(b: Banquet)
    ensures ("WHERE " + b.where in Clauses(b)) <==> b.where != ""
  {
    if b.where == "" {
      WhereOmitted(b);
      assert "WHERE " + b.where == "WHERE ";
    } else {
      WhereEmitted(b);
    }
  }
}

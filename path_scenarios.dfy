/** Locators with a column path, resolved end to end: a dataset file followed
    by a list of columns, and an explicit dataset, table and column list with
    a sort token. As in Scenarios, each example of the composer's tests is an
    instance of a lemma over plain names. */
module PathScenarios {
  import opened Wrappers
  import opened GoStrings
  import opened QueryValues
  import opened Tiers
  import opened Classifier
  import opened Selection
  import opened Conditions
  import opened Ordering
  import opened Directives
  import opened Notation
  import opened SqliteCompose
  import opened Scenarios

  /** A plain token is no condition. */
  lemma PlainConditionFree(c: string)
    requires PlainName(c)
    ensures !Contains(c, "!=")
  {
    PlainNot(c, '!');
    IndexAbsent(c, "!=");
  }

  /** A plain token names itself as a column. */
  lemma PlainColumn(c: string)
    requires PlainName(c)
    ensures TokenColumn(c) == [c]
  {
    PlainEdges(c);
    PlainConditionFree(c);
    PlainNot(c, '[');
    TrimSpaceNoop(c);
  }

  /** A plain token requests no sort. */
  lemma PlainNoOrder(c: string)
    requires PlainName(c)
    ensures OrderToken(c) == None
  {
    PlainEdges(c);
    TrimSpaceNoop(c);
    PlainNot(c, '[');
  }

  /** Splitting a list of plain tokens at `,` gives the tokens. */
  lemma PlainTokens(c1: string, c2: string)
    requires PlainName(c1) && PlainName(c2)
    ensures Split(c1 + "," + c2, ",") == [c1, c2]
  {
    PlainNot(c1, ',');
    PlainNot(c2, ',');
    SplitCons(c1, ",", c2);
    SplitAbsent(c2, ",");
  }

  /** `c1,c2` is one `/`-free segment. */
  lemma TwoSegment(c1: string, c2: string)
    requires PlainName(c1) && PlainName(c2)
    ensures var cp := c1 + "," + c2; cp != "" && '/' !in cp && ';' !in cp
  {
    PlainNot(c1, '/');
    PlainNot(c2, '/');
    PlainNot(c1, ';');
    PlainNot(c2, ';');
  }

  /** Tokens that are not conditions contribute no condition. */
  lemma {:induction false} NoConditions(parts: seq<string>, isNumber: string -> bool)
    requires forall i :: 0 <= i < |parts| ==> !Contains(parts[i], "!=")
    ensures ConditionsInTokens(parts, isNumber) == []
    decreases |parts|
  {
    if parts == [] {
      assert ConditionsInTokens(parts, isNumber) == [];
    } else {
      var init := parts[..|parts| - 1];
      assert init + [parts[|parts| - 1]] == parts;
      TokensSnoc(init, parts[|parts| - 1], isNumber);
      NoConditionWithout(parts[|parts| - 1], isNumber);
      NoConditions(init, isNumber);
    }
  }

  /** The columns of `c1,c2` are the two names. */
  lemma TwoSelect(c1: string, c2: string)
    requires PlainName(c1) && PlainName(c2)
    ensures Select(c1 + "," + c2) == [c1, c2]
  {
    var cp := c1 + "," + c2;
    TwoSegment(c1, c2);
    PlainEdges(c1);
    assert cp[0] == c1[0];
    SingleSegmentSelect(cp);
    PlainTokens(c1, c2);
    PairColumns(c1, c2);
    PlainColumn(c1);
    PlainColumn(c2);
  }

  /** `c1,c2` states no condition. */
  lemma TwoConditions(c1: string, c2: string, isNumber: string -> bool)
    requires PlainName(c1) && PlainName(c2)
    ensures PathConditions(c1 + "," + c2, isNumber) == ""
  {
    var cp := c1 + "," + c2;
    TwoSegment(c1, c2);
    SingleSegmentConditions(cp, isNumber);
    PlainTokens(c1, c2);
    PlainConditionFree(c1);
    PlainConditionFree(c2);
    NoConditions([c1, c2], isNumber);
  }

  /** `c1,c2` requests no sort. */
  lemma TwoOrder(c1: string, c2: string)
    requires PlainName(c1) && PlainName(c2)
    ensures PathOrder(c1 + "," + c2) == ("", "")
  {
    var cp := c1 + "," + c2;
    assert SegmentOrder(cp) == None by {
      PlainTokens(c1, c2);
      PlainNoOrder(c1);
      PlainNoOrder(c2);
      assert Orders([c1, c2])[0].None? && Orders([c1, c2])[1].None?;
      FirstSomeNone(Orders([c1, c2]), 0);
    }
    TwoSegment(c1, c2);
    SingleSegmentOrder(cp);
  }

  /** `c1,c2` is a selector, not a table. */
  lemma TwoTable(c1: string, c2: string)
    requires PlainName(c1) && PlainName(c2)
    ensures Table(c1 + "," + c2) == ""
  {
    var cp := c1 + "," + c2;
    TwoSegment(c1, c2);
    assert cp[|c1|] == ',';
    ContainsChar(cp, ',');
    SelectorSegment(cp);
  }

  /** A dataset file followed by one more segment: that segment is the column
      path. */
  lemma FileTiers(ds: string, cp: string)
    requires PlainName(ds) && IsDatasetFile(ds)
    requires cp != "" && '/' !in cp && ';' !in cp
    ensures SplitTiers(ds + "/" + cp) == Tiers(ds, "", cp)
  {
    var path := ds + "/" + cp;
    PlainNot(ds, ';');
    PlainNot(ds, '/');
    ContainsChar(path, ';');
    SplitCons(ds, "/", cp);
    SplitAbsent(cp, "/");
    var parts := Split(path, "/");
    assert parts == [ds, cp];
    assert FirstDatasetFrom(parts, 0) == 0;
    assert parts[..1] == [ds] && parts[1..] == [cp];
  }

  /** A path whose last character is that of a plain name carries no
      directive. */
  lemma PlainEnd(path: string, last: string)
    requires PlainName(last) && path != [] && path[|path| - 1] == last[|last| - 1]
    ensures !HasSuffix(path, "]")
  {
    PlainEdges(last);
    assert path[|path| - 1..] == [path[|path| - 1]];
  }

  /** A character outside the plain alphabet, `/` and `,` does not occur in
      `ds/c1,c2`. */
  lemma FileCharAbsent(ds: string, c1: string, c2: string, ch: char)
    requires PlainName(ds) && PlainName(c1) && PlainName(c2)
    requires !PlainChar(ch) && ch != '/' && ch != ','
    ensures ch !in ds + "/" + (c1 + "," + c2)
  {
    PlainNot(ds, ch);
    PlainNot(c1, ch);
    PlainNot(c2, ch);
  }

  /** The select list of two plain columns. */
  lemma TwoColumnClause(c1: string, c2: string)
    requires PlainName(c1) && PlainName(c2)
    ensures SelectClause([c1, c2]) == QuoteIdentifier(c1) + ", " + QuoteIdentifier(c2)
  {
    assert c1 != "*" by { PlainEdges(c1); }
    assert QuoteAll([c1, c2]) == [QuoteIdentifier(c1), QuoteIdentifier(c2)];
    JoinPair(QuoteIdentifier(c1), QuoteIdentifier(c2), ", ");
  }

  /** `ds/c1,c2`: the two columns of the dataset's inferred table. */
  lemma FileColumns(ds: string, c1: string, c2: string, isNumber: string -> bool)
    requires PlainName(ds) && IsDatasetFile(ds) && PlainName(c1) && PlainName(c2)
    ensures var cp := c1 + "," + c2;
      var path := ds + "/" + cp;
      BanquetOf(path, "", isNumber) == Banquet(path, "", "", "", [c1, c2], "", "", "", "", "", "", ds, cp)
  {
    var cp := c1 + "," + c2;
    var path := ds + "/" + cp;
    TwoSegment(c1, c2);
    TwoSelect(c1, c2);
    TwoConditions(c1, c2, isNumber);
    TwoOrder(c1, c2);
    TwoTable(c1, c2);
    FileTiers(ds, cp);
    FileCharAbsent(ds, c1, c2, '(');
    PlainEnd(path, c2);
    QuietRecord(path, isNumber, Tiers(ds, "", cp), [c1, c2], ("", ""));
  }

  /** The statement of `ds/c1,c2`: the two quoted columns, from `sqlite_master`
      for a database and from `tb0` otherwise. */
  lemma FileColumnsSql(ds: string, c1: string, c2: string, isNumber: string -> bool)
    requires PlainName(ds) && IsDatasetFile(ds) && PlainName(c1) && PlainName(c2)
    ensures var lower := AsciiLower(ds);
      ComposeSql(BanquetOf(ds + "/" + (c1 + "," + c2), "", isNumber))
      == "SELECT " + (QuoteIdentifier(c1) + ", " + QuoteIdentifier(c2)) + " FROM "
         + QuoteIdentifier(if HasSuffix(lower, ".sqlite") || HasSuffix(lower, ".db") then "sqlite_master" else "tb0")
  {
    var cp := c1 + "," + c2;
    var path := ds + "/" + cp;
    FileColumns(ds, c1, c2, isNumber);
    var b := Banquet(path, "", "", "", [c1, c2], "", "", "", "", "", "", ds, cp);
    ComposeMinimal(b);
    TwoColumnClause(c1, c2);
    PlainLower(ds);
  }

  /** The names of `file.csv/col1,col2`: a flat file and two plain columns. */
  lemma FileCsvNames(ds: string, c1: string, c2: string)
    requires ds == "file.csv" && c1 == "col1" && c2 == "col2"
    ensures PlainName(ds) && IsDatasetFile(ds) && PlainName(c1) && PlainName(c2)
    ensures var lower := AsciiLower(ds); !HasSuffix(lower, ".sqlite") && !HasSuffix(lower, ".db")
  {
    PlainFromChars(ds);
    PlainFromChars(c1);
    PlainFromChars(c2);
    assert HasSuffix(ds, ".csv") by { assert ds[|ds| - 4..] == ".csv"; }
    var lower := AsciiLower(ds);
    assert lower[|lower| - 1] == 'v';
  }

  /** `file.csv/col1,col2` (compose_test.go): two columns of a flat file. */
  lemma FileCsvColumns(path: string, isNumber: string -> bool)
    requires path == "file.csv/col1,col2"
    ensures ComposeSql(BanquetOf(path, "", isNumber))
            == "SELECT " + (QuoteIdentifier("col1") + ", " + QuoteIdentifier("col2")) + " FROM " + QuoteIdentifier("tb0")
  {
    var ds, c1, c2 := "file.csv", "col1", "col2";
    assert path == ds + "/" + (c1 + "," + c2);
    FileCsvNames(ds, c1, c2);
    FileColumnsSql(ds, c1, c2, isNumber);
  }

  /** Explicit tiers: the text before the first `;` is the dataset, the text
      between the first two is the table and the rest is the column path. */
  lemma ExplicitTierSplit(ds: string, t: string, cp: string)
    requires ';' !in ds && ';' !in t && ';' !in cp
    ensures SplitTiers(ds + ";" + (t + ";" + cp)) == Tiers(ds, t, cp)
  {
    var path := ds + ";" + (t + ";" + cp);
    assert path[|ds|] == ';';
    ContainsChar(path, ';');
    SplitNCons(ds, ";", t + ";" + cp, 3);
    SplitNCons(t, ";", cp, 2);
    SplitNAbsent(cp, ";", 1);
  }

  /** The sort token `-o`: a descending sort on `o` that names no column and
      states no condition. */
  lemma DescendingToken(o: string)
    requires PlainName(o)
    ensures OrderToken("-" + o) == Some((o, "DESC"))
    ensures TokenColumn("-" + o) == []
    ensures !Contains("-" + o, "!=")
    ensures ',' !in "-" + o && '/' !in "-" + o && ';' !in "-" + o && '(' !in "-" + o
  {
    var s := "-" + o;
    assert '[' !in s && '!' !in s && ',' !in s && '/' !in s && ';' !in s && '(' !in s by {
      PlainNot(o, '[');
      PlainNot(o, '!');
      PlainNot(o, ',');
      PlainNot(o, '/');
      PlainNot(o, ';');
      PlainNot(o, '(');
    }
    assert TrimSpace(s) == s by {
      PlainEdges(o);
      assert s[|s| - 1] == o[|o| - 1];
      TrimSpaceNoop(s);
    }
    IndexAbsent(s, "!=");
    assert s[1..] == o;
  }

  /** Splitting `c1,-o,c2` at `,` gives its three tokens. */
  lemma SortedTokens(c1: string, o: string, c2: string)
    requires PlainName(c1) && PlainName(o) && PlainName(c2)
    ensures Split(c1 + "," + ("-" + o + "," + c2), ",") == [c1, "-" + o, c2]
  {
    PlainNot(c1, ',');
    PlainNot(c2, ',');
    DescendingToken(o);
    SplitCons(c1, ",", "-" + o + "," + c2);
    SplitCons("-" + o, ",", c2);
    SplitAbsent(c2, ",");
  }

  /** `c1,-o,c2` is one segment that starts with `c1` and ends with `c2`. */
  lemma SortedSegment(c1: string, o: string, c2: string)
    requires PlainName(c1) && PlainName(o) && PlainName(c2)
    ensures var cp := c1 + "," + ("-" + o + "," + c2);
      && cp != "" && '/' !in cp && ';' !in cp && '(' !in cp
      && cp[0] == c1[0] && cp[|cp| - 1] == c2[|c2| - 1]
  {
    DescendingToken(o);
    PlainNot(c1, '/');
    PlainNot(c2, '/');
    PlainNot(c1, ';');
    PlainNot(c2, ';');
    PlainNot(c1, '(');
    PlainNot(c2, '(');
  }

  /** One segment of three tokens, the middle one a sort token: the columns
      are the outer two. */
  lemma ThreeSelect(cp: string, c1: string, d: string, c2: string)
    requires cp != "" && '/' !in cp && cp[0] != '['
    requires Split(cp, ",") == [c1, d, c2]
    requires TokenColumn(c1) == [c1] && TokenColumn(d) == [] && TokenColumn(c2) == [c2]
    ensures Select(cp) == [c1, c2]
  {
    SingleSegmentSelect(cp);
    TripleColumns(c1, d, c2);
  }

  /** One segment of three tokens without `!=` states no condition. */
  lemma ThreeConditions(cp: string, c1: string, d: string, c2: string, isNumber: string -> bool)
    requires cp != "" && '/' !in cp
    requires Split(cp, ",") == [c1, d, c2]
    requires !Contains(c1, "!=") && !Contains(d, "!=") && !Contains(c2, "!=")
    ensures PathConditions(cp, isNumber) == ""
  {
    SingleSegmentConditions(cp, isNumber);
    NoConditions([c1, d, c2], isNumber);
  }

  /** One segment of three tokens: the sort is the first one a token asks
      for. */
  lemma ThreeOrder(cp: string, c1: string, d: string, c2: string, order: (string, string))
    requires cp != "" && '/' !in cp
    requires Split(cp, ",") == [c1, d, c2]
    requires OrderToken(c1) == None && OrderToken(d) == Some(order)
    ensures PathOrder(cp) == order
  {
    SingleSegmentOrder(cp);
    var orders := Orders([c1, d, c2]);
    assert orders[0].None? && orders[1] == Some(order);
    FirstSomeWins(orders, 0, 1);
  }

  /** `c1,-o,c2`: the columns `c1` and `c2`, no condition, and a descending
      sort on `o`. */
  lemma SortedPath(c1: string, o: string, c2: string, isNumber: string -> bool)
    requires PlainName(c1) && PlainName(o) && PlainName(c2)
    ensures var cp := c1 + "," + ("-" + o + "," + c2);
      && Select(cp) == [c1, c2]
      && PathConditions(cp, isNumber) == ""
      && PathOrder(cp) == (o, "DESC")
  {
    var cp := c1 + "," + ("-" + o + "," + c2);
    SortedSegment(c1, o, c2);
    SortedTokens(c1, o, c2);
    PlainEdges(c1);
    DescendingToken(o);
    PlainColumn(c1);
    PlainColumn(c2);
    PlainConditionFree(c1);
    PlainConditionFree(c2);
    PlainNoOrder(c1);
    ThreeSelect(cp, c1, "-" + o, c2);
    ThreeConditions(cp, c1, "-" + o, c2, isNumber);
    ThreeOrder(cp, c1, "-" + o, c2, (o, "DESC"));
  }

  /** `ds;t;cp` has the tiers `ds`, `t` and `cp` and no directive of its
      own. */
  lemma ExplicitPath(ds: string, t: string, cp: string, c2: string)
    requires PlainName(ds) && PlainName(t) && PlainName(c2)
    requires cp != "" && ';' !in cp && '(' !in cp && cp[|cp| - 1] == c2[|c2| - 1]
    ensures var path := ds + ";" + (t + ";" + cp);
      SplitTiers(path) == Tiers(ds, t, cp) && '(' !in path && !HasSuffix(path, "]")
  {
    PlainNot(ds, ';');
    PlainNot(t, ';');
    ExplicitTierSplit(ds, t, cp);
    ExplicitEnds(ds, t, cp, c2);
  }

  /** `ds;t;cp` has no `(` and does not end in `]`. */
  lemma ExplicitEnds(ds: string, t: string, cp: string, c2: string)
    requires PlainName(ds) && PlainName(t) && PlainName(c2)
    requires cp != "" && '(' !in cp && cp[|cp| - 1] == c2[|c2| - 1]
    ensures var path := ds + ";" + (t + ";" + cp);
      '(' !in path && !HasSuffix(path, "]")
  {
    var path := ds + ";" + (t + ";" + cp);
    PlainNot(ds, '(');
    PlainNot(t, '(');
    assert path[|path| - 1] == cp[|cp| - 1];
    PlainEnd(path, c2);
  }

  /** `ds;t;cp` for a column path that selects two columns, states no
      condition and sorts on `o`: table `t`, those columns and that sort. */
  lemma ExplicitRecord(ds: string, t: string, cp: string, c1: string, c2: string, order: (string, string),
                       isNumber: string -> bool)
    requires PlainName(ds) && PlainName(t) && PlainName(c2)
    requires cp != "" && ';' !in cp && '(' !in cp && cp[|cp| - 1] == c2[|c2| - 1]
    requires Select(cp) == [c1, c2] && PathConditions(cp, isNumber) == "" && PathOrder(cp) == order
    requires order.0 != ""
    ensures var path := ds + ";" + (t + ";" + cp);
      BanquetOf(path, "", isNumber) == Banquet(path, "", "", t, [c1, c2], order.1, "", "", "", "", order.0, ds, cp)
  {
    var path := ds + ";" + (t + ";" + cp);
    ExplicitPath(ds, t, cp, c2);
    QuietRecord(path, isNumber, Tiers(ds, t, cp), [c1, c2], order);
    assert t != "";
  }

  /** `ds;t;c1,-o,c2`: the two columns of table `t`, sorted descending on
      `o`. */
  lemma ExplicitSorted(ds: string, t: string, c1: string, o: string, c2: string, isNumber: string -> bool)
    requires PlainName(ds) && PlainName(t) && PlainName(c1) && PlainName(o) && PlainName(c2)
    ensures var cp := c1 + "," + ("-" + o + "," + c2);
      var path := ds + ";" + (t + ";" + cp);
      BanquetOf(path, "", isNumber) == Banquet(path, "", "", t, [c1, c2], "DESC", "", "", "", "", o, ds, cp)
  {
    var cp := c1 + "," + ("-" + o + "," + c2);
    SortedSegment(c1, o, c2);
    SortedPath(c1, o, c2, isNumber);
    ExplicitRecord(ds, t, cp, c1, c2, (o, "DESC"), isNumber);
  }

  /** The statement of a record that selects two plain columns of table `t`
      and sorts descending on `o`. */
  lemma SortedSql(b: Banquet, c1: string, o: string, c2: string)
    requires PlainName(c1) && PlainName(o) && PlainName(c2) && b.table != ""
    requires b.select == [c1, c2] && b.sortDirection == "DESC" && b.orderBy == o
    requires b.where == "" && b.groupBy == "" && b.having == "" && b.limit == "" && b.offset == ""
    ensures ComposeSql(b) == "SELECT " + (QuoteIdentifier(c1) + ", " + QuoteIdentifier(c2)) + " FROM "
                             + QuoteIdentifier(b.table) + " ORDER BY " + (QuoteIdentifier(o) + " DESC")
  {
    assert SelectClause(b.select) == QuoteIdentifier(c1) + ", " + QuoteIdentifier(c2) by {
      TwoColumnClause(c1, c2);
    }
    assert OrderTerm(b) == QuoteIdentifier(o) + " DESC" by {
      assert " " + "DESC" == " DESC";
    }
    ComposeOrdered(b);
  }

  /** The statement of `ds;t;c1,-o,c2`. */
  lemma ExplicitSortedSql(ds: string, t: string, c1: string, o: string, c2: string, isNumber: string -> bool)
    requires PlainName(ds) && PlainName(t) && PlainName(c1) && PlainName(o) && PlainName(c2)
    ensures ComposeSql(BanquetOf(ds + ";" + (t + ";" + (c1 + "," + ("-" + o + "," + c2))), "", isNumber))
      == "SELECT " + (QuoteIdentifier(c1) + ", " + QuoteIdentifier(c2)) + " FROM " + QuoteIdentifier(t)
         + " ORDER BY " + (QuoteIdentifier(o) + " DESC")
  {
    ExplicitSorted(ds, t, c1, o, c2, isNumber);
    var cp := c1 + "," + ("-" + o + "," + c2);
    var path := ds + ";" + (t + ";" + cp);
    SortedSql(Banquet(path, "", "", t, [c1, c2], "DESC", "", "", "", "", o, ds, cp), c1, o, c2);
  }

  /** The names of `data.sqlite;users;id,-age,email` are plain. */
  lemma SortedNames(ds: string, t: string, c1: string, o: string, c2: string)
    requires ds == "data.sqlite" && t == "users" && c1 == "id" && o == "age" && c2 == "email"
    ensures PlainName(ds) && PlainName(t) && PlainName(c1) && PlainName(o) && PlainName(c2)
  {
    PlainFromChars(ds);
    PlainFromChars(t);
    PlainFromChars(c1);
    PlainFromChars(o);
    PlainFromChars(c2);
  }

  /** `data.sqlite;users;id,-age,email` (compose_test.go): a sort token in the
      middle of the select list sorts without being selected. */
  lemma DataSqliteUsersSorted(path: string, isNumber: string -> bool)
    requires path == "data.sqlite;users;id,-age,email"
    ensures ComposeSql(BanquetOf(path, "", isNumber))
            == "SELECT " + (QuoteIdentifier("id") + ", " + QuoteIdentifier("email")) + " FROM " + QuoteIdentifier("users")
               + " ORDER BY " + (QuoteIdentifier("age") + " DESC")
  {
    var ds, t, c1, o, c2 := "data.sqlite", "users", "id", "age", "email";
    assert path == ds + ";" + (t + ";" + (c1 + "," + ("-" + o + "," + c2)));
    SortedNames(ds, t, c1, o, c2);
    ExplicitSortedSql(ds, t, c1, o, c2, isNumber);
  }
}

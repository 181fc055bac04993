/** Whole locators from the composer's and the parser's examples, resolved
    end to end: the decoded path and raw query become a Banquet record and the
    record becomes one SQLite statement. Each scenario is an instance of a
    lemma over names made of letters, digits, `_` and `.`, which the notation
    treats as plain text. */
module Scenarios {
  import opened Wrappers
  import opened GoStrings
  import opened QueryValues
  import opened SqlQuoting
  import opened Tiers
  import opened Classifier
  import opened Selection
  import opened Conditions
  import opened Ordering
  import opened Directives
  import opened Notation
  import opened SqliteCompose

  predicate PlainChar(c: char) {
    ('a' <= c <= 'z') || ('A' <= c <= 'Z') || ('0' <= c <= '9') || c == '_' || c == '.'
  }

  /** Every character is plain. */
  predicate AllPlain(s: string)
    decreases |s|
  {
    s == [] || (PlainChar(s[0]) && AllPlain(s[1..]))
  }

  /** A name without any of the notation's delimiters, operators, quotes or
      white space. */
  predicate PlainName(s: string) {
    s != [] && AllPlain(s)
  }

  /** strings.ToLower lowers a plain string letter by letter. */
  lemma {:induction false} PlainLower(s: string)
    requires AllPlain(s)
    ensures GoLower(s) == AsciiLower(s)
    decreases |s|
  {
    if s != [] {
      PlainLower(s[1..]);
      GoLowerTail(s);
      AsciiLowerTail(s);
    }
  }

  /** Each character of a plain string is plain. */
  lemma {:induction false} PlainAt(s: string, i: nat)
    requires AllPlain(s) && i < |s|
    ensures PlainChar(s[i])
    decreases i
  {
    if i > 0 {
      PlainAt(s[1..], i - 1);
    }
  }

  /** A string whose every character is plain is a plain string. */
  lemma {:induction false} PlainFromChars(s: string)
    requires forall i :: 0 <= i < |s| ==> PlainChar(s[i])
    ensures AllPlain(s)
    decreases |s|
  {
    if s != [] {
      assert forall i :: 0 <= i < |s[1..]| ==> s[1..][i] == s[i + 1];
      PlainFromChars(s[1..]);
    }
  }

  /** A character outside the plain alphabet does not occur in a plain
      name. */
  lemma PlainNot(s: string, c: char)
    requires PlainName(s) && !PlainChar(c)
    ensures c !in s
  {
    if c in s {
      var i :| 0 <= i < |s| && s[i] == c;
      PlainAt(s, i);
    }
  }

  /** The first and the last character of a plain name are plain. */
  lemma PlainEdges(s: string)
    requires PlainName(s)
    ensures PlainChar(s[0]) && PlainChar(s[|s| - 1])
  {
    PlainAt(s, |s| - 1);
  }

  /** A plain name holds none of the notation's delimiters. */
  lemma PlainChars(s: string)
    requires PlainName(s)
    ensures ';' !in s && '/' !in s && ',' !in s && '"' !in s && '[' !in s && '(' !in s && ')' !in s
    ensures '&' !in s && '!' !in s && '=' !in s && '>' !in s && '<' !in s && '%' !in s && '+' !in s
    ensures s[0] != '+' && s[0] != '-' && s[0] != '[' && s[|s| - 1] != ']' && s[0] != '/' && s[|s| - 1] != '/'
    ensures !IsSpace(s[0]) && !IsSpace(s[|s| - 1])
  {
    PlainEdges(s);
    PlainNot(s, ';');
    PlainNot(s, '/');
    PlainNot(s, ',');
    PlainNot(s, '"');
    PlainNot(s, '[');
    PlainNot(s, '(');
    PlainNot(s, ')');
    PlainNot(s, '&');
    PlainNot(s, '!');
    PlainNot(s, '=');
    PlainNot(s, '>');
    PlainNot(s, '<');
    PlainNot(s, '%');
    PlainNot(s, '+');
  }

  /** A plain name is plain text to every classifier of the notation. */
  lemma PlainNameFacts(s: string)
    requires PlainName(s)
    ensures !Contains(s, "!=") && !Contains(s, ",") && !Contains(s, "=") && !Contains(s, ">") && !Contains(s, "<")
    ensures TrimSpace(s) == s && CutAtBracket(s) == s && ColumnOf(s) == s && TrimChar(s, '/') == s
    ensures !IsDirective(s) && !IsSelector(s) && !HasIndicator(s) && !IsSliceSegment(s)
    ensures OrderToken(s).None?
    ensures QuoteIdentifier(s) == "\"" + s + "\""
  {
    PlainChars(s);
    IndexAbsent(s, "!=");
    IndexAbsent(s, ",");
    IndexAbsent(s, "=");
    IndexAbsent(s, ">");
    IndexAbsent(s, "<");
    TrimSpaceNoop(s);
    TrimCharPlain(s, '/');
    QuotedPlain(s, '"');
  }

  /** The empty column path selects everything, states no condition, no sort
      and no table. */
  lemma EmptyColumnPath(isNumber: string -> bool)
    ensures Select("") == ["*"]
    ensures PathConditions("", isNumber) == ""
    ensures PathOrder("") == ("", "")
    ensures Table("") == ""
  {
    SegmentsShape("");
    SplitAbsent("", "/");
    SplitAbsent("", ",");
    assert OrderToken("").None?;
    assert SegmentOrder("").None?;
  }

  /** The empty query sets no parameter. */
  lemma EmptyQuery()
    ensures QueryWhere("") == "" && Having("") == "" && OrderBy("", "") == ("", "")
    ensures Get("", "limit") == "" && Get("", "offset") == "" && Get("", "groupby") == ""
  {
    GetEmpty("limit");
    GetEmpty("offset");
    GetEmpty("having");
    GetEmpty("groupby");
    GetEmpty("orderby");
    EmptyColumnPath(_ => false);
  }

  /** Without query parameters, a path that ends in no `]` and has no `(`
      asks for no limit, offset or group-by. */
  lemma NoDirectives(path: string)
    requires !HasSuffix(path, "]") && '(' !in path
    ensures Limit("", path) == "" && Offset("", path) == "" && GroupBy(path, "") == ""
  {
    EmptyQuery();
    SliceNeedsClosingBracket(path);
    ContainsChar(path, '(');
  }

  /** The record of a locator without a query: the tiers, the column path's
      selection, conditions and sort, and no directive from the path. */
  lemma QuietRecord(path: string, isNumber: string -> bool, tiers: Tiers, select: seq<string>, order: (string, string))
    requires SplitTiers(path) == tiers
    requires Select(tiers.columnPath) == select
    requires PathConditions(tiers.columnPath, isNumber) == ""
    requires PathOrder(tiers.columnPath) == order
    requires !HasSuffix(path, "]") && '(' !in path
    ensures BanquetOf(path, "", isNumber)
            == Banquet(path, "", "", TableOf(tiers), NormalSelect(select, TableOf(tiers)),
                       if order.0 != "" then order.1 else "", "", "", "", "", order.0,
                       tiers.datasetPath, tiers.columnPath)
  {
    EmptyQuery();
    NoDirectives(path);
  }

  /** A bare dataset name is a dataset tier alone. */
  lemma BareTiers(path: string)
    requires PlainName(path) && IsDatasetFile(path)
    ensures SplitTiers(path) == Tiers(path, "", "")
  {
    PlainChars(path);
    ContainsChar(path, ';');
    SplitAbsent(path, "/");
    assert FirstDatasetFrom([path], 0) == 0;
  }

  /** A bare dataset name: everything from the dataset, under the table that
      InferTable chooses for it. */
  lemma BareDataset(path: string, isNumber: string -> bool)
    requires PlainName(path) && IsDatasetFile(path)
    ensures BanquetOf(path, "", isNumber) == Banquet(path, "", "", "", ["*"], "", "", "", "", "", "", path, "")
  {
    BareTiers(path);
    PlainChars(path);
    assert !HasSuffix(path, "]") by {
      if |path| >= 1 {
        assert path[|path| - 1..] == [path[|path| - 1]];
      }
    }
    EmptyColumnPath(isNumber);
    EmptyQuery();
    NoDirectives(path);
  }

  /** The record of a bare dataset composes to a select of everything from
      the inferred table. */
  lemma BareCompose(path: string)
    ensures var b := Banquet(path, "", "", "", ["*"], "", "", "", "", "", "", path, "");
      ComposeSql(b) == "SELECT * FROM " + QuoteIdentifier(InferTable(b))
  {
    var b := Banquet(path, "", "", "", ["*"], "", "", "", "", "", "", path, "");
    ComposeMinimal(b);
    assert SelectClause(b.select) == "*";
    assert "SELECT " + "*" + " FROM " == "SELECT * FROM ";
  }

  /** A bare dataset name composes to a select of everything from
      `sqlite_master` when the name ends, ignoring ASCII case, in `.sqlite` or
      `.db`, and from `tb0` otherwise. */
  lemma BareDatasetSql(path: string, isNumber: string -> bool)
    requires PlainName(path) && IsDatasetFile(path)
    ensures var lower := AsciiLower(path);
      ComposeSql(BanquetOf(path, "", isNumber)) == "SELECT * FROM " +
        QuoteIdentifier(if HasSuffix(lower, ".sqlite") || HasSuffix(lower, ".db") then "sqlite_master" else "tb0")
  {
    BareDataset(path, isNumber);
    BareCompose(path);
    PlainLower(path);
  }

  /** `users.csv` (compose_test.go): a flat file's only table. */
  lemma UsersCsv(path: string, isNumber: string -> bool)
    requires path == "users.csv"
    ensures ComposeSql(BanquetOf(path, "", isNumber)) == "SELECT * FROM " + QuoteIdentifier("tb0")
  {
    PlainFromChars(path);
    assert HasSuffix(path, ".csv") by { assert path[|path| - 4..] == ".csv"; }
    var lower := AsciiLower(path);
    assert lower[|lower| - 1] == 'v';
    assert !HasSuffix(lower, ".sqlite") && !HasSuffix(lower, ".db");
    BareDatasetSql(path, isNumber);
  }

  /** `data.sqlite` is a plain dataset name with a database suffix. */
  lemma DataSqliteName(path: string)
    requires path == "data.sqlite"
    ensures PlainName(path) && IsDatasetFile(path) && HasSuffix(AsciiLower(path), ".sqlite")
  {
    PlainFromChars(path);
    assert HasSuffix(path, ".sqlite") by { assert path[|path| - 7..] == ".sqlite"; }
    var lower := AsciiLower(path);
    assert HasSuffix(lower, ".sqlite") by { assert lower[|lower| - 7..] == ".sqlite"; }
  }

  /** `data.sqlite` (compose_test.go): a database without a table tier lists
      its schema. */
  lemma DataSqlite(path: string, isNumber: string -> bool)
    requires path == "data.sqlite"
    ensures ComposeSql(BanquetOf(path, "", isNumber)) == "SELECT * FROM " + QuoteIdentifier("sqlite_master")
  {
    DataSqliteName(path);
    BareDatasetSql(path, isNumber);
  }
}

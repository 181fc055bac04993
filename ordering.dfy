/** Ordering (banquet.go parseOrderBy): the query parameter `orderby` when it
    is set, otherwise the first `+name` or `-name` token of the column path,
    scanning `/`-segments and then their `,`-tokens in order. */
module Ordering {
  import opened Wrappers
  import opened GoStrings
  import opened QueryValues
  import opened Classifier

  /** The sort a token requests: the trimmed token with slice notation cut
      off, `+name` ascending and `-name` descending. */
  function OrderToken(col: string): (r: Option<(string, string)>)
    ensures r.Some? ==> (r.value.1 == "ASC" || r.value.1 == "DESC") && '[' !in r.value.0
  {
    var c := CutAtBracket(TrimSpace(col));
    if HasPrefix(c, "+") then Some((c[1..], "ASC"))
    else if HasPrefix(c, "-") then Some((c[1..], "DESC"))
    else None
  }

  /** A sort token really is the sign followed by the column name, at the
      start of the trimmed token. */
  lemma OrderTokenShape(col: string)
    ensures OrderToken(col).Some? ==>
      var (name, direction) := OrderToken(col).value;
      HasPrefix(TrimSpace(col), (if direction == "ASC" then "+" else "-") + name)
  {
    var c := CutAtBracket(TrimSpace(col));
    if |c| > 0 {
      assert c == [c[0]] + c[1..];
    }
  }

  /** The sort each token requests, in order. */
  function Orders(cols: seq<string>): (r: seq<Option<(string, string)>>)
    ensures |r| == |cols|
  {
    seq(|cols|, i requires 0 <= i < |cols| => OrderToken(cols[i]))
  }

  /** The first sort requested by the tokens of one segment. */
  function SegmentOrder(part: string): (r: Option<(string, string)>)
    ensures r.Some? ==> (r.value.1 == "ASC" || r.value.1 == "DESC") && '[' !in r.value.0
  {
    FirstSome(Orders(Split(part, ",")), 0)
  }

  /** The sort each segment requests, in order. */
  function SegmentOrders(parts: seq<string>): (r: seq<Option<(string, string)>>)
    ensures |r| == |parts|
  {
    seq(|parts|, i requires 0 <= i < |parts| => SegmentOrder(parts[i]))
  }

  /** One step of FindSortToken's scan, written as parseOrderBy tests the
      token. */
  lemma SortTokenStep(cols: seq<string>, j: nat)
    requires j < |cols|
    ensures var c := CutAtBracket(TrimSpace(cols[j]));
      FirstSome(Orders(cols), j)
      == if HasPrefix(c, "+") then Some((TrimPrefix(c, "+"), "ASC"))
         else if HasPrefix(c, "-") then Some((TrimPrefix(c, "-"), "DESC"))
         else FirstSome(Orders(cols), j + 1)
  {
    FirstSomeStep(Orders(cols), j);
  }

  /** The column and direction parseOrderBy gives. */
  function OrderBy(columnPath: string, query: string): (string, string) {
    var ob := Get(query, "orderby");
    if ob != "" then (ob, "") else PathOrder(columnPath)
  }

  /** The order the column path requests. */
  function PathOrder(columnPath: string): (string, string) {
    var parts := Split(columnPath, "/");
    match FirstSome(SegmentOrders(parts), 0)
    case Some(order) => order
    case None => ("", "")
  }

  /** The inner loop of parseOrderBy: the first sort the tokens of one
      segment request. */
  method FindSortToken(part: string) returns (found: Option<(string, string)>)
    ensures found == SegmentOrder(part)
  {
    var cols := Split(part, ",");
    var j := 0;
    while j < |cols|
      invariant 0 <= j <= |cols|
      invariant FirstSome(Orders(cols), 0) == FirstSome(Orders(cols), j)
    {
      SortTokenStep(cols, j);
      var col := CutAtBracket(TrimSpace(cols[j]));
      if HasPrefix(col, "+") {
        return Some((TrimPrefix(col, "+"), "ASC"));
      }
      if HasPrefix(col, "-") {
        return Some((TrimPrefix(col, "-"), "DESC"));
      }
      j := j + 1;
    }
    return None;
  }

  /** The path half of parseOrderBy: the first sort token, scanning segments
      and then their tokens. */
  method ScanPathOrder(columnPath: string) returns (column: string, direction: string)
    ensures (column, direction) == PathOrder(columnPath)
  {
    var parts := Split(columnPath, "/");
    ghost var orders := SegmentOrders(parts);
    var i := 0;
    while i < |parts|
      invariant 0 <= i <= |parts|
      invariant FirstSome(orders, 0) == FirstSome(orders, i)
    {
      FirstSomeStep(orders, i);
      var found := FindSortToken(parts[i]);
      assert found == orders[i];
      if found.Some? {
        return found.value.0, found.value.1;
      }
      i := i + 1;
    }
    return "", "";
  }

  /** parseOrderBy. */
  method ParseOrderBy(columnPath: string, query: string) returns (column: string, direction: string)
    ensures (column, direction) == OrderBy(columnPath, query)
  {
    var ob := Get(query, "orderby");
    if ob != "" {
      return ob, "";
    }
    column, direction := ScanPathOrder(columnPath);
  }

  /** A query `orderby` wins and carries no direction; otherwise the
      direction is ASC or DESC for a column without slice notation, or there
      is no order at all. */
  lemma OrderByShape(columnPath: string, query: string)
    ensures var (column, direction) := OrderBy(columnPath, query);
      && (Get(query, "orderby") != "" ==> column == Get(query, "orderby") && direction == "")
      && (direction == "" || direction == "ASC" || direction == "DESC")
      && (direction != "" ==> '[' !in column)
      && (direction == "" && Get(query, "orderby") == "" ==> column == "")
  {
    PathOrderShape(columnPath);
  }

  /** The path's order is a direction with a column free of slice notation,
      or no order at all. */
  lemma PathOrderShape(columnPath: string)
    ensures var (column, direction) := PathOrder(columnPath);
      && (direction == "" || direction == "ASC" || direction == "DESC")
      && (direction != "" ==> '[' !in column)
      && (direction == "" ==> column == "")
  {
    var parts := Split(columnPath, "/");
    var r := FirstSome(SegmentOrders(parts), 0);
    if r.Some? {
      var i :| 0 <= i < |parts| && SegmentOrders(parts)[i] == r;
      assert r == SegmentOrder(parts[i]);
    }
  }

  /** `+name` asks for ascending and `-name` for descending order on `name`,
      when `name` has no slice notation and no trailing space. */
  lemma SignedToken(name: string)
    requires '[' !in name && (name == [] || !IsSpace(name[|name| - 1]))
    ensures OrderToken("+" + name) == Some((name, "ASC"))
    ensures OrderToken("-" + name) == Some((name, "DESC"))
  {
    TrimSpaceNoop("+" + name);
    TrimSpaceNoop("-" + name);
    assert ("+" + name)[1..] == name && ("-" + name)[1..] == name;
  }

  /** In a segment of comma-separated tokens, the first token that requests
      a sort wins over every later one. */
  lemma FirstTokenWins(cols: seq<string>, k: nat)
    requires forall t :: t in cols ==> ',' !in t
    requires k < |cols| && OrderToken(cols[k]).Some?
    requires forall i :: 0 <= i < k ==> OrderToken(cols[i]).None?
    ensures SegmentOrder(Join(cols, ",")) == OrderToken(cols[k])
  {
    SegmentOfTokens(cols);
    TokensWin(cols, k);
  }

  /** The tokens of a segment joined from comma-free tokens are those tokens. */
  lemma SegmentOfTokens(cols: seq<string>)
    requires |cols| >= 1 && forall t :: t in cols ==> ',' !in t
    ensures SegmentOrder(Join(cols, ",")) == FirstSome(Orders(cols), 0)
  {
    SplitJoin(cols, ',');
  }

  lemma TokensWin(cols: seq<string>, k: nat)
    requires k < |cols| && OrderToken(cols[k]).Some?
    requires forall i :: 0 <= i < k ==> OrderToken(cols[i]).None?
    ensures FirstSome(Orders(cols), 0) == OrderToken(cols[k])
  {
    var orders := Orders(cols);
    assert orders[k] == OrderToken(cols[k]);
    assert forall i :: 0 <= i < k ==> orders[i].None?;
    FirstSomeWins(orders, 0, k);
  }

  /** The first segment that requests a sort wins over every later one. */
  lemma FirstSegmentWins(columnPath: string, k: nat)
    requires var parts := Split(columnPath, "/");
      k < |parts| && SegmentOrder(parts[k]).Some? && forall i :: 0 <= i < k ==> SegmentOrder(parts[i]).None?
    ensures PathOrder(columnPath) == SegmentOrder(Split(columnPath, "/")[k]).value
  {
    var parts := Split(columnPath, "/");
    FirstSomeWins(SegmentOrders(parts), 0, k);
  }

  /** A path none of whose tokens requests a sort gives no order. */
  lemma NoSortToken(columnPath: string)
    requires forall p, t :: p in Split(columnPath, "/") && t in Split(p, ",") ==> OrderToken(t).None?
    ensures PathOrder(columnPath) == ("", "")
  {
    var parts := Split(columnPath, "/");
    forall i | 0 <= i < |parts| ensures SegmentOrders(parts)[i].None? {
      var cols := Split(parts[i], ",");
      assert forall j :: 0 <= j < |cols| ==> Orders(cols)[j].None?;
      FirstSomeNone(Orders(cols), 0);
    }
    FirstSomeNone(SegmentOrders(parts), 0);
  }

  /** A column path of one segment requests the first sort of its tokens. */
  lemma SingleSegmentOrder(cp: string)
    requires cp != "" && '/' !in cp
    ensures PathOrder(cp) == match SegmentOrder(cp) case Some(o) => o case None => ("", "")
  {
    SplitAbsent(cp, "/");
    assert SegmentOrders([cp])[0] == SegmentOrder(cp);
  }
}

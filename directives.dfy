/** The auxiliary directives of the notation (banquet.go parseSlice,
    parseLimit, parseOffset, parseWhere, ParseGroupBy, parseHaving,
    parseTable): slice notation, query parameters with their precedence over
    the path, the group-by expression and the table heuristic. */
module Directives {
  import opened Wrappers
  import opened GoStrings
  import opened FormEncoding
  import opened Decimal
  import opened QueryValues

  /** `l` with negative values raised to 0. */
  function Max0(l: int): int {
    if l < 0 then 0 else l
  }

  /** The text between the last `[` of the path and the `]` it must end
      with. */
  function SliceContent(path: string): Option<string> {
    if !HasSuffix(path, "]") then None
    else
      var idx := LastIndex(path, "[");
      if idx == -1 then None
      else
        assert path[|path| - 1] == path[|path| - 1..][0];
        Some(path[idx + 1..|path| - 1])
  }

  /** The optional limit and the offset that the text `start:end` of slice
      notation asks for, or None when it is not two optional integers. */
  function SliceNumbers(content: string): (r: Option<(Option<int>, int)>)
    ensures r.Some? && r.value.0.Some? ==> r.value.0.value >= 0
  {
    var parts := Split(content, ":");
    if |parts| != 2 then None
    else
      var startStr := TrimSpace(parts[0]);
      var endStr := TrimSpace(parts[1]);
      if startStr != "" && Atoi(startStr).None? then None
      else if endStr != "" && Atoi(endStr).None? then None
      else
        var start := if startStr != "" then Atoi(startStr).value else 0;
        Some((if endStr != "" then Some(Max0(Sub64(Atoi(endStr).value, start))) else None, start))
  }

  /** The (limit, offset) texts for slice notation's numbers. */
  function SliceBounds(content: string): (r: (string, string))
    ensures r.0 != "" ==> r.1 != ""
  {
    match SliceNumbers(content)
    case None => ("", "")
    case Some((limit, offset)) =>
      ItoaShape(offset);
      (if limit.Some? then Itoa(limit.value) else "", Itoa(offset))
  }

  /** parseSlice: the (limit, offset) that slice notation `[start:end]` at
      the very end of the path asks for, or ("", "") when there is none. */
  function SliceOf(path: string): (r: (string, string))
    ensures r.0 != "" ==> r.1 != ""
  {
    match SliceContent(path)
    case None => ("", "")
    case Some(content) => SliceBounds(content)
  }

  /** Slice notation is found after the last `[`. */
  lemma SliceContentOf(prefix: string, content: string)
    requires '[' !in content
    ensures SliceContent(prefix + "[" + content + "]") == Some(content)
  {
    var path := prefix + "[" + content + "]";
    assert path == prefix + "[" + (content + "]");
    LastIndexOfConcat(prefix, "[", content + "]");
    assert path[|prefix| + 1..|path| - 1] == content;
  }

  /** parseSlice. */
  method ParseSlice(pathStr: string) returns (limit: string, offset: string)
    ensures (limit, offset) == SliceOf(pathStr)
  {
    if !HasSuffix(pathStr, "]") {
      return "", "";
    }
    var idx := LastIndex(pathStr, "[");
    if idx == -1 {
      return "", "";
    }
    assert pathStr[|pathStr| - 1] == pathStr[|pathStr| - 1..][0];
    var content := pathStr[idx + 1..|pathStr| - 1];
    assert SliceContent(pathStr) == Some(content);
    limit, offset := SliceOfContent(content);
  }

  /** The second half of parseSlice, from the text between the brackets. */
  method SliceOfContent(content: string) returns (limit: string, offset: string)
    ensures (limit, offset) == SliceBounds(content)
  {
    var parts := Split(content, ":");
    if |parts| != 2 {
      return "", "";
    }
    var startStr := TrimSpace(parts[0]);
    var endStr := TrimSpace(parts[1]);
    var start := 0;
    var end := 0;
    var hasLimit := false;
    if startStr != "" {
      var s := Atoi(startStr);
      if s.None? {
        return "", "";
      }
      start := s.value;
    }
    if endStr != "" {
      var e := Atoi(endStr);
      if e.None? {
        return "", "";
      }
      end := e.value;
      hasLimit := true;
    }
    var first := start;
    var l := 0;
    if hasLimit {
      l := Sub64(end, start);
      if l < 0 {
        l := 0;
      }
    }
    assert startStr != "" ==> Atoi(startStr).Some? && first == Atoi(startStr).value;
    assert startStr == "" ==> first == 0;
    assert hasLimit == (endStr != "");
    assert hasLimit ==> Atoi(endStr).Some? && l == Max0(Sub64(Atoi(endStr).value, first));
    assert SliceNumbers(content).Some?;
    assert SliceNumbers(content).value.1 == first;
    assert SliceNumbers(content) == Some((if hasLimit then Some(l) else None, first));
    limit := "";
    if hasLimit {
      limit := Itoa(l);
    }
    offset := Itoa(first);
  }

  /** The text of an optional slice bound. */
  function Bound(b: Option<int>): string {
    match b
    case None => ""
    case Some(v) => Itoa(v)
  }

  lemma BoundShape(b: Option<int>)
    ensures forall c :: c in Bound(b) ==> IsDigit(c) || c == '-'
    ensures Bound(b) == "" <==> b.None?
  {
    if b.Some? {
      ItoaShape(b.value);
      forall c | c in Bound(b) ensures IsDigit(c) || c == '-' {
        var i :| 0 <= i < |Bound(b)| && Bound(b)[i] == c;
        if i > 0 {
          assert IsDigit(Itoa(b.value)[i]);
        }
      }
    }
  }

  /** Slice notation `[start:end]` at the end of a path gives offset `start`
      (0 when left out) and limit `end - start` in 64-bit arithmetic, raised
      to 0 when negative, only when `end` is given. */
  lemma SliceArithmetic(prefix: string, start: Option<int>, end: Option<int>)
    requires start.Some? ==> InInt64(start.value)
    requires end.Some? ==> InInt64(end.value)
    ensures SliceOf(prefix + "[" + Bound(start) + ":" + Bound(end) + "]")
      == (if end.Some? then Itoa(Max0(Sub64(end.value, start.GetOr(0)))) else "", Itoa(start.GetOr(0)))
    ensures end.Some? && InInt64(end.value - start.GetOr(0)) ==>
      SliceOf(prefix + "[" + Bound(start) + ":" + Bound(end) + "]").0 == Itoa(Max0(end.value - start.GetOr(0)))
  {
    var a := Bound(start);
    var b := Bound(end);
    BoundShape(start);
    BoundShape(end);
    assert '[' !in a + ":" + b by {
      assert forall c :: c in a + ":" + b ==> c in a || c == ':' || c in b;
    }
    SliceContentOf(prefix, a + ":" + b);
    assert prefix + "[" + a + ":" + b + "]" == prefix + "[" + (a + ":" + b) + "]";
    BoundsArithmetic(start, end);
  }

  lemma BoundsArithmetic(start: Option<int>, end: Option<int>)
    requires start.Some? ==> InInt64(start.value)
    requires end.Some? ==> InInt64(end.value)
    ensures SliceBounds(Bound(start) + ":" + Bound(end))
      == (if end.Some? then Itoa(Max0(Sub64(end.value, start.GetOr(0)))) else "", Itoa(start.GetOr(0)))
  {
    var a := Bound(start);
    var b := Bound(end);
    BoundsSplit(start, end);
    BoundRoundTrip(start);
    BoundRoundTrip(end);
    BoundsValue(a, b, start, end);
  }

  lemma BoundsSplit(start: Option<int>, end: Option<int>)
    ensures Split(Bound(start) + ":" + Bound(end), ":") == [Bound(start), Bound(end)]
  {
    BoundShape(start);
    BoundShape(end);
    SplitCons(Bound(start), ":", Bound(end));
    SplitAbsent(Bound(end), ":");
  }

  /** A bound's text is already trimmed and reads back as the bound. */
  lemma BoundRoundTrip(b: Option<int>)
    requires b.Some? ==> InInt64(b.value)
    ensures TrimSpace(Bound(b)) == Bound(b)
    ensures b.Some? ==> Atoi(Bound(b)) == b
  {
    BoundShape(b);
    if b.Some? {
      TrimSpaceNoop(Bound(b));
      AtoiItoa(b.value);
    }
  }

  lemma BoundsValue(a: string, b: string, start: Option<int>, end: Option<int>)
    requires Split(a + ":" + b, ":") == [a, b]
    requires TrimSpace(a) == a && TrimSpace(b) == b
    requires (a == "") == start.None? && (b == "") == end.None?
    requires start.Some? ==> Atoi(a) == start
    requires end.Some? ==> Atoi(b) == end
    ensures SliceBounds(a + ":" + b)
      == (if end.Some? then Itoa(Max0(Sub64(end.value, start.GetOr(0)))) else "", Itoa(start.GetOr(0)))
  {
  }

  /** Slice notation with a bound that is not an integer gives nothing. */
  lemma SliceRejectsNonInteger(prefix: string, a: string, b: string)
    requires '[' !in a && '[' !in b && ':' !in a && ':' !in b
    requires (TrimSpace(a) != "" && Atoi(TrimSpace(a)).None?) || (TrimSpace(b) != "" && Atoi(TrimSpace(b)).None?)
    ensures SliceOf(prefix + "[" + a + ":" + b + "]") == ("", "")
  {
    SliceText(prefix, a, b);
    ColonPair(a, b);
    assert SliceNumbers(a + ":" + b).None?;
  }

  /** The content of `prefix[a:b]` is `a:b` when neither bound holds `[`. */
  lemma SliceText(prefix: string, a: string, b: string)
    requires '[' !in a && '[' !in b
    ensures SliceContent(prefix + "[" + a + ":" + b + "]") == Some(a + ":" + b)
  {
    var content := a + ":" + b;
    assert '[' !in content by {
      assert forall c :: c in content ==> c in a || c == ':' || c in b;
    }
    SliceContentOf(prefix, content);
    assert prefix + "[" + a + ":" + b + "]" == prefix + "[" + content + "]";
  }

  /** `a:b` splits at `:` into its two bounds when neither holds `:`. */
  lemma ColonPair(a: string, b: string)
    requires ':' !in a && ':' !in b
    ensures Split(a + ":" + b, ":") == [a, b]
  {
    SplitCons(a, ":", b);
    SplitAbsent(b, ":");
  }

  /** Slice notation must hold exactly one `:`. */
  lemma SliceNeedsOneColon(prefix: string, content: string)
    requires '[' !in content && |Split(content, ":")| != 2
    ensures SliceOf(prefix + "[" + content + "]") == ("", "")
  {
    SliceContentOf(prefix, content);
  }

  /** A path that does not end in `]` has no slice notation. */
  lemma SliceNeedsClosingBracket(path: string)
    requires !HasSuffix(path, "]")
    ensures SliceOf(path) == ("", "")
  {
  }

  /** parseLimit: the query parameter `limit`, else the slice's limit. */
  function Limit(query: string, path: string): string {
    var l := Get(query, "limit");
    if l != "" then l
    else
      var (limit, _) := SliceOf(path);
      if limit != "" then limit else ""
  }

  /** parseOffset: the query parameter `offset`, else the slice's offset. */
  function Offset(query: string, path: string): string {
    var o := Get(query, "offset");
    if o != "" then o else SliceOf(path).1
  }

  /** parseHaving: the query parameter `having`, verbatim. */
  function Having(query: string): string {
    Get(query, "having")
  }

  /** The first `having=` piece gives the HAVING text, whatever follows it;
      one that is the whole query gives it too. */
  lemma HavingFirst(value: string, rest: string)
    requires '&' !in value && ';' !in value && '%' !in value && '+' !in value
    ensures Having("having=" + value + "&" + rest) == value
    ensures Having("having=" + value) == value
  {
    var piece := "having=" + value;
    HavingPiece(value);
    GetFirst(piece, rest, "having", value);
    GetSingle(piece, "having");
  }

  /** `having=` and a plain value is one piece that decodes to that pair. */
  lemma HavingPiece(value: string)
    requires '&' !in value && ';' !in value && '%' !in value && '+' !in value
    ensures '&' !in "having=" + value
    ensures PairOf("having=" + value) == Some(("having", value))
  {
    assert "having" + "=" + value == "having=" + value;
    PlainPair("having", value);
    assert '&' !in "having=";
  }

  /** A piece for another key before `having=` is passed over. */
  lemma HavingSkips(piece: string, rest: string)
    requires '&' !in piece && (PairOf(piece).None? || PairOf(piece).value.0 != "having")
    ensures Having(piece + "&" + rest) == Having(rest)
  {
    GetSkip(piece, rest, "having");
  }

  /** A query `limit` or `offset` wins over slice notation in the path; a
      missing one falls back on the slice. */
  lemma LimitOffsetPrecedence(query: string, prefix: string, start: Option<int>, end: Option<int>)
    requires start.Some? ==> InInt64(start.value)
    requires end.Some? ==> InInt64(end.value)
    ensures var path := prefix + "[" + Bound(start) + ":" + Bound(end) + "]";
      && Limit(query, path)
         == (if Get(query, "limit") != "" then Get(query, "limit")
             else if end.Some? then Itoa(Max0(Sub64(end.value, start.GetOr(0)))) else "")
      && Offset(query, path)
         == (if Get(query, "offset") != "" then Get(query, "offset") else Itoa(start.GetOr(0)))
  {
    SliceArithmetic(prefix, start, end);
  }

  /** The first `where=` parameter at or after `from`, tolerantly decoded. */
  function FirstWhere(params: seq<string>, from: nat): string
    decreases |params| - from
  {
    if from >= |params| then ""
    else if HasPrefix(params[from], "where=") then Decoded(TrimPrefix(params[from], "where="))
    else FirstWhere(params, from + 1)
  }

  /** parseWhere: the WHERE text of the query. */
  function QueryWhere(query: string): string {
    if query == "" then "" else FirstWhere(Split(query, "&"), 0)
  }

  /** parseWhere. */
  method ParseWhere(query: string) returns (where: string)
    ensures where == QueryWhere(query)
  {
    if query == "" {
      return "";
    }
    var params := Split(query, "&");
    var i := 0;
    while i < |params|
      invariant 0 <= i <= |params|
      invariant FirstWhere(params, 0) == FirstWhere(params, i)
    {
      var p := params[i];
      if HasPrefix(p, "where=") {
        var val := TrimPrefix(p, "where=");
        var decoded := QueryUnescape(val);
        if decoded.Some? {
          return decoded.value;
        }
        return val;
      }
      i := i + 1;
    }
    return "";
  }

  /** The first `where=` parameter wins; its value is kept raw when it does
      not decode. */
  lemma {:induction false} FirstWhereWins(params: seq<string>, k: nat)
    requires k < |params| && HasPrefix(params[k], "where=")
    requires forall i :: 0 <= i < k ==> !HasPrefix(params[i], "where=")
    ensures FirstWhere(params, 0) == Decoded(params[k][6..])
  {
    var j := k;
    while j > 0
      invariant 0 <= j <= k
      invariant FirstWhere(params, j) == Decoded(params[k][6..])
      decreases j
    {
      j := j - 1;
    }
  }

  /** A query that is exactly `where=` and a plain value gives that value. */
  lemma WherePlain(value: string)
    requires '&' !in value && '%' !in value && '+' !in value
    ensures QueryWhere("where=" + value) == value
  {
    var q := "where=" + value;
    SplitAbsent(q, "&");
    assert HasPrefix(q, "where=");
    assert q[6..] == value;
    DecodedMeaning(value);
  }

  /** ParseGroupBy: the query parameter `groupby`, else the text between the
      first `(` and the first `)` of the path when `(` comes first. */
  function GroupBy(path: string, query: string): string {
    var g := Get(query, "groupby");
    if g != "" then g
    else if Contains(path, "(") && Contains(path, ")") then
      var start := Index(path, "(");
      var end := Index(path, ")");
      if start < end then path[start + 1..end] else ""
    else ""
  }

  /** Without a query `groupby`, a path `a(g)b` whose `a` has no parentheses
      and whose `g` has no `)` groups by `g`. */
  lemma GroupByPath(a: string, g: string, b: string, query: string)
    requires Get(query, "groupby") == ""
    requires '(' !in a && ')' !in a && ')' !in g
    ensures GroupBy(a + "(" + g + ")" + b, query) == g
  {
    var path := a + "(" + g + ")" + b;
    assert path == a + "(" + (g + ")" + b);
    IndexOfConcat(a, "(", g + ")" + b);
    assert path == (a + "(" + g) + ")" + b;
    assert ')' !in a + "(" + g;
    IndexOfConcat(a + "(" + g, ")", b);
    assert path[|a| + 1..|a| + 1 + |g|] == g;
  }

  /** A `)` before the first `(` gives no group-by from the path. */
  lemma GroupByUnbalanced(a: string, b: string, query: string)
    requires Get(query, "groupby") == ""
    requires '(' !in a && ')' !in a
    ensures GroupBy(a + ")" + b, query) == ""
  {
    var path := a + ")" + b;
    IndexOfConcat(a, ")", b);
    if Contains(path, "(") {
      var start := Index(path, "(");
      assert path[|a|] == ')';
      assert start != |a|;
      assert forall i :: 0 <= i < |a| ==> path[i] == a[i];
      assert start > |a|;
    }
  }

  /** The first segment of a column path is a selector (column list, sort
      or condition) rather than a table name. */
  predicate IsSelector(first: string) {
    || Contains(first, ",")
    || HasPrefix(first, "+")
    || HasPrefix(first, "-")
    || Contains(first, "!=")
    || Contains(first, "=")
    || Contains(first, ">")
    || Contains(first, "<")
    || (HasPrefix(first, "[") && Contains(first, ":"))
  }

  /** parseTable: the first segment of the column path with its outer `/`
      trimmed, unless it is a selector. */
  function Table(columnPath: string): (t: string)
    ensures t != "" ==> !IsSelector(t) && '/' !in t
    ensures t != "" ==>
      var trimmed := TrimChar(columnPath, '/');
      HasPrefix(trimmed, t) && (|t| == |trimmed| || trimmed[|t|] == '/')
  {
    if columnPath == "" then ""
    else
      var trimmed := TrimChar(columnPath, '/');
      var parts := Split(trimmed, "/");
      if |parts| == 0 || parts[0] == "" then ""
      else if IsSelector(parts[0]) then ""
      else
        FirstPiece(trimmed, "/");
        SplitPiecesFree(trimmed, "/");
        ContainsChar(parts[0], '/');
        parts[0]
  }

  /** A bare table name, alone or followed by more of the column path, is
      taken as the table. */
  lemma TableOfPath(name: string, rest: string)
    requires name != "" && '/' !in name && !IsSelector(name)
    requires rest != "" && rest[0] != '/' && rest[|rest| - 1] != '/'
    ensures Table(name) == name
    ensures Table(name + "/" + rest) == name
  {
    TrimCharPlain(name, '/');
    SplitAbsent(name, "/");
    TrimCharPlain(name + "/" + rest, '/');
    SplitCons(name, "/", rest);
  }

  /** A single segment that is a selector names no table. */
  lemma SelectorSegment(segment: string)
    requires segment != "" && '/' !in segment && IsSelector(segment)
    ensures Table(segment) == ""
  {
    TrimCharPlain(segment, '/');
    SplitAbsent(segment, "/");
  }
}

/** Column selection (banquet.go ParseSelect): the columns named by the
    classified segments of the column path, with sort and condition tokens
    and slice notation left out, or `*` when none is named. */
module Selection {
  import opened Wrappers
  import opened GoStrings
  import opened Classifier

  /** A whole segment in slice notation, such as `[0:10]`. */
  predicate IsSliceSegment(segment: string) {
    HasPrefix(segment, "[") && HasSuffix(segment, "]") && Contains(segment, ":")
  }

  /** A token that is a condition or a sort instruction rather than a column. */
  predicate IsDirective(col: string) {
    Contains(col, "!=") || HasPrefix(col, "+") || HasPrefix(col, "-")
  }

  /** The column a non-directive token names: slice notation cut off, spaces
      trimmed; "" names no column. */
  function ColumnOf(col: string): string {
    TrimSpace(CutAtBracket(col))
  }

  /** The column one token names, if any. */
  function TokenColumn(col: string): seq<string> {
    if IsDirective(col) || ColumnOf(col) == "" then [] else [ColumnOf(col)]
  }

  /** The columns named by a sequence of comma-separated tokens, in order. */
  function SelectInTokens(cols: seq<string>): seq<string> {
    ConcatMap(TokenColumn, cols)
  }

  /** The columns named by one segment. */
  function SelectInSegment(segment: string): seq<string> {
    if IsSliceSegment(segment) || segment == "" then [] else SelectInTokens(Split(segment, ","))
  }

  /** The columns named by a sequence of segments, in order. */
  function SelectInSegments(segments: seq<string>): seq<string> {
    ConcatMap(SelectInSegment, segments)
  }

  /** The selection of a column path. */
  function Select(columnPath: string): seq<string> {
    var collected := SelectInSegments(Segments(columnPath));
    if collected == [] then ["*"] else collected
  }

  /** The inner loop of ParseSelect: the columns named by the tokens of one
      segment. */
  method CollectColumns(cols: seq<string>) returns (found: seq<string>)
    ensures found == SelectInTokens(cols)
  {
    found := [];
    var j := 0;
    while j < |cols|
      invariant 0 <= j <= |cols|
      invariant found == SelectInTokens(cols[..j])
    {
      var col := cols[j];
      ghost var token, before := col, found;
      if !Contains(col, "!=") && !HasPrefix(col, "+") && !HasPrefix(col, "-") {
        var idx := Index(col, "[");
        if idx != -1 {
          col := col[..idx];
        }
        assert col == CutAtBracket(token);
        col := TrimSpace(col);
        if col != "" {
          found := found + [col];
        }
      }
      assert found == before + TokenColumn(token);
      assert found == SelectInTokens(cols[..j + 1]) by {
        assert cols[..j + 1] == cols[..j] + [token];
        ConcatMapSnoc(TokenColumn, cols[..j], token);
      }
      j := j + 1;
    }
    assert cols[..j] == cols;
  }

  /** ParseSelect. */
  method ParseSelect(columnPath: string) returns (columns: seq<string>)
    ensures columns == Select(columnPath)
    ensures |columns| >= 1
  {
    var segments := GetSegments(columnPath);
    if |segments| == 0 {
      return ["*"];
    }
    var collected: seq<string> := [];
    var i := 0;
    while i < |segments|
      invariant 0 <= i <= |segments|
      invariant collected == SelectInSegments(segments[..i])
    {
      var segment := segments[i];
      assert segments[..i + 1] == segments[..i] + [segment];
      ConcatMapSnoc(SelectInSegment, segments[..i], segment);
      if !IsSliceSegment(segment) && segment != "" {
        var found := CollectColumns(Split(segment, ","));
        collected := collected + found;
      }
      i := i + 1;
    }
    assert segments[..i] == segments;
    if |collected| == 0 {
      return ["*"];
    }
    return collected;
  }

  /** A selected column: non-empty, trimmed, and free of the characters that
      separate tokens, segments and slice notation. */
  predicate CleanColumn(c: string) {
    c != "" && TrimSpace(c) == c && ',' !in c && '/' !in c && '[' !in c
  }

  /** A selection names at least one column, and every column it names is
      clean or is `*` itself. */
  lemma SelectIsClean(columnPath: string)
    ensures |Select(columnPath)| >= 1
    ensures forall c :: c in Select(columnPath) ==> c == "*" || CleanColumn(c)
  {
    SegmentsShape(columnPath);
    SegmentsClean(Segments(columnPath));
  }

  lemma SegmentsClean(segments: seq<string>)
    requires forall seg :: seg in segments ==> '/' !in seg
    ensures forall c :: c in SelectInSegments(segments) ==> CleanColumn(c)
  {
    forall c | c in SelectInSegments(segments) ensures CleanColumn(c) {
      ConcatMapMember(SelectInSegment, segments, c);
      var i :| 0 <= i < |segments| && c in SelectInSegment(segments[i]);
      SegmentClean(segments[i]);
    }
  }

  lemma SegmentClean(segment: string)
    requires '/' !in segment
    ensures forall c :: c in SelectInSegment(segment) ==> CleanColumn(c)
  {
    if !IsSliceSegment(segment) && segment != "" {
      var cols := Split(segment, ",");
      SplitPiecesFree(segment, ",");
      SplitPiecesChars(segment, ",");
      forall p | p in cols ensures ',' !in p && '/' !in p {
        ContainsChar(p, ',');
      }
      TokensClean(cols);
    }
  }

  lemma TokensClean(cols: seq<string>)
    requires forall p :: p in cols ==> ',' !in p && '/' !in p
    ensures forall c :: c in SelectInTokens(cols) ==> CleanColumn(c)
  {
    forall c | c in SelectInTokens(cols) ensures CleanColumn(c) {
      ConcatMapMember(TokenColumn, cols, c);
      var i :| 0 <= i < |cols| && c in TokenColumn(cols[i]);
      assert cols[i] in cols;
      ColumnClean(cols[i]);
    }
  }

  lemma ColumnClean(col: string)
    requires ',' !in col && '/' !in col
    ensures ColumnOf(col) != "" ==> CleanColumn(ColumnOf(col))
  {
    var cut := CutAtBracket(col);
    assert cut == col[..|cut|];
    TrimSpaceShape(cut);
    TrimSpaceIdempotent(cut);
    var i, j :| 0 <= i <= j <= |cut| && TrimSpace(cut) == cut[i..j];
    assert forall ch :: ch in cut[i..j] ==> ch in cut;
    assert forall ch :: ch in cut ==> ch in col;
  }

  /** Selection distributes over concatenation of token lists: tokens are
      resolved independently and their order is kept. */
  lemma SelectInTokensConcat(a: seq<string>, b: seq<string>)
    ensures SelectInTokens(a + b) == SelectInTokens(a) + SelectInTokens(b)
  {
    ConcatMapConcat(TokenColumn, a, b);
  }

  /** Deleting a condition or sort token does not change the selection, and
      a plain token contributes exactly its cleaned name at its place. */
  lemma TokenContribution(pre: seq<string>, col: string, post: seq<string>)
    ensures IsDirective(col) ==> SelectInTokens(pre + [col] + post) == SelectInTokens(pre + post)
    ensures !IsDirective(col) && ColumnOf(col) != "" ==>
      SelectInTokens(pre + [col] + post) == SelectInTokens(pre) + [ColumnOf(col)] + SelectInTokens(post)
  {
    TokenSplice(pre, col, post);
    SelectInTokensConcat(pre, post);
  }

  lemma TokenSplice(pre: seq<string>, col: string, post: seq<string>)
    ensures SelectInTokens(pre + [col] + post) == SelectInTokens(pre) + TokenColumn(col) + SelectInTokens(post)
  {
    SelectInTokensConcat(pre + [col], post);
    ConcatMapSnoc(TokenColumn, pre, col);
  }

  /** Selection distributes over concatenation of segment lists. */
  lemma SelectInSegmentsConcat(a: seq<string>, b: seq<string>)
    ensures SelectInSegments(a + b) == SelectInSegments(a) + SelectInSegments(b)
  {
    ConcatMapConcat(SelectInSegment, a, b);
  }

  /** When no token of any segment names a column, the selection is `*`. */
  lemma DefaultSelection(columnPath: string)
    requires forall seg, col :: seg in Segments(columnPath) && !IsSliceSegment(seg) && col in Split(seg, ",")
               ==> IsDirective(col) || ColumnOf(col) == ""
    ensures Select(columnPath) == ["*"]
  {
    NothingInSegments(Segments(columnPath));
  }

  lemma NothingInSegments(segments: seq<string>)
    requires forall seg, col :: seg in segments && !IsSliceSegment(seg) && col in Split(seg, ",")
               ==> IsDirective(col) || ColumnOf(col) == ""
    ensures SelectInSegments(segments) == []
  {
    forall i | 0 <= i < |segments| ensures SelectInSegment(segments[i]) == [] {
      var segment := segments[i];
      assert segment in segments;
      if !IsSliceSegment(segment) && segment != "" {
        NothingInTokens(Split(segment, ","));
      }
    }
    ConcatMapEmpty(SelectInSegment, segments);
  }

  lemma NothingInTokens(cols: seq<string>)
    requires forall col :: col in cols ==> IsDirective(col) || ColumnOf(col) == ""
    ensures SelectInTokens(cols) == []
  {
    forall i | 0 <= i < |cols| ensures TokenColumn(cols[i]) == [] {
      assert cols[i] in cols;
    }
    ConcatMapEmpty(TokenColumn, cols);
  }

  /** A column path of one segment, not in slice notation, selects the
      columns of its tokens, or `*` when they name none. */
  lemma SingleSegmentSelect(cp: string)
    requires cp != "" && '/' !in cp && cp[0] != '['
    ensures var cols := SelectInTokens(Split(cp, ","));
      Select(cp) == if cols == [] then ["*"] else cols
  {
    SingleSegment(cp);
    assert !IsSliceSegment(cp);
    ConcatMapSnoc(SelectInSegment, [], cp);
    assert [] + [cp] == [cp];
  }

  /** Two tokens name their columns in order. */
  lemma PairColumns(a: string, b: string)
    ensures SelectInTokens([a, b]) == TokenColumn(a) + TokenColumn(b)
  {
    ConcatMapSnoc(TokenColumn, [a], b);
    ConcatMapSnoc(TokenColumn, [], a);
    assert [] + [a] == [a] && [a] + [b] == [a, b];
  }

  /** Three tokens name their columns in order. */
  lemma TripleColumns(a: string, b: string, c: string)
    ensures SelectInTokens([a, b, c]) == TokenColumn(a) + TokenColumn(b) + TokenColumn(c)
  {
    PairColumns(a, b);
    ConcatMapSnoc(TokenColumn, [a, b], c);
    assert [a, b] + [c] == [a, b, c];
  }
}

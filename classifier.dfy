/** The segment classifier (banquet.go getSegments): the `/`-segments of the
    column path from the first one that shows a column, sort or condition
    indicator to the end, or only the last segment when none does. */
module Classifier {
  import opened GoStrings

  /** A segment that is certainly column, sort or condition data. */
  predicate HasIndicator(part: string) {
    || Contains(part, ",")
    || HasPrefix(part, "+")
    || HasPrefix(part, "-")
    || Contains(part, "!=")
    || (HasPrefix(part, "[") && Contains(part, ":"))
  }

  /** The first position at or after `from` of a segment with an indicator,
      or -1. */
  function FirstIndicatorFrom(parts: seq<string>, from: nat): (k: int)
    ensures k == -1 || (from <= k < |parts| && HasIndicator(parts[k]))
    ensures forall i :: from <= i < |parts| && (k == -1 || i < k) ==> !HasIndicator(parts[i])
    decreases |parts| - from
  {
    if from >= |parts| then -1
    else if HasIndicator(parts[from]) then from
    else FirstIndicatorFrom(parts, from + 1)
  }

  /** The classified segments of a column path. */
  function Segments(columnPath: string): seq<string> {
    var parts := Split(columnPath, "/");
    if |parts| == 0 || (|parts| == 1 && parts[0] == "") then []
    else
      var k := FirstIndicatorFrom(parts, 0);
      if k != -1 then parts[k..] else parts[|parts| - 1..]
  }

  /** getSegments. */
  method GetSegments(columnPath: string) returns (segments: seq<string>)
    ensures segments == Segments(columnPath)
  {
    var parts := Split(columnPath, "/");
    if |parts| == 0 || (|parts| == 1 && parts[0] == "") {
      return [];
    }
    var firstClearSegment := -1;
    var i := 0;
    while i < |parts|
      invariant 0 <= i <= |parts|
      invariant firstClearSegment == -1 ==> FirstIndicatorFrom(parts, 0) == FirstIndicatorFrom(parts, i)
      invariant firstClearSegment != -1 ==> firstClearSegment == FirstIndicatorFrom(parts, 0)
    {
      if HasIndicator(parts[i]) {
        firstClearSegment := i;
        break;
      }
      i := i + 1;
    }
    if firstClearSegment != -1 {
      return parts[firstClearSegment..];
    }
    return parts[|parts| - 1..];
  }

  /** The empty column path has no segments; any other has at least one, each
      free of `/`, and they are the tail of its `/`-segments that starts at
      the first indicator, or its last segment alone when there is no
      indicator. */
  lemma SegmentsShape(columnPath: string)
    ensures Segments(columnPath) == [] <==> columnPath == ""
    ensures forall seg :: seg in Segments(columnPath) ==> '/' !in seg
    ensures columnPath != "" ==>
      var parts := Split(columnPath, "/");
      var k := FirstIndicatorFrom(parts, 0);
      && (k != -1 ==> Segments(columnPath) == parts[k..] && HasIndicator(Segments(columnPath)[0]))
      && (k == -1 ==> Segments(columnPath) == [parts[|parts| - 1]]
                      && forall i :: 0 <= i < |parts| ==> !HasIndicator(parts[i]))
  {
    var parts := Split(columnPath, "/");
    SplitPiecesFree(columnPath, "/");
    forall p | p in parts ensures '/' !in p {
      ContainsChar(p, '/');
    }
    if columnPath != "" && |parts| == 1 {
      JoinSplit(columnPath, "/");
    }
  }

  /** The text of a token before its first `[`: slice notation cut off. */
  function CutAtBracket(col: string): (r: string)
    ensures '[' !in r && HasPrefix(col, r)
    ensures '[' !in col ==> r == col
  {
    var idx := Index(col, "[");
    IndexOfChar(col, '[');
    if idx != -1 then col[..idx] else col
  }

  /** A column path without `/` is its own single segment. */
  lemma SingleSegment(cp: string)
    requires cp != "" && '/' !in cp
    ensures Split(cp, "/") == [cp] && Segments(cp) == [cp]
  {
    SplitAbsent(cp, "/");
    var parts := Split(cp, "/");
    assert parts[0..] == parts && parts[|parts| - 1..] == parts;
  }
}

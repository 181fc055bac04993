/** Path conditions (banquet.go parsePathConditions): every `col!=val` token
    of the classified segments becomes the SQL condition `col != val`, and
    the conditions are joined with ` AND `. Whether a value is numeric
    (strconv.ParseFloat succeeding) is the parameter `isNumber`. */
module Conditions {
  import opened Wrappers
  import opened GoStrings
  import opened FormEncoding
  import opened SqlQuoting
  import opened Classifier

  /** The SQL operand for a raw value: the decoded value itself when it is a
      number, otherwise that value as a single-quoted SQL string literal. */
  function SqlValue(raw: string, isNumber: string -> bool): string {
    var v := Decoded(raw);
    if isNumber(v) then v else Quoted(v, '\'')
  }

  /** The condition a token states, if it contains `!=`. */
  function ConditionOf(part: string, isNumber: string -> bool): Option<string> {
    if !Contains(part, "!=") then None
    else
      var kv := SplitN(part, "!=", 2);
      if |kv| == 2 then Some(TrimSpace(kv[0]) + " != " + SqlValue(TrimSpace(kv[1]), isNumber))
      else None
  }

  /** The conditions stated by one token: none or one. */
  function TokenConditions(part: string, isNumber: string -> bool): seq<string> {
    match ConditionOf(part, isNumber)
    case None => []
    case Some(c) => [c]
  }

  /** The conditions stated by a sequence of tokens, in order. */
  function ConditionsInTokens(parts: seq<string>, isNumber: string -> bool): seq<string> {
    ConcatMap(part => TokenConditions(part, isNumber), parts)
  }

  /** The conditions stated by one segment. */
  function SegmentConditions(segment: string, isNumber: string -> bool): seq<string> {
    if segment == "" then [] else ConditionsInTokens(Split(segment, ","), isNumber)
  }

  /** The conditions stated by a sequence of segments, in order. */
  function ConditionsInSegments(segments: seq<string>, isNumber: string -> bool): seq<string> {
    ConcatMap(segment => SegmentConditions(segment, isNumber), segments)
  }

  /** The WHERE text the column path states. */
  function PathConditions(columnPath: string, isNumber: string -> bool): string {
    Join(ConditionsInSegments(Segments(columnPath), isNumber), " AND ")
  }

  /** The inner loop of parsePathConditions: the conditions of the tokens of
      one segment. */
  method CollectConditions(segment: string, isNumber: string -> bool) returns (found: seq<string>)
    ensures found == ConditionsInTokens(Split(segment, ","), isNumber)
  {
    var parts := Split(segment, ",");
    found := [];
    var j := 0;
    while j < |parts|
      invariant 0 <= j <= |parts|
      invariant found == ConditionsInTokens(parts[..j], isNumber)
    {
      var part := parts[j];
      assert parts[..j + 1] == parts[..j] + [part];
      TokensSnoc(parts[..j], part, isNumber);
      if Contains(part, "!=") {
        var kv := SplitN(part, "!=", 2);
        if |kv| == 2 {
          var col := TrimSpace(kv[0]);
          var val := TrimSpace(kv[1]);
          var decoded := QueryUnescape(val);
          if decoded.Some? {
            val := decoded.value;
          }
          if !isNumber(val) {
            val := ReplaceAll(val, "'", "''");
            val := "'" + val + "'";
          }
          found := found + [col + " != " + val];
        }
      }
      j := j + 1;
    }
    assert parts[..j] == parts;
  }

  /** parsePathConditions. */
  method ParsePathConditions(columnPath: string, isNumber: string -> bool) returns (where: string)
    ensures where == PathConditions(columnPath, isNumber)
  {
    var segments := GetSegments(columnPath);
    if |segments| == 0 {
      return "";
    }
    var conditions: seq<string> := [];
    var i := 0;
    while i < |segments|
      invariant 0 <= i <= |segments|
      invariant conditions == ConditionsInSegments(segments[..i], isNumber)
    {
      var segment := segments[i];
      assert segments[..i + 1] == segments[..i] + [segment];
      SegmentsSnoc(segments[..i], segment, isNumber);
      if segment != "" {
        var found := CollectConditions(segment, isNumber);
        conditions := conditions + found;
      }
      i := i + 1;
    }
    assert segments[..i] == segments;
    assert conditions == ConditionsInSegments(Segments(columnPath), isNumber);
    if |conditions| == 0 {
      return "";
    }
    where := Join(conditions, " AND ");
  }

  /** A token `col!=val` (with no `!` in `col`) becomes `col != val`, both
      sides trimmed and the value turned into an SQL operand. */
  lemma ConditionShape(col: string, val: string, isNumber: string -> bool)
    requires '!' !in col
    ensures ConditionOf(col + "!=" + val, isNumber)
            == Some(TrimSpace(col) + " != " + SqlValue(TrimSpace(val), isNumber))
  {
    IndexOfConcat(col, "!=", val);
    SplitNCons(col, "!=", val, 2);
  }

  /** A token without `!=` states no condition. */
  lemma NoConditionWithout(part: string, isNumber: string -> bool)
    requires !Contains(part, "!=")
    ensures ConditionOf(part, isNumber) == None && TokenConditions(part, isNumber) == []
  {
  }

  /** The operand is the decoded value verbatim when that value is numeric;
      otherwise it is a single-quoted literal that an SQL lexer reads back as
      exactly the decoded value, so the value cannot end the literal early. */
  lemma SqlValueMeaning(raw: string, isNumber: string -> bool)
    ensures isNumber(Decoded(raw)) ==> SqlValue(raw, isNumber) == Decoded(raw)
    ensures !isNumber(Decoded(raw)) ==> Dequote(SqlValue(raw, isNumber), '\'') == Some(Decoded(raw))
  {
    if !isNumber(Decoded(raw)) {
      DequoteQuoted(Decoded(raw), '\'');
    }
  }

  /** Conditions of token lists concatenate. */
  lemma ConditionsInTokensConcat(a: seq<string>, b: seq<string>, isNumber: string -> bool)
    ensures ConditionsInTokens(a + b, isNumber) == ConditionsInTokens(a, isNumber) + ConditionsInTokens(b, isNumber)
  {
    ConcatMapConcat(part => TokenConditions(part, isNumber), a, b);
  }

  /** One more token adds its own condition, if any, at the end. */
  lemma TokensSnoc(parts: seq<string>, part: string, isNumber: string -> bool)
    ensures ConditionsInTokens(parts + [part], isNumber) == ConditionsInTokens(parts, isNumber) + TokenConditions(part, isNumber)
  {
    ConcatMapSnoc(p => TokenConditions(p, isNumber), parts, part);
  }

  /** One more segment adds its own conditions at the end. */
  lemma SegmentsSnoc(segments: seq<string>, segment: string, isNumber: string -> bool)
    ensures ConditionsInSegments(segments + [segment], isNumber)
            == ConditionsInSegments(segments, isNumber) + SegmentConditions(segment, isNumber)
  {
    ConcatMapSnoc(s => SegmentConditions(s, isNumber), segments, segment);
  }

  /** Each token contributes its own condition, if any, at its place. */
  lemma ConditionContribution(pre: seq<string>, part: string, post: seq<string>, isNumber: string -> bool)
    ensures ConditionsInTokens(pre + [part] + post, isNumber)
            == ConditionsInTokens(pre, isNumber) + TokenConditions(part, isNumber) + ConditionsInTokens(post, isNumber)
  {
    TokensSnoc(pre, part, isNumber);
    ConditionsInTokensConcat(pre + [part], post, isNumber);
  }

  /** A token without `!=` can be deleted without changing the conditions. */
  lemma {:induction false} ConditionFreeToken(pre: seq<string>, part: string, post: seq<string>, isNumber: string -> bool)
    requires !Contains(part, "!=")
    ensures ConditionsInTokens(pre + [part] + post, isNumber) == ConditionsInTokens(pre + post, isNumber)
  {
    ConditionContribution(pre, part, post, isNumber);
    NoConditionWithout(part, isNumber);
    ConditionsInTokensConcat(pre, post, isNumber);
    assert ConditionsInTokens(pre, isNumber) + [] == ConditionsInTokens(pre, isNumber);
  }

  /** Every condition the path states has the form `col != val`. */
  lemma ConditionsForm(segments: seq<string>, isNumber: string -> bool)
    ensures forall c :: c in ConditionsInSegments(segments, isNumber) ==>
      exists col, val :: c == col + " != " + val
  {
    forall c | c in ConditionsInSegments(segments, isNumber)
      ensures exists col, val :: c == col + " != " + val
    {
      ConcatMapMember(segment => SegmentConditions(segment, isNumber), segments, c);
      var i :| 0 <= i < |segments| && c in SegmentConditions(segments[i], isNumber);
      TokensForm(Split(segments[i], ","), isNumber);
    }
  }

  lemma TokensForm(parts: seq<string>, isNumber: string -> bool)
    ensures forall c :: c in ConditionsInTokens(parts, isNumber) ==>
      exists col, val :: c == col + " != " + val
  {
    forall c | c in ConditionsInTokens(parts, isNumber)
      ensures exists col, val :: c == col + " != " + val
    {
      ConcatMapMember(part => TokenConditions(part, isNumber), parts, c);
    }
  }

  /** A column path of one segment states the conditions of its tokens. */
  lemma SingleSegmentConditions(cp: string, isNumber: string -> bool)
    requires cp != "" && '/' !in cp
    ensures PathConditions(cp, isNumber) == Join(ConditionsInTokens(Split(cp, ","), isNumber), " AND ")
  {
    SingleSegment(cp);
    SegmentsSnoc([], cp, isNumber);
    assert [] + [cp] == [cp];
    assert ConditionsInSegments([], isNumber) == [];
    assert ConditionsInSegments([cp], isNumber) == SegmentConditions(cp, isNumber);
  }
}

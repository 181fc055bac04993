/** The lookup `url.ParseQuery(query).Get(key)` that the notation engine uses
    for its query parameters, following Go's parseQuery: the query is cut at
    every `&`; a piece that is empty or contains `;` is dropped; the rest of a
    piece is cut at its first `=` into key and value; a piece whose key or
    value does not decode is dropped; Get gives the first value stored under
    the key, or "" when there is none. */
module QueryValues {
  import opened Wrappers
  import opened GoStrings
  import opened FormEncoding

  /** strings.Cut at the first `=`: the key and the value of one piece. */
  function CutPair(piece: string): (kv: (string, string))
    ensures Index(piece, "=") == -1 ==> kv == (piece, "")
    ensures Index(piece, "=") != -1 ==> kv.0 + "=" + kv.1 == piece && '=' !in kv.0
  {
    var m := Index(piece, "=");
    if m == -1 then (piece, "")
    else
      assert piece == piece[..m] + piece[m..m + 1] + piece[m + 1..];
      IndexOfChar(piece, '=');
      (piece[..m], piece[m + 1..])
  }

  /** The decoded (key, value) pair of one piece, when parseQuery keeps it. */
  function PairOf(piece: string): (r: Option<(string, string)>)
  {
    if piece == "" || Contains(piece, ";") then None
    else
      var (k, v) := CutPair(piece);
      match (QueryUnescape(k), QueryUnescape(v))
      case (Some(dk), Some(dv)) => Some((dk, dv))
      case _ => None
  }

  /** The first value stored under `key` by the pieces, in order. */
  function FirstValue(pieces: seq<string>, key: string): (r: Option<string>)
    ensures r.Some? ==> exists i :: 0 <= i < |pieces| && PairOf(pieces[i]) == Some((key, r.value))
    ensures r.None? ==> forall i :: 0 <= i < |pieces| ==> PairOf(pieces[i]).None? || PairOf(pieces[i]).value.0 != key
  {
    if pieces == [] then None
    else match PairOf(pieces[0])
      case Some((k, v)) =>
        if k == key then Some(v) else
          var r := FirstValue(pieces[1..], key);
          assert forall i :: 0 <= i < |pieces| - 1 ==> pieces[1..][i] == pieces[i + 1];
          r
      case None =>
        var r := FirstValue(pieces[1..], key);
        assert forall i :: 0 <= i < |pieces| - 1 ==> pieces[1..][i] == pieces[i + 1];
        r
  }

  /** url.ParseQuery(query).Get(key). */
  function Get(query: string, key: string): string {
    FirstValue(Split(query, "&"), key).GetOr("")
  }

  /** The empty query holds no parameter. */
  lemma GetEmpty(key: string)
    ensures Get("", key) == ""
  {
    SplitAbsent("", "&");
  }

  /** The first piece that decodes to `key` decides the value. */
  lemma GetFirst(piece: string, rest: string, key: string, value: string)
    requires '&' !in piece && PairOf(piece) == Some((key, value))
    ensures Get(piece + "&" + rest, key) == value
  {
    SplitCons(piece, "&", rest);
  }

  /** A piece that does not decode to `key` is passed over. */
  lemma GetSkip(piece: string, rest: string, key: string)
    requires '&' !in piece && (PairOf(piece).None? || PairOf(piece).value.0 != key)
    ensures Get(piece + "&" + rest, key) == Get(rest, key)
  {
    SplitCons(piece, "&", rest);
    assert ([piece] + Split(rest, "&"))[1..] == Split(rest, "&");
  }

  /** A query of a single piece. */
  lemma GetSingle(piece: string, key: string)
    requires '&' !in piece
    ensures Get(piece, key) == if PairOf(piece).Some? && PairOf(piece).value.0 == key then PairOf(piece).value.1 else ""
  {
    SplitAbsent(piece, "&");
    assert [piece][1..] == [];
  }

  /** The value of a plain `key=value` piece, with nothing to decode. */
  lemma PlainPair(key: string, value: string)
    requires key != [] && '=' !in key && ';' !in key && ';' !in value
    requires '%' !in key && '+' !in key && '%' !in value && '+' !in value
    ensures PairOf(key + "=" + value) == Some((key, value))
  {
    var piece := key + "=" + value;
    IndexOfConcat(key, "=", value);
    assert piece[..|key|] == key && piece[|key| + 1..] == value;
    assert ';' !in piece;
    IndexAbsent(piece, ";");
    UnescapePlain(key);
    UnescapePlain(value);
  }

  /** Writing one parameter with url.QueryEscape and reading it back with Get
      gives the value. */
  lemma GetEscapedPair(key: string, value: string)
    requires IsByteString(key) && IsByteString(value) && key != []
    ensures Get(QueryEscape(key) + "=" + QueryEscape(value), key) == value
  {
    var k := QueryEscape(key);
    var v := QueryEscape(value);
    var piece := k + "=" + v;
    EscapedHasNoDelimiters(key);
    EscapedHasNoDelimiters(value);
    UnescapeEscape(key);
    UnescapeEscape(value);
    IndexOfConcat(k, "=", v);
    assert piece[..|k|] == k && piece[|k| + 1..] == v;
    assert ';' !in piece && '&' !in piece;
    IndexAbsent(piece, ";");
    GetSingle(piece, key);
  }
}

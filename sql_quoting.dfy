/** SQL quoting as the engine writes it: a quote character, the text with
    every embedded quote character doubled, and a closing quote. Delimited
    identifiers use `"` and string literals use `'`. The reader below is the
    SQL lexer's view of such a token; it is the partner that shows the
    quoting loses nothing. */
module SqlQuoting {
  import opened Wrappers
  import opened GoStrings

  /** The quoted token for `s`: `q`, strings.ReplaceAll(s, q, q q), `q`. */
  function Quoted(s: string, q: char): string {
    [q] + ReplaceAll(s, [q], [q, q]) + [q]
  }

  /** Read a quoted token after its opening quote: a doubled quote stands for
      one quote, a lone quote must close the token at its very end. */
  function ReadQuoted(t: string, q: char): (r: Option<string>)
    decreases |t|
  {
    if t == [] then None
    else if t[0] == q then
      if |t| == 1 then Some([])
      else if t[1] == q then
        match ReadQuoted(t[2..], q)
        case None => None
        case Some(b) => Some([q] + b)
      else None
    else
      match ReadQuoted(t[1..], q)
      case None => None
      case Some(b) => Some([t[0]] + b)
  }

  /** The text a quoted token stands for, or None if `t` is not one. */
  function Dequote(t: string, q: char): Option<string> {
    if |t| > 0 && t[0] == q then ReadQuoted(t[1..], q) else None
  }

  /** `x` put in front of the text read, if any. */
  function Prepend(x: string, r: Option<string>): Option<string> {
    match r
    case None => None
    case Some(b) => Some(x + b)
  }

  lemma {:induction false} ReadPlainPrefix(x: string, tail: string, q: char)
    requires q !in x
    ensures ReadQuoted(x + tail, q) == Prepend(x, ReadQuoted(tail, q))
    decreases |x|
  {
    if x == [] {
      assert x + tail == tail;
      match ReadQuoted(tail, q)
      case None =>
      case Some(b) => assert x + b == b;
    } else {
      assert (x + tail)[1..] == x[1..] + tail;
      assert x[0] in x;
      ReadPlainPrefix(x[1..], tail, q);
      match ReadQuoted(tail, q)
      case None =>
      case Some(b) => assert [x[0]] + (x[1..] + b) == x + b;
    }
  }

  lemma ReadEscapedQuote(body: string, q: char)
    ensures ReadQuoted([q, q] + body, q) == Prepend([q], ReadQuoted(body, q))
  {
    assert ([q, q] + body)[2..] == body;
  }

  lemma {:induction false} ReadDoubled(s: string, q: char)
    ensures ReadQuoted(ReplaceAll(s, [q], [q, q]) + [q], q) == Some(s)
    decreases |s|
  {
    var m := Index(s, [q]);
    if m == -1 {
      assert ReplaceAll(s, [q], [q, q]) == s;
      assert q !in s by { IndexOfChar(s, q); }
      ReadClosing(s, q);
    } else {
      var x, rest := s[..m], s[m + 1..];
      var body := ReplaceAll(rest, [q], [q, q]);
      assert q !in x by { IndexOfChar(s, q); }
      ReplaceAllStep(s, [q], [q, q]);
      ReadDoubled(rest, q);
      ReadAfterPlain(x, rest, body, q);
    }
  }

  /** Text without quotes and a closing quote read as the text. */
  lemma ReadClosing(s: string, q: char)
    requires q !in s
    ensures ReadQuoted(s + [q], q) == Some(s)
  {
    ReadPlainPrefix(s, [q], q);
    assert ReadQuoted([q], q) == Some([]);
    assert s + [] == s;
  }

  /** Text without quotes, then a doubled quote, then a token that reads as
      `rest`, reads as the text, one quote and `rest`. */
  lemma ReadAfterPlain(x: string, rest: string, body: string, q: char)
    requires q !in x && ReadQuoted(body + [q], q) == Some(rest)
    ensures ReadQuoted(x + [q, q] + body + [q], q) == Some(x + [q] + rest)
  {
    ReadEscapedQuote(body + [q], q);
    ReadPlainPrefix(x, [q, q] + (body + [q]), q);
    assert x + [q, q] + body + [q] == x + ([q, q] + (body + [q]));
    assert x + [q] + rest == x + ([q] + rest);
  }

  /** Reading back a quoted token gives the original text. */
  lemma DequoteQuoted(s: string, q: char)
    ensures Dequote(Quoted(s, q), q) == Some(s)
  {
    assert Quoted(s, q)[1..] == ReplaceAll(s, [q], [q, q]) + [q];
    ReadDoubled(s, q);
  }

  /** Text without the quote character is quoted as it is. */
  lemma QuotedPlain(s: string, q: char)
    requires q !in s
    ensures Quoted(s, q) == [q] + s + [q]
  {
    ReplaceAllAbsent(s, [q], [q, q]);
  }
}

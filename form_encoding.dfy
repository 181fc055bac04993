/** application/x-www-form-urlencoded percent-decoding as Go's
    url.QueryUnescape does it (section 5.1 of the WHATWG URL Standard), and
    url.QueryEscape as its partner. Each character stands for one byte. */
module FormEncoding {
  import opened Wrappers

  predicate IsHex(c: char) {
    ('0' <= c <= '9') || ('a' <= c <= 'f') || ('A' <= c <= 'F')
  }

  function HexValue(c: char): (v: nat)
    requires IsHex(c)
    ensures v < 16
  {
    if '0' <= c <= '9' then c as int - '0' as int
    else if 'a' <= c <= 'f' then c as int - 'a' as int + 10
    else c as int - 'A' as int + 10
  }

  /** The upper-case hexadecimal digit for `v`, as url.QueryEscape writes it. */
  function HexDigit(v: nat): (c: char)
    requires v < 16
    ensures IsHex(c) && HexValue(c) == v
  {
    if v < 10 then ('0' as int + v) as char else ('A' as int + v - 10) as char
  }

  /** url.QueryUnescape: `+` becomes a space, `%XX` becomes the byte XX, and a
      `%` not followed by two hexadecimal digits is an error. */
  function QueryUnescape(s: string): (r: Option<string>)
    decreases |s|
  {
    if s == [] then Some([])
    else if s[0] == '%' then
      if |s| < 3 || !IsHex(s[1]) || !IsHex(s[2]) then None
      else match QueryUnescape(s[3..])
        case None => None
        case Some(t) => Some([(HexValue(s[1]) * 16 + HexValue(s[2])) as char] + t)
    else
      match QueryUnescape(s[1..])
      case None => None
      case Some(t) => Some([if s[0] == '+' then ' ' else s[0]] + t)
  }

  /** Every `%` in `s` starts a complete escape. */
  predicate WellEscaped(s: string) {
    forall i :: 0 <= i < |s| && s[i] == '%' ==> i + 2 < |s| && IsHex(s[i + 1]) && IsHex(s[i + 2])
  }

  /** Decoding fails exactly when some `%` is not followed by two hexadecimal
      digits. */
  lemma {:induction false} UnescapeSucceedsIff(s: string)
    ensures QueryUnescape(s).Some? <==> WellEscaped(s)
    decreases |s|
  {
    if s == [] {
    } else if s[0] == '%' {
      if |s| < 3 || !IsHex(s[1]) || !IsHex(s[2]) {
        assert !WellEscaped(s);
      } else {
        var t := s[3..];
        UnescapeSucceedsIff(t);
        if WellEscaped(s) {
          forall i | 0 <= i < |t| && t[i] == '%'
            ensures i + 2 < |t| && IsHex(t[i + 1]) && IsHex(t[i + 2])
          {
            assert s[i + 3] == t[i];
          }
        }
        if WellEscaped(t) {
          forall i | 0 <= i < |s| && s[i] == '%'
            ensures i + 2 < |s| && IsHex(s[i + 1]) && IsHex(s[i + 2])
          {
            if i >= 3 {
              assert t[i - 3] == s[i];
            }
          }
        }
      }
    } else {
      var t := s[1..];
      UnescapeSucceedsIff(t);
      if WellEscaped(s) {
        forall i | 0 <= i < |t| && t[i] == '%'
          ensures i + 2 < |t| && IsHex(t[i + 1]) && IsHex(t[i + 2])
        {
          assert s[i + 1] == t[i];
        }
      }
      if WellEscaped(t) {
        forall i | 0 <= i < |s| && s[i] == '%'
          ensures i + 2 < |s| && IsHex(s[i + 1]) && IsHex(s[i + 2])
        {
          assert t[i - 1] == s[i];
        }
      }
    }
  }

  /** A string with no `%` and no `+` decodes to itself. */
  lemma {:induction false} UnescapePlain(s: string)
    requires '%' !in s && '+' !in s
    ensures QueryUnescape(s) == Some(s)
    decreases |s|
  {
    if s != [] {
      assert s[0] in s;
      assert forall c :: c in s[1..] ==> c in s;
      UnescapePlain(s[1..]);
      assert s == [s[0]] + s[1..];
    }
  }

  /** The characters url.QueryEscape leaves as they are. */
  predicate IsUnreserved(c: char) {
    ('a' <= c <= 'z') || ('A' <= c <= 'Z') || ('0' <= c <= '9') || c == '-' || c == '_' || c == '.' || c == '~'
  }

  /** The encoding of one byte by url.QueryEscape. */
  function EscapeByte(c: char): (r: string)
    requires c as int < 256
  {
    if IsUnreserved(c) then [c]
    else if c == ' ' then "+"
    else ['%', HexDigit(c as int / 16), HexDigit(c as int % 16)]
  }

  predicate IsByteString(s: string) {
    forall i :: 0 <= i < |s| ==> s[i] as int < 256
  }

  /** url.QueryEscape. */
  function QueryEscape(s: string): (r: string)
    requires IsByteString(s)
    decreases |s|
  {
    if s == [] then [] else EscapeByte(s[0]) + QueryEscape(s[1..])
  }

  /** What QueryEscape writes contains no query delimiter. */
  lemma {:induction false} EscapedHasNoDelimiters(s: string)
    requires IsByteString(s)
    ensures '&' !in QueryEscape(s) && '=' !in QueryEscape(s) && ';' !in QueryEscape(s)
    decreases |s|
  {
    if s != [] {
      EscapedHasNoDelimiters(s[1..]);
    }
  }

  /** Decoding undoes QueryEscape. */
  lemma {:induction false} UnescapeEscape(s: string)
    requires IsByteString(s)
    ensures QueryUnescape(QueryEscape(s)) == Some(s)
    decreases |s|
  {
    if s != [] {
      var c := s[0];
      var rest := QueryEscape(s[1..]);
      UnescapeEscape(s[1..]);
      var e := EscapeByte(c) + rest;
      assert s == [c] + s[1..];
      if IsUnreserved(c) || c == ' ' {
        assert e[0] != '%' && e[1..] == rest;
        assert [if e[0] == '+' then ' ' else e[0]] == [c];
      } else {
        assert e[0] == '%' && e[3..] == rest;
        assert (HexValue(e[1]) * 16 + HexValue(e[2])) as char == c;
      }
    }
  }

  /** The value after tolerant decoding: percent-decoded when that succeeds,
      the raw text otherwise. */
  function Decoded(raw: string): string {
    match QueryUnescape(raw)
    case Some(d) => d
    case None => raw
  }

  /** Tolerant decoding: a value with no `%` and no `+` is kept as it is, and
      one whose decoding fails is kept raw. */
  lemma DecodedMeaning(raw: string)
    ensures '%' !in raw && '+' !in raw ==> Decoded(raw) == raw
    ensures QueryUnescape(raw).None? ==> Decoded(raw) == raw
    ensures QueryUnescape(raw).Some? ==> Decoded(raw) == QueryUnescape(raw).value
  {
    if '%' !in raw && '+' !in raw {
      UnescapePlain(raw);
    }
  }
}

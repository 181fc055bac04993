/** The byte-string helpers of Go's `strings` package that the notation engine
    uses, written over Dafny strings. A character of a model string stands for
    one byte of the Go string, so searching, splitting and joining behave
    exactly as Go's byte-wise helpers do. */
module GoStrings {

  /** `sub` occurs in `s` starting at position `i`. */
  predicate OccursAt(s: string, sub: string, i: int) {
    0 <= i && i + |sub| <= |s| && s[i..i + |sub|] == sub
  }

  /** Search for `sub` at positions `from`, `from + 1`, ... of `s`. */
  function IndexFrom(s: string, sub: string, from: nat): (r: int)
    ensures r == -1 || (from <= r && OccursAt(s, sub, r))
    ensures forall i :: from <= i && (r == -1 || i < r) ==> !OccursAt(s, sub, i)
    decreases |s| - from
  {
    if from + |sub| > |s| then -1
    else if s[from..from + |sub|] == sub then from
    else IndexFrom(s, sub, from + 1)
  }

  /** strings.Index: the first position where `sub` occurs, or -1. */
  function Index(s: string, sub: string): (r: int)
    ensures r == -1 ==> forall i :: !OccursAt(s, sub, i)
    ensures r != -1 ==> OccursAt(s, sub, r) && forall i :: i < r ==> !OccursAt(s, sub, i)
  {
    IndexFrom(s, sub, 0)
  }

  /** strings.Contains. */
  predicate Contains(s: string, sub: string) {
    Index(s, sub) != -1
  }

  /** Search for `sub` at positions `k`, `k - 1`, ..., 0 of `s`. */
  function LastIndexUpTo(s: string, sub: string, k: int): (r: int)
    ensures r == -1 || (0 <= r <= k && OccursAt(s, sub, r))
    ensures forall i :: i <= k && r < i ==> !OccursAt(s, sub, i)
    decreases k + 1
  {
    if k < 0 then -1
    else if OccursAt(s, sub, k) then k
    else LastIndexUpTo(s, sub, k - 1)
  }

  /** strings.LastIndex: the last position where `sub` occurs, or -1. */
  function LastIndex(s: string, sub: string): (r: int)
    ensures r == -1 ==> forall i :: !OccursAt(s, sub, i)
    ensures r != -1 ==> OccursAt(s, sub, r) && forall i :: r < i ==> !OccursAt(s, sub, i)
  {
    LastIndexUpTo(s, sub, |s| - |sub|)
  }

  predicate HasPrefix(s: string, prefix: string) {
    |prefix| <= |s| && s[..|prefix|] == prefix
  }

  predicate HasSuffix(s: string, suffix: string) {
    |suffix| <= |s| && s[|s| - |suffix|..] == suffix
  }

  /** A text ends in whatever was appended to it. */
  lemma HasSuffixConcat(p: string, q: string)
    ensures HasSuffix(p + q, q)
  {
    assert (p + q)[|p|..] == q;
  }

  /** strings.TrimPrefix. */
  function TrimPrefix(s: string, prefix: string): (r: string)
    ensures HasPrefix(s, prefix) ==> prefix + r == s
    ensures !HasPrefix(s, prefix) ==> r == s
  {
    if HasPrefix(s, prefix) then s[|prefix|..] else s
  }

  /** strings.Split for a non-empty separator: the pieces between the
      non-overlapping occurrences of `sep`, found left to right. */
  function Split(s: string, sep: string): (parts: seq<string>)
    requires |sep| > 0
    ensures |parts| >= 1
    decreases |s|
  {
    var m := Index(s, sep);
    if m == -1 then [s] else [s[..m]] + Split(s[m + |sep|..], sep)
  }

  /** strings.SplitN for a non-empty separator and n >= 1: like Split, but the
      last of at most n pieces keeps the rest of the string. */
  function SplitN(s: string, sep: string, n: nat): (parts: seq<string>)
    requires |sep| > 0 && n >= 1
    ensures 1 <= |parts| <= n
    decreases n
  {
    var m := Index(s, sep);
    if n == 1 || m == -1 then [s] else [s[..m]] + SplitN(s[m + |sep|..], sep, n - 1)
  }

  /** strings.Join. */
  function Join(parts: seq<string>, sep: string): string {
    if |parts| == 0 then ""
    else if |parts| == 1 then parts[0]
    else parts[0] + sep + Join(parts[1..], sep)
  }

  /** strings.Replace(s, old, new, 1): the first occurrence only. */
  function ReplaceFirst(s: string, pat: string, rep: string): (r: string)
    requires |pat| > 0
  {
    var m := Index(s, pat);
    if m == -1 then s else s[..m] + rep + s[m + |pat|..]
  }

  /** strings.ReplaceAll for a non-empty pattern. */
  function ReplaceAll(s: string, pat: string, rep: string): (r: string)
    requires |pat| > 0
    decreases |s|
  {
    var m := Index(s, pat);
    if m == -1 then s else s[..m] + rep + ReplaceAll(s[m + |pat|..], pat, rep)
  }

  /** The ASCII white space that strings.TrimSpace removes. */
  predicate IsSpace(c: char) {
    c == ' ' || c == '\t' || c == '\n' || c == '\r' || c == '\U{000B}' || c == '\U{000C}'
  }

  function TrimLeftSpace(s: string): (r: string)
    ensures |r| <= |s|
  {
    if |s| > 0 && IsSpace(s[0]) then TrimLeftSpace(s[1..]) else s
  }

  function TrimRightSpace(s: string): (r: string)
    ensures |r| <= |s|
  {
    if |s| > 0 && IsSpace(s[|s| - 1]) then TrimRightSpace(s[..|s| - 1]) else s
  }

  /** strings.TrimSpace over ASCII white space. */
  function TrimSpace(s: string): (r: string)
  {
    TrimRightSpace(TrimLeftSpace(s))
  }

  function TrimLeftChar(s: string, c: char): (r: string)
    ensures |r| <= |s| && r == s[|s| - |r|..]
    ensures r == [] || r[0] != c
  {
    if |s| > 0 && s[0] == c then TrimLeftChar(s[1..], c) else s
  }

  function TrimRightChar(s: string, c: char): (r: string)
    ensures |r| <= |s| && r == s[..|r|]
    ensures r == [] || r[|r| - 1] != c
  {
    if |s| > 0 && s[|s| - 1] == c then TrimRightChar(s[..|s| - 1], c) else s
  }

  /** strings.Trim(s, cutset) for a one-character cutset. */
  function TrimChar(s: string, c: char): (r: string)
  {
    TrimRightChar(TrimLeftChar(s, c), c)
  }

  function AsciiLowerChar(c: char): char {
    if 'A' <= c <= 'Z' then (c as int + 32) as char else c
  }

  /** Lower-casing of ASCII letters only, character by character. */
  function AsciiLower(s: string): (r: string)
    ensures |r| == |s|
    ensures forall i :: 0 <= i < |s| ==> r[i] == AsciiLowerChar(s[i])
  {
    seq(|s|, i requires 0 <= i < |s| => AsciiLowerChar(s[i]))
  }

  /** strings.ToLower on the bytes of a Go string, as far as the ASCII text of
      its result goes: ASCII capitals are lowered, and so are the two capitals
      outside ASCII whose lower case is an ASCII letter, U+0130 (the bytes
      C4 B0, lowered to `i`) and U+212A (the bytes E2 84 AA, lowered to `k`).
      Every other byte is kept as it is. */
  function GoLower(s: string): (r: string)
    ensures |r| <= |s|
    decreases |s|
  {
    if s == [] then []
    else if |s| >= 2 && s[0] == '\U{C4}' && s[1] == '\U{B0}' then ['i'] + GoLower(s[2..])
    else if |s| >= 3 && s[0] == '\U{E2}' && s[1] == '\U{84}' && s[2] == '\U{AA}' then ['k'] + GoLower(s[3..])
    else [AsciiLowerChar(s[0])] + GoLower(s[1..])
  }

  /** Every character is ASCII. */
  predicate IsAscii(s: string)
    decreases |s|
  {
    s == [] || (s[0] < '\U{80}' && IsAscii(s[1..]))
  }

  /** On ASCII text, strings.ToLower lowers the letters and nothing else. */
  lemma GoLowerAscii(s: string)
    requires IsAscii(s)
    ensures GoLower(s) == AsciiLower(s)
  {
    GoLowerAsciiPrefix(s, "", s);
  }

  /** An ASCII prefix lowers on its own, whatever follows it. */
  lemma {:induction false} GoLowerAsciiPrefix(a: string, s: string, t: string)
    requires IsAscii(a) && t == a + s
    ensures GoLower(t) == AsciiLower(a) + GoLower(s)
    decreases |a|
  {
    if a == [] {
      assert t == s;
    } else {
      TailSplit(a, s, t);
      GoLowerAsciiPrefix(a[1..], s, t[1..]);
      GoLowerTail(t);
      AsciiLowerTail(a);
      Assoc([AsciiLowerChar(a[0])], AsciiLower(a[1..]), GoLower(s));
    }
  }

  /** Appending to a non-empty text keeps its first character. */
  lemma TailSplit(a: string, s: string, t: string)
    requires a != [] && t == a + s
    ensures t != [] && t[0] == a[0] && t[1..] == a[1..] + s
  {
  }

  /** A text whose first character is neither of the two lead bytes of those
      capitals lowers that character on its own. */
  lemma GoLowerTail(t: string)
    requires t != [] && t[0] != '\U{C4}' && t[0] != '\U{E2}'
    ensures GoLower(t) == [AsciiLowerChar(t[0])] + GoLower(t[1..])
  {
  }

  /** ASCII lowering works one character at a time. */
  lemma AsciiLowerTail(a: string)
    requires a != []
    ensures AsciiLower(a) == [AsciiLowerChar(a[0])] + AsciiLower(a[1..])
  {
  }

  /** Concatenation is associative. */
  lemma Assoc(x: string, y: string, z: string)
    ensures x + (y + z) == (x + y) + z
  {
  }

  /** The dotted capital I, U+0130, lowers to the ASCII letter `i`. */
  lemma GoLowerDottedI(s: string)
    ensures GoLower("\U{C4}\U{B0}" + s) == "i" + GoLower(s)
  {
    var t := "\U{C4}\U{B0}" + s;
    assert t[2..] == s;
  }

  // ---------------------------------------------------------------------
  // Searching

  /** No occurrence of `sub` can start before the first position of its
      first character. */
  lemma NoOccurrenceBefore(s: string, sub: string, k: int)
    requires |sub| > 0 && 0 <= k <= |s| && sub[0] !in s[..k]
    ensures forall i :: i < k ==> !OccursAt(s, sub, i)
  {
    forall i | i < k ensures !OccursAt(s, sub, i) {
      if 0 <= i && i + |sub| <= |s| {
        assert s[i..i + |sub|][0] == s[i] == s[..k][i];
      }
    }
  }

  /** The first occurrence of `sub` in `a + sub + b` is right after `a` when
      `a` does not contain the first character of `sub`. */
  lemma IndexOfConcat(a: string, sub: string, b: string)
    requires |sub| > 0 && sub[0] !in a
    ensures Index(a + sub + b, sub) == |a|
  {
    var s := a + sub + b;
    assert s[..|a|] == a;
    assert s[|a|..|a| + |sub|] == sub;
    assert OccursAt(s, sub, |a|);
    NoOccurrenceBefore(s, sub, |a|);
  }

  /** A string without the first character of `sub` does not contain `sub`. */
  lemma IndexAbsent(s: string, sub: string)
    requires |sub| > 0 && sub[0] !in s
    ensures Index(s, sub) == -1
  {
    assert s[..|s|] == s;
    NoOccurrenceBefore(s, sub, |s|);
  }

  lemma ContainsChar(s: string, c: char)
    ensures Contains(s, [c]) <==> c in s
  {
    if c in s {
      var i :| 0 <= i < |s| && s[i] == c;
      assert s[i..i + 1] == [c];
      assert OccursAt(s, [c], i);
    } else {
      IndexAbsent(s, [c]);
    }
  }

  /** For a one-character pattern, Index is the first position of the
      character. */
  lemma IndexOfChar(s: string, c: char)
    ensures Index(s, [c]) == -1 ==> c !in s
    ensures Index(s, [c]) != -1 ==> s[Index(s, [c])] == c && c !in s[..Index(s, [c])]
  {
    var m := Index(s, [c]);
    ContainsChar(s, c);
    if m != -1 {
      assert s[m..m + 1] == [c];
      forall i | 0 <= i < m ensures s[..m][i] != c {
        if s[i] == c {
          assert s[i..i + 1] == [c];
          assert OccursAt(s, [c], i);
        }
      }
    }
  }

  /** The last occurrence of `sub` in `a + sub + b` is right after `a` when
      `b` does not contain the last character of `sub`. */
  lemma LastIndexOfConcat(a: string, sub: string, b: string)
    requires |sub| > 0 && sub[|sub| - 1] !in b
    ensures LastIndex(a + sub + b, sub) == |a|
  {
    var s := a + sub + b;
    assert s[|a|..|a| + |sub|] == sub;
    assert OccursAt(s, sub, |a|);
    forall i | |a| < i ensures !OccursAt(s, sub, i) {
      if i + |sub| <= |s| {
        var j := i + |sub| - 1;
        assert s[i..i + |sub|][|sub| - 1] == s[j] == b[j - |a| - |sub|];
      }
    }
  }

  // ---------------------------------------------------------------------
  // Splitting and joining

  lemma SplitAbsent(s: string, sep: string)
    requires |sep| > 0 && sep[0] !in s
    ensures Split(s, sep) == [s]
  {
    IndexAbsent(s, sep);
  }

  lemma SplitCons(a: string, sep: string, b: string)
    requires |sep| > 0 && sep[0] !in a
    ensures Split(a + sep + b, sep) == [a] + Split(b, sep)
  {
    var s := a + sep + b;
    IndexOfConcat(a, sep, b);
    assert s[..|a|] == a;
    assert s[|a| + |sep|..] == b;
  }

  lemma SplitNAbsent(s: string, sep: string, n: nat)
    requires |sep| > 0 && n >= 1 && sep[0] !in s
    ensures SplitN(s, sep, n) == [s]
  {
    IndexAbsent(s, sep);
  }

  lemma SplitNCons(a: string, sep: string, b: string, n: nat)
    requires |sep| > 0 && n >= 2 && sep[0] !in a
    ensures SplitN(a + sep + b, sep, n) == [a] + SplitN(b, sep, n - 1)
  {
    var s := a + sep + b;
    IndexOfConcat(a, sep, b);
    assert s[..|a|] == a;
    assert s[|a| + |sep|..] == b;
  }

  /** A string cut around an occurrence of `sub`. */
  lemma CutAround(s: string, sub: string, m: int)
    requires OccursAt(s, sub, m)
    ensures s == s[..m] + sub + s[m + |sub|..]
  {
    assert s == s[..m] + s[m..m + |sub|] + s[m + |sub|..];
  }

  /** Joining a piece in front of at least one more piece. */
  lemma JoinCons(x: string, tail: seq<string>, sep: string)
    requires |tail| >= 1
    ensures Join([x] + tail, sep) == x + sep + Join(tail, sep)
  {
    assert ([x] + tail)[1..] == tail;
  }

  /** One step of a split at the first occurrence of the separator. */
  lemma SplitStep(s: string, sep: string)
    requires |sep| > 0 && Index(s, sep) != -1
    ensures var m := Index(s, sep);
      Split(s, sep) == [s[..m]] + Split(s[m + |sep|..], sep)
      && s == s[..m] + sep + s[m + |sep|..]
  {
    CutAround(s, sep, Index(s, sep));
  }

  /** One step of ReplaceAll at the first occurrence of the pattern. */
  lemma ReplaceAllStep(s: string, pat: string, rep: string)
    requires |pat| > 0 && Index(s, pat) != -1
    ensures var m := Index(s, pat);
      ReplaceAll(s, pat, rep) == s[..m] + rep + ReplaceAll(s[m + |pat|..], pat, rep)
      && s == s[..m] + pat + s[m + |pat|..]
  {
    CutAround(s, pat, Index(s, pat));
  }

  /** One step of a bounded split at the first occurrence of the separator. */
  lemma SplitNStep(s: string, sep: string, n: nat)
    requires |sep| > 0 && n > 1 && Index(s, sep) != -1
    ensures var m := Index(s, sep);
      SplitN(s, sep, n) == [s[..m]] + SplitN(s[m + |sep|..], sep, n - 1)
      && s == s[..m] + sep + s[m + |sep|..]
  {
    CutAround(s, sep, Index(s, sep));
  }

  /** Joining the pieces of a split with the same separator gives back the
      string. */
  lemma {:induction false} JoinSplit(s: string, sep: string)
    requires |sep| > 0
    ensures Join(Split(s, sep), sep) == s
    decreases |s|
  {
    var m := Index(s, sep);
    if m != -1 {
      var rest := s[m + |sep|..];
      SplitStep(s, sep);
      JoinSplit(rest, sep);
      JoinCons(s[..m], Split(rest, sep), sep);
    }
  }

  lemma {:induction false} JoinSplitN(s: string, sep: string, n: nat)
    requires |sep| > 0 && n >= 1
    ensures Join(SplitN(s, sep, n), sep) == s
    decreases n
  {
    var m := Index(s, sep);
    if n > 1 && m != -1 {
      var rest := s[m + |sep|..];
      SplitNStep(s, sep, n);
      JoinSplitN(rest, sep, n - 1);
      JoinCons(s[..m], SplitN(rest, sep, n - 1), sep);
    }
  }

  /** No piece of a split contains the separator. */
  lemma {:induction false} SplitPiecesFree(s: string, sep: string)
    requires |sep| > 0
    ensures forall p :: p in Split(s, sep) ==> !Contains(p, sep)
    decreases |s|
  {
    var m := Index(s, sep);
    if m != -1 {
      var rest := s[m + |sep|..];
      SplitStep(s, sep);
      SplitPiecesFree(rest, sep);
      HeadFree(s, sep, m);
      assert forall p :: p in Split(s, sep) ==> p == s[..m] || p in Split(rest, sep);
    }
  }

  /** The text before the first occurrence holds no occurrence. */
  lemma HeadFree(s: string, sep: string, m: int)
    requires |sep| > 0 && m == Index(s, sep) && m != -1
    ensures !Contains(s[..m], sep)
  {
    var head := s[..m];
    forall i | OccursAt(head, sep, i) ensures false {
      assert head[i..i + |sep|] == s[i..i + |sep|];
      assert OccursAt(s, sep, i);
    }
  }

  /** The head and tail of a sequence with an element in its middle. */
  lemma ConsMiddle<T>(pre: seq<T>, x: T, post: seq<T>)
    requires pre != []
    ensures (pre + [x] + post)[0] == pre[0] && (pre + [x] + post)[1..] == pre[1..] + [x] + post
  {
  }

  /** The first piece of a split is a prefix of the string, followed by the
      separator unless it is the whole string. */
  lemma FirstPiece(s: string, sep: string)
    requires |sep| > 0
    ensures var p := Split(s, sep)[0];
      HasPrefix(s, p) && (|p| == |s| || OccursAt(s, sep, |p|))
  {
  }

  /** Trimming a character from both ends of a string that neither starts nor
      ends with it changes nothing. */
  lemma TrimCharPlain(s: string, c: char)
    requires s != [] && s[0] != c && s[|s| - 1] != c
    ensures TrimChar(s, c) == s
  {
  }

  /** Every character of a piece of a split is a character of the string. */
  lemma {:induction false} SplitPiecesChars(s: string, sep: string)
    requires |sep| > 0
    ensures forall p, c :: p in Split(s, sep) && c in p ==> c in s
    decreases |s|
  {
    var m := Index(s, sep);
    if m != -1 {
      var rest := s[m + |sep|..];
      SplitStep(s, sep);
      SplitPiecesChars(rest, sep);
      assert forall p :: p in Split(s, sep) ==> p == s[..m] || p in Split(rest, sep);
      assert forall c :: c in rest ==> c in s;
      assert forall c :: c in s[..m] ==> c in s;
    }
  }

  /** For a one-character separator, splitting undoes joining pieces that do
      not contain it. */
  lemma {:induction false} SplitJoin(parts: seq<string>, c: char)
    requires |parts| >= 1
    requires forall p :: p in parts ==> c !in p
    ensures Split(Join(parts, [c]), [c]) == parts
  {
    if |parts| == 1 {
      SplitAbsent(parts[0], [c]);
    } else {
      SplitJoin(parts[1..], c);
      SplitCons(parts[0], [c], Join(parts[1..], [c]));
    }
  }

  /** The first `k` pieces and the rest, joined, give the join of all. */
  lemma {:induction false} JoinConcat(xs: seq<string>, k: nat, sep: string)
    requires 0 < k < |xs|
    ensures Join(xs[..k], sep) + sep + Join(xs[k..], sep) == Join(xs, sep)
  {
    if k > 1 {
      JoinConcat(xs[1..], k - 1, sep);
      assert xs[1..][..k - 1] == xs[..k][1..];
      assert xs[1..][k - 1..] == xs[k..];
    } else {
      assert xs[..1] == [xs[0]];
      assert xs[1..] == xs[k..];
    }
  }

  /** A join ends with its last piece. */
  lemma {:induction false} JoinEndsWithLast(xs: seq<string>, sep: string)
    requires |xs| >= 1
    ensures HasSuffix(Join(xs, sep), xs[|xs| - 1])
  {
    if |xs| > 1 {
      JoinEndsWithLast(xs[1..], sep);
      var j := Join(xs[1..], sep);
      var last := xs[|xs| - 1];
      assert xs[1..][|xs| - 2] == last;
      assert (xs[0] + sep + j)[|xs[0] + sep + j| - |last|..] == j[|j| - |last|..];
    }
  }

  lemma JoinPair(a: string, b: string, sep: string)
    ensures Join([a, b], sep) == a + sep + b
  {
    assert [a, b][1..] == [b];
  }

  /** Joining two or more parts starts with the first two and the separator
      between them. */
  lemma JoinHead(a: string, b: string, rest: seq<string>, sep: string)
    ensures HasPrefix(Join([a, b] + rest, sep), a + sep + b)
  {
    var xs := [a, b] + rest;
    if rest == [] {
      JoinPair(a, b, sep);
      assert xs == [a, b];
    } else {
      assert xs[1..] == [b] + rest;
      assert ([b] + rest)[1..] == rest;
      assert Join(xs, sep) == a + sep + (b + sep + Join(rest, sep));
    }
  }

  lemma JoinTriple(a: string, b: string, c: string, sep: string)
    ensures Join([a, b, c], sep) == a + sep + b + sep + c
  {
    assert [a, b, c][1..] == [b, c];
    JoinPair(b, c, sep);
  }

  /** ReplaceAll is splitting on the pattern and joining with the replacement. */
  lemma {:induction false} ReplaceAllIsJoinSplit(s: string, pat: string, rep: string)
    requires |pat| > 0
    ensures ReplaceAll(s, pat, rep) == Join(Split(s, pat), rep)
    decreases |s|
  {
    var m := Index(s, pat);
    if m != -1 {
      var rest := s[m + |pat|..];
      SplitStep(s, pat);
      ReplaceAllIsJoinSplit(rest, pat, rep);
      JoinCons(s[..m], Split(rest, pat), rep);
    }
  }

  lemma ReplaceAllAbsent(s: string, pat: string, rep: string)
    requires |pat| > 0 && pat[0] !in s
    ensures ReplaceAll(s, pat, rep) == s
  {
    IndexAbsent(s, pat);
  }

  // ---------------------------------------------------------------------
  // Trimming

  /** A string with no white space at either end is left as it is. */
  lemma TrimSpaceNoop(s: string)
    requires s == [] || (!IsSpace(s[0]) && !IsSpace(s[|s| - 1]))
    ensures TrimSpace(s) == s
  {
  }

  /** Trimming the left end drops a run of white space and stops at the
      first other character. */
  lemma {:induction false} TrimLeftSpaceShape(s: string)
    ensures var r := TrimLeftSpace(s);
      r == s[|s| - |r|..]
      && (forall i :: 0 <= i < |s| - |r| ==> IsSpace(s[i]))
      && (r == [] || !IsSpace(r[0]))
    decreases |s|
  {
    if |s| > 0 && IsSpace(s[0]) {
      TrimLeftSpaceShape(s[1..]);
      var r := TrimLeftSpace(s[1..]);
      assert forall i :: 1 <= i < |s| - |r| ==> s[i] == s[1..][i - 1];
    }
  }

  /** Trimming the right end drops a run of white space and stops at the
      last other character. */
  lemma {:induction false} TrimRightSpaceShape(s: string)
    ensures var r := TrimRightSpace(s);
      r == s[..|r|]
      && (forall i :: |r| <= i < |s| ==> IsSpace(s[i]))
      && (r == [] || !IsSpace(r[|r| - 1]))
    decreases |s|
  {
    if |s| > 0 && IsSpace(s[|s| - 1]) {
      TrimRightSpaceShape(s[..|s| - 1]);
      var r := TrimRightSpace(s[..|s| - 1]);
      assert forall i :: |r| <= i < |s| - 1 ==> s[i] == s[..|s| - 1][i];
    }
  }

  /** TrimSpace removes white space from both ends and nothing else. */
  lemma TrimSpaceShape(s: string)
    ensures exists i, j :: (0 <= i <= j <= |s| && TrimSpace(s) == s[i..j]
      && (forall k :: 0 <= k < i ==> IsSpace(s[k]))
      && (forall k :: j <= k < |s| ==> IsSpace(s[k])))
    ensures TrimSpace(s) == [] || (!IsSpace(TrimSpace(s)[0]) && !IsSpace(TrimSpace(s)[|TrimSpace(s)| - 1]))
  {
    var l := TrimLeftSpace(s);
    var r := TrimRightSpace(l);
    TrimLeftSpaceShape(s);
    TrimRightSpaceShape(l);
    var i, j := |s| - |l|, |s| - |l| + |r|;
    assert r == s[i..j];
    assert forall k :: j <= k < |s| ==> IsSpace(s[k]) by {
      assert forall k :: j <= k < |s| ==> s[k] == l[k - i];
    }
    if r != [] {
      assert r[0] == l[0];
    }
  }

  lemma TrimSpaceIdempotent(s: string)
    ensures TrimSpace(TrimSpace(s)) == TrimSpace(s)
  {
    TrimSpaceShape(s);
    TrimSpaceNoop(TrimSpace(s));
  }
}

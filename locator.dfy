/** The locator normaliser (banquet.go CleanUrl), which runs before Go's
    url.Parse. */
module Locator {
  import opened GoStrings

  /** The scheme separator `://`, complete at the first `:/` of `s`, if any. */
  predicate SchemeSeparatorComplete(s: string) {
    var i := Index(s, ":/");
    i == -1 || HasPrefix(s[i..], "://")
  }

  /** CleanUrl: the root path `/` becomes `.`; otherwise one leading `/` is
      removed and a first `:/` that is not already `://` becomes `://`. */
  method CleanUrl(rawurl: string) returns (cleaned: string)
    ensures rawurl == "/" ==> cleaned == "."
    ensures rawurl != "/" ==>
      var t := TrimPrefix(rawurl, "/");
      var i := Index(t, ":/");
      && (SchemeSeparatorComplete(t) ==> cleaned == t)
      && (!SchemeSeparatorComplete(t) ==> cleaned == t[..i] + "://" + t[i + 2..])
      && Index(cleaned, ":/") == i
      && SchemeSeparatorComplete(cleaned)
  {
    if rawurl == "/" {
      return ".";
    }
    cleaned := TrimPrefix(rawurl, "/");
    var idx := Index(cleaned, ":/");
    if idx != -1 {
      if !HasPrefix(cleaned[idx..], "://") {
        RepairKeepsFirstSeparator(cleaned, idx);
        cleaned := ReplaceFirst(cleaned, ":/", "://");
      }
    }
  }

  /** Inserting the missing `/` at the first `:/` keeps that position the
      first `:/` and completes the separator there. */
  lemma RepairKeepsFirstSeparator(t: string, i: int)
    requires i == Index(t, ":/") && i != -1
    ensures ReplaceFirst(t, ":/", "://") == t[..i] + "://" + t[i + 2..]
    ensures Index(t[..i] + "://" + t[i + 2..], ":/") == i
    ensures SchemeSeparatorComplete(t[..i] + "://" + t[i + 2..])
  {
    var c := t[..i] + "://" + t[i + 2..];
    assert c[i..i + 2] == ":/";
    assert OccursAt(c, ":/", i);
    forall j | j < i ensures !OccursAt(c, ":/", j) {
      if 0 <= j && j + 2 <= |c| {
        if j + 1 < i {
          assert c[j..j + 2] == t[j..j + 2];
          assert !OccursAt(t, ":/", j);
        } else {
          assert c[j + 1] == ':';
        }
      }
    }
    assert c[i..][..3] == "://";
  }

  /** A truncated scheme separator after a leading slash is repaired:
      `/gs:/bucket` becomes `gs://bucket`. */
  method CleanSchemeTypo(scheme: string, rest: string) returns (cleaned: string)
    requires ':' !in scheme && (rest == [] || rest[0] != '/')
    ensures cleaned == scheme + "://" + rest
  {
    var t := scheme + ":/" + rest;
    var raw := "/" + t;
    assert TrimPrefix(raw, "/") == t by {
      assert raw[..1] == "/" && raw[1..] == t;
    }
    var i := |scheme|;
    assert Index(t, ":/") == i by {
      IndexOfConcat(scheme, ":/", rest);
    }
    assert !SchemeSeparatorComplete(t) by {
      if |t[i..]| >= 3 {
        assert t[i..][2] == rest[0];
      }
    }
    assert t[..i] == scheme && t[i + 2..] == rest;
    cleaned := CleanUrl(raw);
  }

  /** The cleaning step of banquet_test.go's TestCleanUrl. */
  method CleanUrlExample() returns (cleaned: string)
    ensures cleaned == "http://" + "darianhickman.com:8080" + "/some/local/path" + "/file.csv?col1,col2,col3"
  {
    var rest := "darianhickman.com:8080" + "/some/local/path" + "/file.csv?col1,col2,col3";
    assert rest[0] == 'd';
    cleaned := CleanSchemeTypo("http", rest);
  }
}

/** The tier splitter (banquet.go parseDataSetColumnPath): a decoded path
    becomes dataset path, table and column path, either at explicit `;`
    delimiters or, without any `;`, after the first `/`-segment that names a
    dataset file. */
module Tiers {
  import opened GoStrings

  datatype Tiers = Tiers(datasetPath: string, table: string, columnPath: string)

  /** A path segment that names a dataset file, by its extension; `test.html`
      itself is not one. */
  predicate IsDatasetFile(part: string) {
    || HasSuffix(part, ".zip")
    || HasSuffix(part, ".csv")
    || HasSuffix(part, ".sqlite")
    || HasSuffix(part, ".db")
    || HasSuffix(part, ".xlsx")
    || HasSuffix(part, ".json")
    || (HasSuffix(part, ".html") && part != "test.html")
    || HasSuffix(part, ".txt")
  }

  /** The first position at or after `from` of a dataset segment, or -1. */
  function FirstDatasetFrom(parts: seq<string>, from: nat): (k: int)
    ensures k == -1 || (from <= k < |parts| && IsDatasetFile(parts[k]))
    ensures forall i :: from <= i < |parts| && (k == -1 || i < k) ==> !IsDatasetFile(parts[i])
    decreases |parts| - from
  {
    if from >= |parts| then -1
    else if IsDatasetFile(parts[from]) then from
    else FirstDatasetFrom(parts, from + 1)
  }

  /** The three tiers of a path. */
  function SplitTiers(rawpath: string): Tiers {
    if Contains(rawpath, ";") then
      var parts := SplitN(rawpath, ";", 3);
      Tiers(parts[0], if |parts| > 1 then parts[1] else "", if |parts| > 2 then parts[2] else "")
    else
      var parts := Split(rawpath, "/");
      var k := FirstDatasetFrom(parts, 0);
      if k == -1 then Tiers(rawpath, "", "")
      else Tiers(Join(parts[..k + 1], "/"), "", if k + 1 < |parts| then Join(parts[k + 1..], "/") else "")
  }

  /** parseDataSetColumnPath. */
  method ParseDataSetColumnPath(rawpath: string) returns (datasetPath: string, table: string, columnPath: string)
    ensures Tiers(datasetPath, table, columnPath) == SplitTiers(rawpath)
  {
    datasetPath, table, columnPath := "", "", "";
    if Contains(rawpath, ";") {
      var parts := SplitN(rawpath, ";", 3);
      datasetPath := parts[0];
      if |parts| > 1 {
        table := parts[1];
      }
      if |parts| > 2 {
        columnPath := parts[2];
      }
      return;
    }

    var parts := Split(rawpath, "/");
    var i := 0;
    while i < |parts|
      invariant 0 <= i <= |parts|
      invariant FirstDatasetFrom(parts, 0) == FirstDatasetFrom(parts, i)
    {
      if IsDatasetFile(parts[i]) {
        datasetPath := Join(parts[..i + 1], "/");
        if i + 1 < |parts| {
          columnPath := Join(parts[i + 1..], "/");
        }
        return datasetPath, "", columnPath;
      }
      i := i + 1;
    }
    return rawpath, "", "";
  }

  /** With a `;` in the path, the dataset path and the table are the text
      before the first and between the first two `;`, and joining the tiers
      with `;` gives back the path; a missing tier is empty. */
  lemma ExplicitTiers(rawpath: string)
    requires Contains(rawpath, ";")
    ensures var t := SplitTiers(rawpath);
      && ';' !in t.datasetPath && ';' !in t.table
      && ((t.datasetPath + ";" + t.table == rawpath && t.columnPath == "")
          || t.datasetPath + ";" + t.table + ";" + t.columnPath == rawpath)
  {
    var parts := SplitN(rawpath, ";", 3);
    assert Join(parts, ";") == rawpath by {
      JoinSplitN(rawpath, ";", 3);
    }
    var m := Index(rawpath, ";");
    IndexOfChar(rawpath, ';');
    var rest := rawpath[m + 1..];
    assert parts == [rawpath[..m]] + SplitN(rest, ";", 2);
    var m2 := Index(rest, ";");
    IndexOfChar(rest, ';');
    if m2 == -1 {
      assert parts == [rawpath[..m], rest];
      JoinPair(rawpath[..m], rest, ";");
    } else {
      assert parts == [rawpath[..m], rest[..m2], rest[m2 + 1..]] by {
        assert SplitN(rest, ";", 2) == [rest[..m2]] + SplitN(rest[m2 + 1..], ";", 1);
      }
      JoinTriple(rawpath[..m], rest[..m2], rest[m2 + 1..], ";");
    }
  }

  /** Without a `;`, the table is empty; the dataset path runs up to and
      including the first dataset segment and the column path is the rest
      after the `/` that follows it; with no dataset segment the whole path is
      the dataset path. */
  lemma HeuristicTiers(rawpath: string)
    requires !Contains(rawpath, ";")
    ensures var t := SplitTiers(rawpath);
      var parts := Split(rawpath, "/");
      var k := FirstDatasetFrom(parts, 0);
      && t.table == ""
      && (k == -1 ==> t == Tiers(rawpath, "", ""))
      && (k != -1 ==>
            && t.datasetPath == Join(parts[..k + 1], "/")
            && HasSuffix(t.datasetPath, parts[k])
            && (k + 1 < |parts| ==> t.datasetPath + "/" + t.columnPath == rawpath)
            && (k + 1 == |parts| ==> t.datasetPath == rawpath && t.columnPath == ""))
  {
    var parts := Split(rawpath, "/");
    var k := FirstDatasetFrom(parts, 0);
    JoinSplit(rawpath, "/");
    if k != -1 {
      JoinEndsWithLast(parts[..k + 1], "/");
      assert parts[..k + 1][k] == parts[k];
      if k + 1 < |parts| {
        JoinConcat(parts, k + 1, "/");
      } else {
        assert parts[..k + 1] == parts;
      }
    }
  }
}

/** The Banquet record (banquet.go Banquet, ParseBanquet): the decoded path
    and raw query of a locator, resolved into the clauses of one tabular
    query. The URL itself is represented by the two parts the resolvers
    read, its Path and its RawQuery. */
module Notation {
  import opened GoStrings
  import opened Tiers
  import opened Selection
  import opened Conditions
  import opened Ordering
  import opened Directives

  datatype Banquet = Banquet(
    path: string,
    rawQuery: string,
    where: string,
    table: string,
    select: seq<string>,
    sortDirection: string,
    limit: string,
    offset: string,
    groupBy: string,
    having: string,
    orderBy: string,
    dataSetPath: string,
    columnPath: string)

  /** The effective WHERE text: the query's and the path's conditions, joined
      with ` AND ` when both are present. */
  function CombineWhere(queryWhere: string, pathWhere: string): (w: string)
    ensures w == "" <==> queryWhere == "" && pathWhere == ""
    ensures queryWhere != "" && pathWhere != "" ==> w == queryWhere + " AND " + pathWhere
    ensures queryWhere == "" || pathWhere == "" ==> w == queryWhere + pathWhere
  {
    if pathWhere != "" then
      if queryWhere != "" then queryWhere + " AND " + pathWhere else pathWhere
    else queryWhere
  }

  /** The table: the explicit table tier, else the table heuristic on the
      column path. */
  function TableOf(tiers: Tiers): string {
    if tiers.table == "" then Table(tiers.columnPath) else tiers.table
  }

  /** A selection of exactly the table's name means all columns. */
  function NormalSelect(select: seq<string>, table: string): seq<string> {
    if |select| == 1 && select[0] == table then ["*"] else select
  }

  /** The record ParseBanquet builds from a decoded path and raw query. */
  function BanquetOf(path: string, rawQuery: string, isNumber: string -> bool): Banquet {
    var tiers := SplitTiers(path);
    var table := TableOf(tiers);
    var (ob, dir) := OrderBy(tiers.columnPath, rawQuery);
    Banquet(
      path := path,
      rawQuery := rawQuery,
      where := CombineWhere(QueryWhere(rawQuery), PathConditions(tiers.columnPath, isNumber)),
      table := table,
      select := NormalSelect(Select(tiers.columnPath), table),
      sortDirection := if ob != "" then dir else "",
      limit := Limit(rawQuery, path),
      offset := Offset(rawQuery, path),
      groupBy := GroupBy(path, rawQuery),
      having := Having(rawQuery),
      orderBy := ob,
      dataSetPath := tiers.datasetPath,
      columnPath := tiers.columnPath)
  }

  /** ParseBanquet from the URL's Path and RawQuery on. */
  method ParseBanquet(path: string, rawQuery: string, isNumber: string -> bool) returns (b: Banquet)
    ensures b == BanquetOf(path, rawQuery, isNumber)
  {
    b := Banquet(path, rawQuery, "", "", [], "", "", "", "", "", "", "", "");

    var dataSetPath, table, columnPath := ParseDataSetColumnPath(b.path);
    b := b.(dataSetPath := dataSetPath, table := table, columnPath := columnPath);

    if b.table == "" {
      b := b.(table := Table(b.columnPath));
    }

    var select := ParseSelect(b.columnPath);
    b := b.(select := select);
    if |b.select| == 1 && b.select[0] == b.table {
      b := b.(select := ["*"]);
    }

    var queryWhere := ParseWhere(b.rawQuery);
    var pathWhere := ParsePathConditions(b.columnPath, isNumber);
    if pathWhere != "" {
      if queryWhere != "" {
        b := b.(where := queryWhere + " AND " + pathWhere);
      } else {
        b := b.(where := pathWhere);
      }
    } else {
      b := b.(where := queryWhere);
    }

    b := b.(groupBy := GroupBy(b.path, b.rawQuery));
    b := b.(limit := Limit(b.rawQuery, b.path));
    b := b.(offset := Offset(b.rawQuery, b.path));
    b := b.(having := Having(b.rawQuery));
    var ob, dir := ParseOrderBy(b.columnPath, b.rawQuery);
    if ob != "" {
      b := b.(orderBy := ob);
      if dir != "" {
        b := b.(sortDirection := dir);
      }
    }
  }

  /** What every parsed record satisfies: the selection is never empty and
      names clean columns or `*`, and is never the table's name alone unless
      that name is `*`; a table found by the heuristic is never a selector;
      a sort direction is ASC or DESC and comes only with a column to order
      by; the WHERE text is empty exactly when neither the query nor the path
      states a condition. */
  lemma BanquetInvariants(path: string, rawQuery: string, isNumber: string -> bool)
    ensures var b := BanquetOf(path, rawQuery, isNumber);
      && |b.select| >= 1
      && (forall c :: c in b.select ==> c == "*" || CleanColumn(c))
      && (b.select == [b.table] ==> b.table == "*")
      && (SplitTiers(path).table == "" && b.table != "" ==> !IsSelector(b.table))
      && (b.sortDirection == "" || b.sortDirection == "ASC" || b.sortDirection == "DESC")
      && (b.sortDirection != "" ==> b.orderBy != "" && '[' !in b.orderBy)
      && (b.where == "" <==> QueryWhere(rawQuery) == "" && PathConditions(SplitTiers(path).columnPath, isNumber) == "")
  {
    var tiers := SplitTiers(path);
    SelectIsClean(tiers.columnPath);
    OrderByShape(tiers.columnPath, rawQuery);
  }

  /** With a `;` in the path, the record keeps the explicit tiers, and the
      table heuristic runs only when the table tier is empty. */
  lemma ExplicitTable(path: string, rawQuery: string, isNumber: string -> bool)
    requires Contains(path, ";")
    ensures var b := BanquetOf(path, rawQuery, isNumber);
      && ';' !in b.dataSetPath
      && (SplitTiers(path).table != "" ==> b.table == SplitTiers(path).table && ';' !in b.table)
      && (SplitTiers(path).table == "" ==> b.table == Table(b.columnPath))
  {
    ExplicitTiers(path);
  }
}

/**
 The two passes over an already parsed data-value file: `update_csv`, which
 remaps every row and picks the header for rewriting the file, and
 `convert_csv_to_json`, which remaps every entry into a data-value-set record.
 */
module Pipeline {
  import opened Rows
  import opened Remap

  /** The record `convert_csv_to_json` serialises: `{"dataSet": id, "dataValues": [...]}`. */
  datatype DataValueSet = DataValueSet(dataSet: string, dataValues: seq<Row>)

  /** The output header: the columns of the first row, or none when there are no rows. */
  function HeaderOf(rows: seq<Row>): seq<string> {
    if rows == [] then [] else rows[0].keys
  }

  /**
   A dictionary writer with these field names accepts every row: it fills a
   missing column with "" but refuses a row holding a column the header lacks.
   */
  predicate WriterAccepts(fieldNames: seq<string>, rows: seq<Row>) {
    forall i, k :: 0 <= i < |rows| && k in rows[i].fields ==> k in fieldNames
  }

  /**
   `update_csv` on the rows it read: every row is rewritten in place by the
   sentinel rule and appended to `updatedRows`; the header is taken from the
   first updated row.
   */
  method UpdateCsv(rows: seq<Row>) returns (updatedRows: seq<Row>, fieldNames: seq<string>)
    ensures updatedRows == MapRows(RemapRow, rows)
    ensures fieldNames == HeaderOf(updatedRows)
  {
    updatedRows := [];
    for i := 0 to |rows|
      invariant updatedRows == MapRows(RemapRow, rows[..i])
    {
      var row := rows[i];
      var categoryOptionCombo := Get(row, CategoryColumn, "");
      var attributeOptionCombo := Get(row, AttributeColumn, "");
      if categoryOptionCombo == Primary.source || attributeOptionCombo == Primary.source {
        row := Set(row, CategoryColumn, Primary.target);
        row := Set(row, AttributeColumn, Primary.target);
      } else if categoryOptionCombo == Secondary.source || attributeOptionCombo == Secondary.source {
        row := Set(row, CategoryColumn, Secondary.target);
        row := Set(row, AttributeColumn, Secondary.target);
      }
      RemapRowCases(rows[i]);
      assert rows[..i + 1] == rows[..i] + [rows[i]];
      MapRowsAppend(RemapRow, rows[..i], [rows[i]]);
      updatedRows := updatedRows + [row];
    }
    assert rows[..|rows|] == rows;
    fieldNames := if updatedRows != [] then updatedRows[0].keys else [];
  }

  /**
   `convert_csv_to_json` on the rows it read: every entry is rewritten in
   place by its own copy of the rule, whose elif repeats the if, and appended
   to the record's data values.
   */
  method ConvertCsvToJson(rows: seq<Row>, dataSetId: string) returns (jsonData: DataValueSet)
    ensures jsonData == DataValueSet(dataSetId, MapRows(ConvertEntry, rows))
  {
    jsonData := DataValueSet(dataSetId, []);
    for i := 0 to |rows|
      invariant jsonData.dataSet == dataSetId
      invariant jsonData.dataValues == MapRows(ConvertEntry, rows[..i])
    {
      var entry := rows[i];
      LookupMatches(entry, Primary);
      if Lookup(entry, CategoryColumn) == Some(Primary.source) || Lookup(entry, AttributeColumn) == Some(Primary.source) {
        entry := Set(entry, CategoryColumn, Primary.target);
        entry := Set(entry, AttributeColumn, Primary.target);
      } else if Lookup(entry, CategoryColumn) == Some(Primary.source) || Lookup(entry, AttributeColumn) == Some(Primary.source) {
        entry := Set(entry, CategoryColumn, Primary.target);
        entry := Set(entry, AttributeColumn, Primary.target);
      }
      ConvertPrimaryOnly(rows[i]);
      assert entry == ConvertEntry(rows[i]);
      assert rows[..i + 1] == rows[..i] + [rows[i]];
      MapRowsAppend(ConvertEntry, rows[..i], [rows[i]]);
      jsonData := jsonData.(dataValues := jsonData.dataValues + [entry]);
    }
    assert rows[..|rows|] == rows;
  }

  // ----- What the passes promise -----

  /**
   The header `update_csv` writes is empty exactly when there are no rows
   (given rows with columns), and otherwise starts with the first row's
   columns.
   */
  lemma UpdateCsvShape(rows: seq<Row>)
    ensures rows == [] ==> HeaderOf(MapRows(RemapRow, rows)) == []
    ensures rows != [] ==> rows[0].keys <= HeaderOf(MapRows(RemapRow, rows))
    ensures rows != [] && rows[0].keys != [] ==> HeaderOf(MapRows(RemapRow, rows)) != []
    ensures rows != [] && WellFormed(rows[0]) && CategoryColumn in rows[0].keys && AttributeColumn in rows[0].keys
            ==> HeaderOf(MapRows(RemapRow, rows)) == rows[0].keys
  {
    if rows != [] {
      RemapRowCases(rows[0]);
      if WellFormed(rows[0]) {
        RemapColumns(rows[0]);
      }
    }
  }

  /** Rows that carry both designated columns keep their sets of columns through `update_csv`. */
  lemma UpdateCsvColumnSets(rows: seq<Row>)
    requires forall i :: 0 <= i < |rows| ==> CategoryColumn in rows[i].fields && AttributeColumn in rows[i].fields
    ensures forall i :: 0 <= i < |rows| ==> MapRows(RemapRow, rows)[i].fields.Keys == rows[i].fields.Keys
  {
    var out := MapRows(RemapRow, rows);
    forall i | 0 <= i < |rows|
      ensures out[i].fields.Keys == rows[i].fields.Keys
    {
      RemapColumnSet(rows[i]);
    }
  }

  /**
   When every row carries the first row's columns, both designated ones among
   them, the rewritten file keeps the first row's header and the writer
   accepts every remapped row.
   */
  lemma UpdateCsvWritable(rows: seq<Row>)
    requires rows != [] && WellFormed(rows[0])
    requires forall i :: 0 <= i < |rows| ==> rows[i].fields.Keys == rows[0].fields.Keys
    requires CategoryColumn in rows[0].fields && AttributeColumn in rows[0].fields
    ensures HeaderOf(MapRows(RemapRow, rows)) == rows[0].keys
    ensures WriterAccepts(HeaderOf(MapRows(RemapRow, rows)), MapRows(RemapRow, rows))
  {
    UpdateCsvColumnSets(rows);
    RemapColumns(rows[0]);
  }

  /**
   A file whose first row lacks `categoryoptioncombo` and carries no sentinel
   breaks the rewrite as soon as a later row carries one: that row gains the
   column, the header taken from the first row does not have it, and the
   writer refuses the row.
   */
  lemma UpdateCsvMissingColumnRejected(rows: seq<Row>, j: nat)
    requires 0 < j < |rows|
    requires WellFormed(rows[0]) && CategoryColumn !in rows[0].fields
    requires !Matches(rows[0], Primary) && !Matches(rows[0], Secondary)
    requires Matches(rows[j], Primary) || Matches(rows[j], Secondary)
    ensures !WriterAccepts(HeaderOf(MapRows(RemapRow, rows)), MapRows(RemapRow, rows))
  {
    var out := MapRows(RemapRow, rows);
    RemapRowCases(rows[0]);
    RemapRowCases(rows[j]);
    assert out[0] == rows[0];
    assert CategoryColumn in out[j].fields;
    assert CategoryColumn !in HeaderOf(out);
  }

  /**
   The smallest such file: a first row `x` and a second row `c6PwdArn3fZ`,
   both in `attributeoptioncombo` only.
   */
  lemma UpdateCsvMissingColumnExample()
    ensures var rows := [
              Row([AttributeColumn], map[AttributeColumn := "x"]),
              Row([AttributeColumn], map[AttributeColumn := Primary.source])];
            !WriterAccepts(HeaderOf(MapRows(RemapRow, rows)), MapRows(RemapRow, rows))
  {
    var rows := [
      Row([AttributeColumn], map[AttributeColumn := "x"]),
      Row([AttributeColumn], map[AttributeColumn := Primary.source])];
    UpdateCsvMissingColumnRejected(rows, 1);
  }

  /**
   The record names the requested data set and holds one entry per row, in
   order; only "c6PwdArn3fZ" is remapped, so an "another_value" row passes
   through unchanged.
   */
  lemma ConvertCsvToJsonShape(rows: seq<Row>, dataSetId: string)
    ensures var rec := DataValueSet(dataSetId, MapRows(ConvertEntry, rows));
            && rec.dataSet == dataSetId
            && |rec.dataValues| == |rows|
            && (forall i :: 0 <= i < |rows| && Matches(rows[i], Primary) ==>
                  rec.dataValues[i] == Overwrite(rows[i], Primary.target))
            && (forall i :: 0 <= i < |rows| && !Matches(rows[i], Primary) ==> rec.dataValues[i] == rows[i])
  {
    forall i | 0 <= i < |rows|
      ensures Matches(rows[i], Primary) ==> ConvertEntry(rows[i]) == Overwrite(rows[i], Primary.target)
      ensures !Matches(rows[i], Primary) ==> ConvertEntry(rows[i]) == rows[i]
    {
      ConvertPrimaryOnly(rows[i]);
    }
  }

  /**
   A two-row file with header `id,categoryoptioncombo,attributeoptioncombo`:
   the row `1,c6PwdArn3fZ,x` becomes `1,HllvX50cXC0,HllvX50cXC0`, the row
   `2,y,z` is kept as it is, and the header is unchanged.
   */
  lemma UpdateCsvExample()
    ensures var header := ["id", CategoryColumn, AttributeColumn];
            var rows := [
              Row(header, map["id" := "1", CategoryColumn := "c6PwdArn3fZ", AttributeColumn := "x"]),
              Row(header, map["id" := "2", CategoryColumn := "y", AttributeColumn := "z"])];
            && MapRows(RemapRow, rows) == [
                 Row(header, map["id" := "1", CategoryColumn := "HllvX50cXC0", AttributeColumn := "HllvX50cXC0"]),
                 rows[1]]
            && HeaderOf(MapRows(RemapRow, rows)) == header
  {
    var header := ["id", CategoryColumn, AttributeColumn];
    var rows := [
      Row(header, map["id" := "1", CategoryColumn := "c6PwdArn3fZ", AttributeColumn := "x"]),
      Row(header, map["id" := "2", CategoryColumn := "y", AttributeColumn := "z"])];
    RemapRowCases(rows[0]);
    RemapRowCases(rows[1]);
    assert Matches(rows[0], Primary) && !Matches(rows[1], Primary) && !Matches(rows[1], Secondary);
    assert Overwrite(rows[0], Primary.target).keys == header;
    assert rows[0].fields[CategoryColumn := "HllvX50cXC0"][AttributeColumn := "HllvX50cXC0"]
        == map["id" := "1", CategoryColumn := "HllvX50cXC0", AttributeColumn := "HllvX50cXC0"];
  }
}

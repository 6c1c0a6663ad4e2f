/**
 Sentinel remapping of data-value rows. Two designated columns,
 `categoryoptioncombo` and `attributeoptioncombo`, are checked against a
 chain of mappings (an if/elif chain): the first mapping whose source value
 appears in either column overwrites BOTH columns with its target value, and
 a row no mapping matches passes through untouched.
 */
module Remap {
  import opened Rows

  const CategoryColumn := "categoryoptioncombo"
  const AttributeColumn := "attributeoptioncombo"

  /** One sentinel: a source value and the value that replaces it. */
  datatype Mapping = Mapping(source: string, target: string)

  const Primary := Mapping("c6PwdArn3fZ", "HllvX50cXC0")
  const Secondary := Mapping("another_value", "replacement_value")

  /** The if/elif chain of `update_csv`. */
  const UpdateMappings := [Primary, Secondary]

  /** The if/elif chain of `convert_csv_to_json`: its elif repeats the if's condition. */
  const ConvertMappings := [Primary, Primary]

  /** Either designated column holds the mapping's source; a missing column reads as "". */
  predicate Matches(r: Row, m: Mapping) {
    Get(r, CategoryColumn, "") == m.source || Get(r, AttributeColumn, "") == m.source
  }

  /** Both designated columns set to `v`; every other column keeps its value. */
  function Overwrite(r: Row, v: string): (r': Row)
    ensures r'.fields == r.fields[CategoryColumn := v][AttributeColumn := v]
    ensures WellFormed(r) ==> WellFormed(r')
    ensures r.keys <= r'.keys
    ensures WellFormed(r) && CategoryColumn in r.keys && AttributeColumn in r.keys ==> r'.keys == r.keys
  {
    Set(Set(r, CategoryColumn, v), AttributeColumn, v)
  }

  /** The first mapping of `ms` that matches `r` rewrites both designated columns. */
  function ApplyFirst(r: Row, ms: seq<Mapping>): Row
  {
    if ms == [] then r
    else if Matches(r, ms[0]) then Overwrite(r, ms[0].target)
    else ApplyFirst(r, ms[1..])
  }

  /** The per-row rewrite of `update_csv`. */
  function RemapRow(r: Row): Row {
    ApplyFirst(r, UpdateMappings)
  }

  /** The per-entry rewrite of `convert_csv_to_json`. */
  function ConvertEntry(r: Row): Row {
    ApplyFirst(r, ConvertMappings)
  }

  // ----- The chain in general -----

  /** A row that no mapping of the chain matches comes out unchanged. */
  lemma {:induction false} ApplyFirstNoMatch(r: Row, ms: seq<Mapping>)
    requires forall i :: 0 <= i < |ms| ==> !Matches(r, ms[i])
    ensures ApplyFirst(r, ms) == r
  {
    if ms != [] {
      assert !Matches(r, ms[0]);
      ApplyFirstNoMatch(r, ms[1..]);
    }
  }

  /** The earliest matching mapping decides the outcome; later ones are never consulted. */
  lemma {:induction false} ApplyFirstWinner(r: Row, ms: seq<Mapping>, i: nat)
    requires i < |ms| && Matches(r, ms[i])
    requires forall j :: 0 <= j < i ==> !Matches(r, ms[j])
    ensures ApplyFirst(r, ms) == Overwrite(r, ms[i].target)
  {
    if i > 0 {
      assert !Matches(r, ms[0]);
      ApplyFirstWinner(r, ms[1..], i - 1);
    }
  }

  /**
   A mapping that repeats an earlier one can never fire, and neither can one
   that does not match: appending it changes nothing.
   */
  lemma {:induction false} ApplyFirstRepeated(r: Row, ms: seq<Mapping>, m: Mapping)
    requires m in ms || !Matches(r, m)
    ensures ApplyFirst(r, ms + [m]) == ApplyFirst(r, ms)
  {
    if ms == [] {
      assert ms + [m] == [m];
    } else if !Matches(r, ms[0]) {
      assert (ms + [m])[0] == ms[0];
      assert (ms + [m])[1..] == ms[1..] + [m];
      ApplyFirstRepeated(r, ms[1..], m);
    }
  }

  // ----- update_csv's rule -----

  /** What `RemapRow` does, case by case: the primary sentinel first, then the secondary. */
  lemma RemapRowCases(r: Row)
    ensures Matches(r, Primary) ==> RemapRow(r) == Overwrite(r, Primary.target)
    ensures !Matches(r, Primary) && Matches(r, Secondary) ==> RemapRow(r) == Overwrite(r, Secondary.target)
    ensures !Matches(r, Primary) && !Matches(r, Secondary) ==> RemapRow(r) == r
  {
    if Matches(r, Primary) {
      ApplyFirstWinner(r, UpdateMappings, 0);
    } else if Matches(r, Secondary) {
      ApplyFirstWinner(r, UpdateMappings, 1);
    } else {
      ApplyFirstNoMatch(r, UpdateMappings);
    }
  }

  /** A row whose designated columns hold neither sentinel comes out unchanged. */
  lemma RemapUntouched(r: Row)
    requires Get(r, CategoryColumn, "") !in {Primary.source, Secondary.source}
    requires Get(r, AttributeColumn, "") !in {Primary.source, Secondary.source}
    ensures RemapRow(r) == r
  {
    RemapRowCases(r);
  }

  /**
   If either designated column holds "c6PwdArn3fZ", both become "HllvX50cXC0"
   and every other column keeps its value, whatever the other sentinel says.
   */
  lemma RemapPrimary(r: Row)
    requires Get(r, CategoryColumn, "") == "c6PwdArn3fZ" || Get(r, AttributeColumn, "") == "c6PwdArn3fZ"
    ensures Get(RemapRow(r), CategoryColumn, "") == "HllvX50cXC0"
    ensures Get(RemapRow(r), AttributeColumn, "") == "HllvX50cXC0"
    ensures RemapRow(r).fields - {CategoryColumn, AttributeColumn} == r.fields - {CategoryColumn, AttributeColumn}
  {
    RemapRowCases(r);
  }

  /**
   If neither designated column holds "c6PwdArn3fZ" but one holds
   "another_value", both become "replacement_value" and nothing else changes.
   */
  lemma RemapSecondary(r: Row)
    requires Get(r, CategoryColumn, "") != "c6PwdArn3fZ" && Get(r, AttributeColumn, "") != "c6PwdArn3fZ"
    requires Get(r, CategoryColumn, "") == "another_value" || Get(r, AttributeColumn, "") == "another_value"
    ensures Get(RemapRow(r), CategoryColumn, "") == "replacement_value"
    ensures Get(RemapRow(r), AttributeColumn, "") == "replacement_value"
    ensures RemapRow(r).fields - {CategoryColumn, AttributeColumn} == r.fields - {CategoryColumn, AttributeColumn}
  {
    RemapRowCases(r);
  }

  /** The first mapping wins: one column primary, the other secondary, gives the primary target. */
  lemma RemapPriority(r: Row)
    requires
      || (Get(r, CategoryColumn, "") == "c6PwdArn3fZ" && Get(r, AttributeColumn, "") == "another_value")
      || (Get(r, CategoryColumn, "") == "another_value" && Get(r, AttributeColumn, "") == "c6PwdArn3fZ")
    ensures Get(RemapRow(r), CategoryColumn, "") == "HllvX50cXC0" != "replacement_value"
    ensures Get(RemapRow(r), AttributeColumn, "") == "HllvX50cXC0" != "replacement_value"
  {
    RemapPrimary(r);
  }

  /**
   A missing designated column reads as "", which is no sentinel: a row
   lacking both columns is never rewritten, and one lacking a single column
   is rewritten only on account of the other.
   */
  lemma RemapMissingColumn(r: Row)
    ensures CategoryColumn !in r.fields ==>
              && (Matches(r, Primary) <==> Get(r, AttributeColumn, "") == Primary.source)
              && (Matches(r, Secondary) <==> Get(r, AttributeColumn, "") == Secondary.source)
    ensures AttributeColumn !in r.fields ==>
              && (Matches(r, Primary) <==> Get(r, CategoryColumn, "") == Primary.source)
              && (Matches(r, Secondary) <==> Get(r, CategoryColumn, "") == Secondary.source)
    ensures CategoryColumn !in r.fields && AttributeColumn !in r.fields ==> RemapRow(r) == r
  {
    RemapRowCases(r);
  }

  /** Neither target is a source, so remapping an already remapped row changes nothing. */
  lemma RemapIdempotent(r: Row)
    ensures RemapRow(RemapRow(r)) == RemapRow(r)
  {
    RemapRowCases(r);
    RemapRowCases(RemapRow(r));
  }

  /**
   Remapping keeps a well-formed row well-formed and keeps its columns in
   place; a designated column the row lacked is appended after them.
   */
  lemma RemapColumns(r: Row)
    requires WellFormed(r)
    ensures WellFormed(RemapRow(r))
    ensures r.keys <= RemapRow(r).keys
    ensures CategoryColumn in r.keys && AttributeColumn in r.keys ==> RemapRow(r).keys == r.keys
  {
    RemapRowCases(r);
  }

  /**
   Remapping adds columns only when a mapping fires, and then only the two
   designated ones; a row that has both keeps its set of columns.
   */
  lemma RemapColumnSet(r: Row)
    ensures !Matches(r, Primary) && !Matches(r, Secondary) ==> RemapRow(r).fields.Keys == r.fields.Keys
    ensures Matches(r, Primary) || Matches(r, Secondary)
            ==> RemapRow(r).fields.Keys == r.fields.Keys + {CategoryColumn, AttributeColumn}
    ensures CategoryColumn in r.fields && AttributeColumn in r.fields ==> RemapRow(r).fields.Keys == r.fields.Keys
  {
    RemapRowCases(r);
  }

  // ----- convert_csv_to_json's rule -----

  /**
   `convert_csv_to_json` reads the designated columns with `entry.get(k)`,
   which gives None for a missing column; since no source is "", this
   matches exactly the rows `Matches` does.
   */
  lemma LookupMatches(r: Row, m: Mapping)
    requires m.source != ""
    ensures (Lookup(r, CategoryColumn) == Some(m.source) || Lookup(r, AttributeColumn) == Some(m.source))
            <==> Matches(r, m)
  {
  }

  /**
   The elif of `convert_csv_to_json` repeats its if, so only "c6PwdArn3fZ"
   is ever remapped there: a row without it, "another_value" included,
   passes through unchanged.
   */
  lemma ConvertPrimaryOnly(r: Row)
    ensures ConvertEntry(r) == ApplyFirst(r, [Primary])
    ensures Matches(r, Primary) ==> ConvertEntry(r) == Overwrite(r, Primary.target)
    ensures !Matches(r, Primary) ==> ConvertEntry(r) == r
  {
    assert ConvertMappings == [Primary] + [Primary];
    ApplyFirstRepeated(r, [Primary], Primary);
    if Matches(r, Primary) {
      ApplyFirstWinner(r, [Primary], 0);
    } else {
      ApplyFirstNoMatch(r, [Primary]);
    }
  }

  /**
   The two rewrites agree on every row without "another_value" in a designated
   column, and disagree on every row that has it but no "c6PwdArn3fZ".
   */
  lemma ConvertVersusRemap(r: Row)
    ensures !Matches(r, Secondary) ==> ConvertEntry(r) == RemapRow(r)
    ensures !Matches(r, Primary) && Matches(r, Secondary) ==> ConvertEntry(r) == r != RemapRow(r)
  {
    ConvertPrimaryOnly(r);
    RemapRowCases(r);
    if !Matches(r, Primary) && Matches(r, Secondary) {
      assert Get(RemapRow(r), CategoryColumn, "") == Secondary.target;
    }
  }

  // ----- Whole files -----

  /** Remapping a whole file twice is the same as remapping it once. */
  lemma RemapAllIdempotent(rows: seq<Row>)
    ensures MapRows(RemapRow, MapRows(RemapRow, rows)) == MapRows(RemapRow, rows)
  {
    forall i | 0 <= i < |rows|
      ensures RemapRow(RemapRow(rows[i])) == RemapRow(rows[i])
    {
      RemapIdempotent(rows[i]);
    }
  }
}

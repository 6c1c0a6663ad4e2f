# Data-value set transfer: sentinel remapping, modelled in Dafny

The program downloads data-value sets from a `dataValueSets` web API as CSV,
one data set at a time, and rewrites each file so that rows carrying a
sentinel option-combo identifier get its replacement identifier instead.
This project models the part of `main.py` that makes decisions:

- the per-row sentinel rule of `update_csv`: if `categoryoptioncombo` or
  `attributeoptioncombo` holds `c6PwdArn3fZ`, both become `HllvX50cXC0`;
  otherwise, if either holds `another_value`, both become `replacement_value`;
  a missing column reads as `''`;
- the `update_csv` pass itself, which rewrites every row and takes the output
  header from the first rewritten row (no header when there are no rows);
- the second copy of the rule in `convert_csv_to_json`, whose `elif` repeats
  the `if` condition, and the `{"dataSet": id, "dataValues": [...]}` record it
  builds; the program never calls `convert_csv_to_json` (its only call, at
  main.py:140-141, is commented out), so this copy is dead code as it stands;
- the selection rule of `delete_existing_files`: every entry except
  `.gitignore` is considered, only regular files are removed, and a failed
  removal does not stop the pass.

Modules:

- `Rows` (`rows.dfy`): a row as an insertion-ordered dictionary
  (`Row(keys, fields)`), `dict.get` with and without a default, and
  `row[k] = v`, which keeps an existing column in place and appends a new one.
- `Remap` (`remap.dfy`): the rule as a chain of mappings (`ApplyFirst`);
  `update_csv` runs the chain `[Primary, Secondary]`, `convert_csv_to_json`
  the chain `[Primary, Primary]`. Lemmas state what each chain does to a row.
- `Pipeline` (`pipeline.dfy`): the two loops, `UpdateCsv` and
  `ConvertCsvToJson`, each proved equal to mapping its rule over the rows, and
  lemmas about the output header and what a dictionary writer accepts.
- `Cleanup` (`cleanup.dfy`): the loop of `delete_existing_files` over a
  directory listing, proved equal to the `Removed`/`Remaining` split.

`main.py` has no size-bounded writer that splits output into `_part_N` files:
`update_csv` rewrites a single file. `delete_existing_files` does not recurse
into subdirectories: it removes plain files only.

## Model

| member | source | states |
|---|---|---|
| Rows.Set | main.py:68-69 | `row[k] = v` sets column `k` and leaves every other cell alone; an existing column keeps its position, a new one goes last; a well-formed row stays well-formed |
| Rows.MapRows | main.py:63-74 | one output row per input row, the i-th output is the rule applied to the i-th input |
| Remap.Overwrite | main.py:68-69 | both designated columns take the target value, every other column keeps its value, and the column order is kept when both were present |
| Remap.ApplyFirstNoMatch | main.py:67-74 | a row that no mapping of an if/elif chain matches is appended unchanged |
| Remap.ApplyFirstWinner | main.py:67-72 | the earliest matching mapping of the chain decides the row; later branches are never reached |
| Remap.ApplyFirstRepeated | main.py:101-108 | a branch that repeats an earlier branch's condition can never fire |
| Remap.RemapRowCases | main.py:64-72 | `update_csv`'s rule case by case: primary sentinel, else secondary sentinel, else unchanged |
| Remap.RemapUntouched | main.py:64-74 | a row whose designated columns hold neither sentinel comes out unchanged |
| Remap.RemapPrimary | main.py:67-69 | `c6PwdArn3fZ` in either column makes both `HllvX50cXC0`, and no other column changes |
| Remap.RemapSecondary | main.py:70-72 | without `c6PwdArn3fZ`, `another_value` in either column makes both `replacement_value`, and no other column changes |
| Remap.RemapPriority | main.py:67-72 | one column `c6PwdArn3fZ` and the other `another_value` gives `HllvX50cXC0` in both, never `replacement_value` |
| Remap.RemapMissingColumn | main.py:64-65 | a missing designated column reads as `''` and never triggers a mapping; a row missing both is unchanged |
| Remap.RemapIdempotent | main.py:67-72 | remapping a remapped row changes nothing, since neither target is a sentinel |
| Remap.RemapColumns | main.py:68-72 | remapping keeps a row well-formed and its columns in place; a lacking designated column is appended after them |
| Remap.RemapColumnSet | main.py:67-72 | columns are added only when a mapping fires, and only the two designated ones |
| Remap.LookupMatches | main.py:101-102 | reading the columns with `entry.get(k)` matches exactly the rows the `''`-default reading does |
| Remap.ConvertPrimaryOnly | main.py:101-108 | `convert_csv_to_json`'s rule rewrites rows with `c6PwdArn3fZ` and leaves every other row, `another_value` included, unchanged |
| Remap.ConvertVersusRemap | main.py:101-108 | the two rules agree on rows without `another_value`, and differ on rows with it but no `c6PwdArn3fZ` |
| Remap.RemapAllIdempotent | main.py:63-74 | running the whole remap pass twice gives the same rows as running it once |
| Pipeline.UpdateCsv | main.py:52-76 | the loop appends the remapped form of every row, in order, and takes the header from the first output row |
| Pipeline.ConvertCsvToJson | main.py:89-110 | the record names the data set and holds the remapped form of every row, in order |
| Pipeline.UpdateCsvShape | main.py:76 | the header is empty when there are no rows, non-empty when the first row has columns, starts with the first row's columns, and equals them when both designated columns are there |
| Pipeline.UpdateCsvColumnSets | main.py:63-74 | rows carrying both designated columns keep their column sets through the pass |
| Pipeline.UpdateCsvWritable | main.py:76-83 | when all rows share the first row's columns, both designated ones among them, the header is that row's columns and the writer accepts every output row |
| Pipeline.UpdateCsvMissingColumnRejected | main.py:63-83 | when the first row lacks `categoryoptioncombo` and holds no sentinel, any later row holding a sentinel gains that column, which the header lacks, and the writer refuses it |
| Pipeline.UpdateCsvMissingColumnExample | main.py:63-83 | rows `attributeoptioncombo=x` then `attributeoptioncombo=c6PwdArn3fZ` give a row the writer refuses |
| Pipeline.ConvertCsvToJsonShape | main.py:90-110 | one entry per row in order; rows with `c6PwdArn3fZ` are overwritten, all other rows pass through |
| Pipeline.UpdateCsvExample | main.py:63-76 | rows `1,c6PwdArn3fZ,x` and `2,y,z` become `1,HllvX50cXC0,HllvX50cXC0` and `2,y,z` under an unchanged header |
| Cleanup.DeleteExistingFiles | main.py:149-161 | the loop removes exactly `Removed(listing)` and leaves exactly `Remaining(listing)` |
| Cleanup.RemovedSound | main.py:152-158 | nothing removed is `.gitignore`, a non-file, or an entry whose removal failed |
| Cleanup.RemovedComplete | main.py:151-158 | every regular file other than `.gitignore` whose removal succeeds is removed |
| Cleanup.RemovedPartition | main.py:151-161 | every entry is removed or left, never both: the counts add up, everything left is `.gitignore`, a non-file or a failed removal, and every such entry is left |
| Cleanup.SecondPassRemovesNothing | main.py:149-161 | when the same removals fail again, a second pass over what the first left removes nothing and leaves the same entries |

## Left out

- Downloading (`download_csv_with_authentication`, main.py:10-34): HTTP with basic authentication, streaming, the 300-second timeout and the progress bar are network I/O.
- URL construction in `download_csv_by_dataSet` (main.py:121-145), including its fixed query parameters, the success branch that calls `update_csv` and the failure branch that appends `Error downloading dataset ID: {id}` to `errors.log`: library calls and file I/O.
- CSV parsing and writing (`csv.DictReader`, `csv.DictWriter`) and `json.dump`: the model starts from parsed rows. The writer appears only as the `WriterAccepts` condition (it raises on a row holding a column the header lacks).
- The `ValueError` that `csv_writer.writerows` (main.py:83) raises on a row the header does not cover (`Pipeline.UpdateCsvMissingColumnRejected` describes files that trigger it) is caught nowhere: not in `download_csv_by_dataSet` (main.py:142) and not in the loop under `__main__` (main.py:178-180). One such file ends the whole run, leaves `temp_updated.csv` behind and skips the remaining data sets. The model states only the writer's refusal, not this abort.
- Short CSV rows, for which the reader stores None rather than text: cells are strings in the model. None compares unequal to every sentinel just as `''` does.
- File handling in `update_csv` and `convert_csv_to_json` (reading the file twice, the row count for the progress bar, the temporary file, `os.remove`, `os.rename`), and in `delete_existing_files` (`os.listdir`, `os.path.isfile`, `os.remove`): the listing, the file test and the failing removals are parameters.
- In-place mutation of each row dictionary: modelled as reassigning a row value inside the loop. Each row is a fresh dictionary from the reader that nothing else refers to, so no aliasing is lost.
- The order of `os.listdir` is unspecified; the model takes the listing in whatever order it is given.
- The driver under `__main__` (main.py:165-180) and its hardcoded credentials.

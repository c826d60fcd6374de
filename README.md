# latlon-formatter: coordinate-column reshaping

latlon-formatter is a browser page that loads a CSV file and reshapes its
coordinate columns in one of two ways:

- one column holding `lat,lon` text (the "single" format) becomes two columns, `緯度` (latitude) and `経度` (longitude);
- two columns (the "double" format) become one column `座標` (coordinate) holding `lat,lon`.

It then offers the result for download under a derived file name.

This project models that core in Dafny:

- `Text`: the JavaScript string operations the page relies on. These are `split(',')`, `trim()`, and the ASCII case folding of a case-insensitive regular expression.
- `Detector`: `detectColumns`. It pre-selects the latitude and longitude columns, and the last match wins.
- `Converter`: `convertData`, stated as a pure function of the loaded table, the source layout and the target format. It comes with the loop that builds the converted header list and lemmas about headers, rows and round trips.
- `FileName`: the export file-name rule of `downloadCSV`.
- `Session`: the page's global state as a class. It has the parser's load callback, the convert button (validation, then conversion) and the download guard.

A row is a `map<string, string>`. A cell that is absent from the row reads as `""`, which is what `row[h] || ''` gives.

## Model

| member | source | states |
|---|---|---|
| Text.TrimStart | script.js:341 | the result is a suffix of the input, everything cut off is whitespace, and the result does not start with whitespace |
| Text.TrimEnd | script.js:341 | the result is a prefix of the input, everything cut off is whitespace, and the result does not end with whitespace |
| Text.Trim | script.js:341 | `trim()` leaves no whitespace or line terminator at either end |
| Text.TrimIsInfix | script.js:341 | the trimmed text is a contiguous part of the input, and only whitespace is removed on either side of it |
| Text.TrimShortens | script.js:341 | trimming never lengthens a text, and a text it does not shorten is returned unchanged |
| Text.TrimOfTrimmed | script.js:341 | trimming text with no whitespace at its ends changes nothing |
| Text.TrimSkipsLeading | script.js:341 | a leading whitespace character makes no difference to the trimmed text |
| Text.TrimChars | script.js:341 | trimming introduces no character (a comma-free text stays comma-free) |
| Text.Split | script.js:341 | `split(',')` returns at least one piece, and no piece contains the separator |
| Text.JoinSplit | script.js:341 | joining the pieces of a split with the separator gives back the original text |
| Text.SplitAfterFirst | script.js:341 | a separator-free prefix followed by the separator is the first piece, and the rest is split on its own |
| Text.SplitNoSeparator | script.js:341 | a text without the separator splits into just itself |
| Text.SplitJoin | script.js:341 | splitting a join of separator-free pieces gives back exactly those pieces |
| Text.ToLower | script.js:250-251 | lower-casing keeps the length |
| Text.ToLowerEqual | script.js:250-251 | two texts have equal lower-cased forms exactly when they agree character by character up to ASCII case |
| Detector.Matches | script.js:250-258 | the anchored case-insensitive test `latPatterns.test(col)` / `lonPatterns.test(col)`: the ASCII-lower-cased header is one of the role's spellings (its meaning is stated by `Detector.MatchesWholeName`) |
| Detector.MatchesWholeName | script.js:250-251 | a header matches a role if and only if the whole header equals one of that role's spellings up to ASCII case (no substring match) |
| Detector.NoNameMatchesBothRoles | script.js:250-251 | no header matches both the latitude and the longitude pattern |
| Detector.LastMatch | script.js:253-260 | the selection after the scan is either the prior value or a header of the list that matches the role |
| Detector.LastMatchIsLast | script.js:253-260 | a matching header with no matching header after it is the one selected |
| Detector.LastMatchNone | script.js:253-260 | with no matching header, the prior selection is kept |
| Detector.DetectColumns | script.js:249-261 | the in-order scan, with later matches overwriting earlier ones, leaves each drop-down at the last matching header, or at its prior value when none matches |
| Detector.CapitalisedLongitudeMatches | script.js:251 | `Longitude` is taken for longitude whatever its case, and not for latitude |
| Detector.SuffixedNameDoesNotMatch | script.js:250-251 | `latitude_2` contains a spelling but matches neither role |
| Converter.Cell | script.js:340 | the cell read with an empty-string fallback: a present cell reads as its text and an absent one as `""` |
| Converter.Without | script.js:325-329 | the filtered header list is no longer than the input, and each of its entries is an input header that is not dropped |
| Converter.WithoutMembers | script.js:325-329 | a header survives the filter if and only if it was present and is not one of the dropped columns |
| Converter.WithoutConcat | script.js:325-329 | filtering commutes with concatenation, so the surviving headers keep their original order |
| Converter.WithoutNothingDropped | script.js:325-329 | when no header is dropped, the header list comes through unchanged |
| Converter.KeepHeaders | script.js:325-329 | the `forEach`/`push` loop builds exactly the in-order list of headers that are not dropped |
| Converter.KeptFields | script.js:333-338 | the fields copied into `newRow` are exactly the headers that are not dropped, each holding its cell |
| Converter.AddedHeadersDistinct | script.js:330 | `緯度`, `経度` and `座標` are three different names, so the appended fields never overwrite one another |
| Converter.WithLatLon | script.js:342-343 | setting the two coordinate fields keeps every other field and adds exactly `緯度` and `経度` with the given pieces |
| Converter.RowToTwo | script.js:332-345 | the new row's fields are exactly the headers other than the coordinate column plus `緯度` and `経度`; every other header keeps its cell; `緯度` and `経度` hold the two split pieces |
| Converter.RowToOne | script.js:357-369 | the new row's fields are exactly the headers other than the two coordinate columns plus `座標`; every other header keeps its cell; `座標` holds `lat + "," + lon` |
| Converter.RowsToTwo | script.js:332-346 | `editedData.map(...)` keeps the number of rows, and row `k` of the result carries `緯度` and `経度` set to the trimmed pieces of row `k`'s coordinate cell |
| Converter.RowsToOne | script.js:357-370 | `editedData.map(...)` keeps the number of rows, and row `k` of the result carries `座標` set to row `k`'s latitude and longitude cells joined by a comma |
| Converter.IsCoordinateColumn | script.js:387 | the preview's highlight test: a header is `緯度`, `経度` or `座標` (`Converter.AddedHeadersAreCoordinateColumns` uses it) |
| Converter.SplitCoordinate | script.js:340-343 | both coordinate pieces are trimmed and contain no comma |
| Converter.Converted | script.js:319-375 | conversion keeps the row count, and a source layout whose format equals the target passes the table through unchanged |
| Converter.OneToTwoHeaders | script.js:324-330 | single to double: the headers are `Without` the coordinate column (the input headers in their order and with their repeats, minus that column), followed by exactly `緯度`, `経度`; their members are exactly the input headers other than that column |
| Converter.OneToTwoRows | script.js:332-345 | single to double, per row: every header other than the coordinate column, `緯度` and `経度` (a `座標` column included) keeps its value, no other field appears, and `緯度`/`経度` are the trimmed first and second comma pieces |
| Converter.TwoToOneHeaders | script.js:348-355 | double to single: the headers are `Without` both coordinate columns (the input headers in their order and with their repeats, minus those two), followed by exactly `座標`; their members are exactly the input headers other than those two |
| Converter.TwoToOneRows | script.js:357-369 | double to single, per row: every other field keeps its value, no other field appears, and `座標` is `lat + "," + lon` with `""` for a missing side |
| Converter.AddedHeadersAreCoordinateColumns | script.js:387 | every header a conversion adds is one that the preview highlights as a coordinate column |
| Converter.CoordinatePair | script.js:340-343 | for `a,b` with comma-free `a` and `b`, the latitude is `trim(a)` and the longitude is `trim(b)` |
| Converter.CoordinateExtraPiecesIgnored | script.js:341-343 | comma pieces after the second are discarded |
| Converter.CoordinateWithoutComma | script.js:341-343 | without a comma, the latitude is the whole trimmed text and the longitude is `""` |
| Converter.OneToTwoRowAt | script.js:332-345 | row `i` of the result is built from row `i` of the input, so row order is kept |
| Converter.TwoToOneRowAt | script.js:357-369 | row `i` of the result is built from row `i` of the input, so row order is kept |
| Converter.RowToTwoNewFields | script.js:340-343 | the row mapping always sets both `緯度` and `経度`, to the split coordinate |
| Converter.RowToOneNewField | script.js:365-367 | the row mapping always sets `座標`, to the two cells joined by a comma with no space |
| Converter.RoundTripOneTwoOne | script.js:319-375 | single to double, then back from `緯度`/`経度`, turns `a,b` into `trim(a),trim(b)` |
| Converter.RoundTripOneTwoOneAny | script.js:319-375 | on any row, single to double and back gives the two split pieces joined by a comma |
| Converter.RoundTripRestoresExactly | script.js:319-375 | on any row, the round trip gives the coordinate text back unchanged if and only if it is exactly one comma-separated pair with nothing to trim (`IsTrimmedPair`); a text without a comma or with a third piece never comes back unchanged |
| Converter.RoundTripOneTwoOneExact | script.js:319-375 | that round trip restores the coordinate text if and only if neither side has whitespace at its ends |
| Converter.TrimmedPairIff | script.js:341 | `trim(a),trim(b)` reads the same as `a,b` if and only if neither piece has whitespace at its ends |
| Converter.RoundTripTwoOneTwo | script.js:319-375 | double to single, then back from `座標`, restores comma-free, already trimmed latitude and longitude values |
| Converter.RoundTripLosesSpaces | script.js:341-367 | a space before each piece, as in `" 1, 2"`, is lost, and the round trip returns `"1,2"`, which differs from the input |
| Converter.SpacedPiecesTrim | script.js:341 | one leading space before each piece is removed by the trim |
| Converter.OneToTwoScenario | script.js:319-345 | `[id, coord]` with `coord = "10,20"` becomes `[id, 緯度, 経度]` with `"10"`, `"20"` |
| Converter.ScenarioHeaders | script.js:324-330 | the header filter of that scenario leaves `[id]` |
| Converter.ScenarioRowsToTwo | script.js:332-346 | the rows of that scenario map to the single row `{id: "1", 緯度: "10", 経度: "20"}` |
| Converter.ScenarioRowToTwo | script.js:332-345 | the row of that scenario maps to `{id: "1", 緯度: "10", 経度: "20"}` |
| Converter.SplitTenTwenty | script.js:341-343 | `"10,20"` splits into `"10"` and `"20"` |
| Converter.TwoToOneScenario | script.js:347-369 | `[id, lat, lon]` with `"10"`, `"20"` becomes `[id, 座標]` with `"10,20"` |
| Converter.ScenarioTwoHeaders | script.js:349-355 | the header filter of the two-column scenario leaves `[id]` |
| Converter.ScenarioRowsToOne | script.js:357-369 | the rows of the two-column scenario map to the single row `{id: "1", 座標: "10,20"}` |
| FileName.HasCsvExtension | script.js:435 | the `/\.csv$/i` test holds exactly when the name has at least four characters and its last four equal `.csv` up to the case of ASCII letters |
| FileName.StripCsvExtension | script.js:435 | the stripped name is a prefix of the upload name: four characters shorter when the name ends in `.csv` in any case, the whole name otherwise |
| FileName.Suffix | script.js:436 | the suffix is `_2col` or `_1col`, and it is `_2col` if and only if the conversion is single to double |
| FileName.ExportFileName | script.js:435-437 | the name ends in `_2col.csv` exactly for single to double and in `_1col.csv` otherwise, and before the suffix comes the upload name with one trailing case-insensitive `.csv` removed |
| FileName.ExportNameStripsBack | script.js:435-437 | the export name is itself a `.csv` name, and stripping its extension gives the stripped upload name plus the suffix |
| FileName.ExportNameExamples | script.js:435-437 | `data.CSV` gives `data_2col.csv`, and `a.csv.csv` gives `a.csv_1col.csv` (only one extension is removed) |
| Session.CheckChoices | script.js:270-293 | single needs a non-empty column; double needs two non-empty, different columns. Each refusal reason holds exactly in its case, and an accepted layout has the current format |
| Session.Session.constructor | script.js:21-30 | the initial globals: nothing loaded, single to double, no selections and no converted data |
| Session.Session.Load | script.js:115-141 | a parse error changes nothing; parsed data is handled by `LoadTable`; the last conversion result is never cleared |
| Session.Session.LoadTable | script.js:122-141 | rows, headers and file name are replaced before the empty check. An empty table stops there. Otherwise the formats are reset to single to double and the drop-downs are reset, with latitude and longitude detected |
| Session.Session.ResetChoices | script.js:216-246 | refilling the drop-downs empties them; detection then sets latitude and longitude to the last matching header, or `""` |
| Session.Session.SetCurrentFormat | script.js:40-45 | the current-format radio sets the current format |
| Session.Session.SetTargetFormat | script.js:47-51 | the target-format radio sets the target format |
| Session.Session.Convert | script.js:264-305 | the selections for the current format are copied first; the outcome is exactly `CheckChoices`; a refusal leaves the converted data and headers untouched; an acceptance stores the conversion of the loaded table |
| Session.Session.ConvertData | script.js:319-375 | the stored rows and headers are `Converted` of the loaded table for the chosen layout and the target, so the session invariant holds |
| Session.Session.Export | script.js:419-437 | refused exactly when there is no converted data or it has no rows; otherwise it offers the converted rows, which are the conversion of the table they came from, under `ExportFileName` |

`Session.Session.Choose` has no counterpart in `script.js`: it stands for the user picking options in the three drop-downs, whose values the convert button reads.

The session invariant `Session.Session.Valid` says that the converted rows and headers are always `Converted` of the table, layout and target they were computed from, and that both are empty before the first conversion. Every state-changing method preserves it.

Three behaviours of `script.js` that the model keeps as written:

- Loading a file does not clear the previous conversion result. `csvData`, `headers` and `uploadedFileName` are overwritten even when the file then turns out to be empty.
- The convert button copies the drop-down values into `selectedColumn`, `selectedLatColumn` and `selectedLonColumn` before it validates them, so a refused conversion still changes those three.
- The download suffix is taken from the format radio buttons at download time, not from the conversion that produced the data.

## Left out

- The CSV parser (Papa Parse) and `Papa.unparse` are not part of this model. Load takes the parse result as a `ParseResult` value, and Export hands the rows and the name over as a `Download` value. Header-less or malformed CSV text is therefore not modelled.
- File selection, drag and drop, event wiring, the HTML preview, the loading indicator, error messages and the scroll timer are DOM and presentation. They are left out, except that Load and Convert return the error they would show. Convert does not show the one error the preview itself raises: before any file is loaded, the pass-through conversion succeeds and `displayConvertedDataPreview` then fails at `editedData.slice` on `null` (script.js:380).
- The data URI built with `encodeURIComponent` and the anchor click that starts the download are browser APIs and are left out.
- The JSON deep copy in `convertData` is left out. Dafny values are immutable, so the copy is value-equal and cannot be aliased.
- Cell: a field missing from a parsed row is `undefined` in the source. The row mapping (script.js:336, 361) copies a missing kept field as a key whose value is `undefined`, and the coordinate reads use `|| ''`. The model has no `undefined`: every missing cell reads as `""`, so a kept field that was missing is a key holding `""`.
- Before any file is loaded, `csvData` is `null` in the source, and the JSON copy sets `editedData` to `null`. The two reshaping branches set `convertedHeaders` and then throw at `.map` (script.js:332, 357), and the error is shown. The pass-through branch sets `editedData` to `null` and `convertedHeaders` to `[]` without an error. The model starts with an empty table instead, so such a conversion succeeds with no rows. The download is refused either way.
- RowToTwo and RowToOne: rows are maps, so the model keeps no order among a row's fields. In the source, `newRow` gets its fields in header order, then `緯度`, `経度` (script.js:333-343) or `座標` (script.js:358-367).
- Export: `Papa.unparse` gets no column list (script.js:427-430), so the exported columns follow the key order of the row objects, not `convertedHeaders`. With rows as maps, the model cannot say what column order the download has.
- The drop-down values are any strings; that the page only offers loaded headers (or `""`) is not modelled.
- The `try`/`catch` around conversion and download catches exceptions that cannot arise in the model, so it is left out.

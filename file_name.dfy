/**
 The name offered for the exported file: the uploaded name without a trailing
 `.csv` (in any case), then `_2col` for a one-column to two-column conversion
 and `_1col` otherwise, then `.csv`.
 */
module FileName {
  import opened Text
  import opened Converter

  /** `name` ends with `.csv` up to the case of its letters: the test `/\.csv$/i`. */
  predicate HasCsvExtension(name: string)
    ensures HasCsvExtension(name) <==> |name| >= 4 && SameIgnoringAsciiCase(name[|name| - 4..], ".csv")
  {
    if |name| < 4 then false
    else
      ToLowerEqual(name[|name| - 4..], ".csv");
      assert ToLower(".csv") == ".csv";
      ToLower(name[|name| - 4..]) == ".csv"
  }

  /** `name.replace(/\.csv$/i, '')`. */
  function StripCsvExtension(name: string): (r: string)
    ensures |r| <= |name| && r == name[..|r|]
    ensures HasCsvExtension(name) ==> |r| == |name| - 4
    ensures !HasCsvExtension(name) ==> r == name
  {
    if HasCsvExtension(name) then name[..|name| - 4] else name
  }

  /** `_2col` exactly for one column to two, `_1col` for every other pair. */
  function Suffix(current: Format, target: Format): (s: string)
    ensures s == "_2col" || s == "_1col"
    ensures s == "_2col" <==> current == Single && target == Double
  {
    if current == Single && target == Double then "_2col" else "_1col"
  }

  /** The export file name: the upload name with its extension (if any) cut
      off, then the suffix, then a lower-case `.csv`. */
  function ExportFileName(uploaded: string, current: Format, target: Format): (r: string)
    ensures |r| >= 9 && r[|r| - 4..] == ".csv"
    ensures r[|r| - 9..|r| - 4] == (if current == Single && target == Double then "_2col" else "_1col")
    ensures HasCsvExtension(uploaded) ==> r[..|r| - 9] + uploaded[|uploaded| - 4..] == uploaded
    ensures !HasCsvExtension(uploaded) ==> r[..|r| - 9] == uploaded
  {
    var base := StripCsvExtension(uploaded);
    var r := base + Suffix(current, target) + ".csv";
    assert r[..|r| - 9] == base;
    r
  }

  /** The exported name is itself a `.csv` name, and stripping its extension
      gives the stripped upload name followed by the suffix. */
  lemma ExportNameStripsBack(uploaded: string, current: Format, target: Format)
    ensures var r := ExportFileName(uploaded, current, target);
            HasCsvExtension(r)
            && StripCsvExtension(r) == StripCsvExtension(uploaded) + Suffix(current, target)
  {
    var r := ExportFileName(uploaded, current, target);
    assert ToLower(".csv") == ".csv";
    assert r == StripCsvExtension(uploaded) + Suffix(current, target) + ".csv";
    assert r[..|r| - 4] == StripCsvExtension(uploaded) + Suffix(current, target);
  }

  /** Only one extension is cut off, whatever its case: `data.CSV` becomes
      `data_2col.csv` and `a.csv.csv` becomes `a.csv_1col.csv`. */
  lemma ExportNameExamples(upper: string, doubled: string)
    requires upper == "data.CSV" && doubled == "a.csv.csv"
    ensures ExportFileName(upper, Single, Double) == "data_2col.csv"
    ensures ExportFileName(doubled, Double, Single) == "a.csv_1col.csv"
  {
    assert upper[|upper| - 4..] == ".CSV" && upper[..|upper| - 4] == "data";
    assert ToLower(".CSV") == ".csv";
    assert doubled[|doubled| - 4..] == ".csv" && doubled[..|doubled| - 4] == "a.csv";
    assert ToLower(".csv") == ".csv";
    assert "data" + "_2col" + ".csv" == "data_2col.csv";
    assert "a.csv" + "_1col" + ".csv" == "a.csv_1col.csv";
  }
}

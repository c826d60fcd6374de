/**
 The format converter: given the parsed rows, the ordered header list, the
 source layout (one combined coordinate column, or separate latitude and
 longitude columns) and the target format, it derives the new header list and
 the new rows.
 */
module Converter {
  import opened Text

  /** One parsed row: column name to cell text. */
  type Row = map<string, string>

  /** The parsed table: ordered header names and the rows in file order. */
  datatype Table = Table(headers: seq<string>, rows: seq<Row>)

  /** The two coordinate formats, the values `'single'` and `'double'`. */
  datatype Format = Single | Double

  /** A source layout with the column(s) chosen for it. */
  datatype Layout = OneColumn(column: string) | TwoColumn(lat: string, lon: string)
  {
    function Format(): Format {
      match this
      case OneColumn(_) => Single
      case TwoColumn(_, _) => Double
    }
  }

  /** The literal names of the columns the conversion appends. */
  const LatHeader := "緯度"
  const LonHeader := "経度"
  const CoordHeader := "座標"

  /** A cell read as `row[h] || ''`: an absent cell reads as the empty string. */
  function Cell(row: Row, h: string): (v: string)
    ensures h in row ==> v == row[h]
    ensures h !in row ==> v == ""
  {
    if h in row then row[h] else ""
  }

  /** The headers the preview highlights as coordinate columns. */
  predicate IsCoordinateColumn(h: string) {
    h == LatHeader || h == LonHeader || h == CoordHeader
  }

  /** The headers of `hs`, in order, that are not in `drop`. */
  function Without(hs: seq<string>, drop: set<string>): (r: seq<string>)
    ensures |r| <= |hs|
    ensures forall k :: 0 <= k < |r| ==> r[k] in hs && r[k] !in drop
  {
    if hs == [] then []
    else Without(hs[..|hs| - 1], drop) + (if hs[|hs| - 1] in drop then [] else [hs[|hs| - 1]])
  }

  /** A header survives exactly when it was there and is not dropped. */
  lemma {:induction false} WithoutMembers(hs: seq<string>, drop: set<string>, x: string)
    ensures x in Without(hs, drop) <==> x in hs && x !in drop
  {
    if hs != [] {
      var init := hs[..|hs| - 1];
      WithoutMembers(init, drop, x);
      assert hs == init + [hs[|hs| - 1]];
    }
  }

  /** Filtering commutes with concatenation, so the survivors keep their order. */
  lemma {:induction false} WithoutConcat(a: seq<string>, b: seq<string>, drop: set<string>)
    ensures Without(a + b, drop) == Without(a, drop) + Without(b, drop)
  {
    if b == [] {
      assert a + b == a;
    } else {
      var init := b[..|b| - 1];
      WithoutConcat(a, init, drop);
      assert (a + b)[..|a + b| - 1] == a + init;
    }
  }

  /** When nothing is dropped the headers come through unchanged. */
  lemma {:induction false} WithoutNothingDropped(hs: seq<string>, drop: set<string>)
    requires forall i :: 0 <= i < |hs| ==> hs[i] !in drop
    ensures Without(hs, drop) == hs
  {
    if hs != [] {
      WithoutNothingDropped(hs[..|hs| - 1], drop);
    }
  }

  /** `convertedHeaders` as built by the `forEach`/`push` loop: every header
      of `hs`, in order, that is not in `drop`. */
  method KeepHeaders(hs: seq<string>, drop: set<string>) returns (kept: seq<string>)
    ensures kept == Without(hs, drop)
  {
    kept := [];
    var i := 0;
    while i < |hs|
      invariant 0 <= i <= |hs|
      invariant kept == Without(hs[..i], drop)
    {
      assert hs[..i + 1][..i] == hs[..i];
      if hs[i] !in drop {
        kept := kept + [hs[i]];
      }
      i := i + 1;
    }
    assert hs[..|hs|] == hs;
  }

  /** The fields of `row` copied by the row mapping: one per header of
      `headers` not in `drop`, holding that header's cell. */
  function KeptFields(row: Row, headers: seq<string>, drop: set<string>): (m: Row)
    ensures forall h :: h in m <==> h in headers && h !in drop
    ensures forall h :: h in m ==> m[h] == Cell(row, h)
  {
    map h | h in headers && h !in drop :: Cell(row, h)
  }

  /** A combined coordinate split on `,`, each piece trimmed: the first piece is
      the latitude, the second (or `""`) the longitude, the rest are dropped. */
  function SplitCoordinate(coord: string): (latLon: (string, string))
    ensures IsTrimmed(latLon.0) && IsTrimmed(latLon.1)
    ensures ',' !in latLon.0 && ',' !in latLon.1
  {
    var parts := Split(coord, ',');
    TrimChars(parts[0], ',');
    if |parts| > 1 then
      TrimChars(parts[1], ',');
      (Trim(parts[0]), Trim(parts[1]))
    else
      (Trim(parts[0]), "")
  }

  /** The three appended header names differ from one another. */
  lemma AddedHeadersDistinct()
    ensures LatHeader != LonHeader && LatHeader != CoordHeader && LonHeader != CoordHeader
  {
    assert LatHeader[0] != LonHeader[0] && LatHeader[0] != CoordHeader[0] && LonHeader[0] != CoordHeader[0];
  }

  /** `kept` with the latitude and longitude fields set, as the two
      assignments after the copy loop do. */
  function WithLatLon(kept: Row, latLon: (string, string)): (r: Row)
    ensures forall h :: h in r <==> h in kept || h == LatHeader || h == LonHeader
    ensures forall h :: h in kept && h != LatHeader && h != LonHeader ==> r[h] == kept[h]
    ensures r[LatHeader] == latLon.0 && r[LonHeader] == latLon.1
  {
    AddedHeadersDistinct();
    kept[LatHeader := latLon.0][LonHeader := latLon.1]
  }

  /** One row, one coordinate column `col` to two columns. */
  function RowToTwo(row: Row, headers: seq<string>, col: string): (r: Row)
    ensures forall h :: h in r <==> (h in headers && h != col) || h == LatHeader || h == LonHeader
    ensures forall h :: h in headers && h != col && h != LatHeader && h != LonHeader ==> r[h] == Cell(row, h)
    ensures r[LatHeader] == SplitCoordinate(Cell(row, col)).0
    ensures r[LonHeader] == SplitCoordinate(Cell(row, col)).1
  {
    WithLatLon(KeptFields(row, headers, {col}), SplitCoordinate(Cell(row, col)))
  }

  /** One row, two coordinate columns `lat`, `lon` to one column; `座標` is the
      two cells joined as `${lat},${lon}`, with no space. */
  function RowToOne(row: Row, headers: seq<string>, lat: string, lon: string): (r: Row)
    ensures forall h :: h in r <==> (h in headers && h != lat && h != lon) || h == CoordHeader
    ensures forall h :: h in headers && h != lat && h != lon && h != CoordHeader ==> r[h] == Cell(row, h)
    ensures r[CoordHeader] == Cell(row, lat) + "," + Cell(row, lon)
  {
    KeptFields(row, headers, {lat, lon})[CoordHeader := Cell(row, lat) + "," + Cell(row, lon)]
  }

  /** `editedData.map(...)` with `RowToTwo`: every row mapped, in order. */
  function RowsToTwo(rows: seq<Row>, headers: seq<string>, col: string): (r: seq<Row>)
    ensures |r| == |rows|
    ensures forall k :: 0 <= k < |r| ==>
      LatHeader in r[k] && LonHeader in r[k] &&
      r[k][LatHeader] == SplitCoordinate(Cell(rows[k], col)).0 &&
      r[k][LonHeader] == SplitCoordinate(Cell(rows[k], col)).1
  {
    seq(|rows|, i requires 0 <= i < |rows| => RowToTwo(rows[i], headers, col))
  }

  /** `editedData.map(...)` with `RowToOne`: every row mapped, in order. */
  function RowsToOne(rows: seq<Row>, headers: seq<string>, lat: string, lon: string): (r: seq<Row>)
    ensures |r| == |rows|
    ensures forall k :: 0 <= k < |r| ==> CoordHeader in r[k] && r[k][CoordHeader] == Cell(rows[k], lat) + "," + Cell(rows[k], lon)
  {
    seq(|rows|, i requires 0 <= i < |rows| => RowToOne(rows[i], headers, lat, lon))
  }

  /** `convertData` as a function of the loaded table, the source layout and
      the target format. One column to two and two columns to one reshape the
      table; every other pair passes it through. */
  function Converted(t: Table, source: Layout, target: Format): (r: Table)
    ensures |r.rows| == |t.rows|
    ensures source.Format() == target ==> r == t
  {
    match source
    case OneColumn(col) =>
      if target == Double then
        Table(Without(t.headers, {col}) + [LatHeader, LonHeader], RowsToTwo(t.rows, t.headers, col))
      else t
    case TwoColumn(lat, lon) =>
      if target == Single then
        Table(Without(t.headers, {lat, lon}) + [CoordHeader], RowsToOne(t.rows, t.headers, lat, lon))
      else t
  }

  /** One column to two: the headers are the original ones in order without the
      coordinate column, then exactly `緯度`, `経度`. */
  lemma OneToTwoHeaders(t: Table, col: string)
    ensures var hs := Converted(t, OneColumn(col), Double).headers;
      && |hs| >= 2 && hs[|hs| - 2..] == [LatHeader, LonHeader]
      && hs[..|hs| - 2] == Without(t.headers, {col})
      && (forall h :: h in hs[..|hs| - 2] <==> h in t.headers && h != col)
      && (col !in t.headers ==> hs == t.headers + [LatHeader, LonHeader])
  {
    var hs := Converted(t, OneColumn(col), Double).headers;
    assert hs[..|hs| - 2] == Without(t.headers, {col});
    forall h ensures h in hs[..|hs| - 2] <==> h in t.headers && h != col {
      WithoutMembers(t.headers, {col}, h);
    }
    if col !in t.headers {
      WithoutNothingDropped(t.headers, {col});
    }
  }

  /** One column to two, row by row: the row order and count are kept, every
      other field keeps its value (a `座標` column included), the coordinate
      column is gone (unless it is itself named `緯度` or `経度`), and the two
      new fields are the pieces of the coordinate text. */
  lemma OneToTwoRows(t: Table, col: string)
    ensures var r := Converted(t, OneColumn(col), Double);
      && |r.rows| == |t.rows|
      && (forall i, h :: 0 <= i < |t.rows| && h in t.headers && h != col && h != LatHeader && h != LonHeader
            ==> h in r.rows[i] && r.rows[i][h] == Cell(t.rows[i], h))
      && (forall i, h :: 0 <= i < |t.rows| && h in r.rows[i]
            ==> (h in t.headers && h != col) || h == LatHeader || h == LonHeader)
      && (forall i :: 0 <= i < |t.rows| ==>
            (r.rows[i][LatHeader] == SplitCoordinate(Cell(t.rows[i], col)).0
             && r.rows[i][LonHeader] == SplitCoordinate(Cell(t.rows[i], col)).1))
  {
  }

  /** Two columns to one: the headers are the original ones in order without
      both coordinate columns, then exactly `座標`. */
  lemma TwoToOneHeaders(t: Table, lat: string, lon: string)
    ensures var hs := Converted(t, TwoColumn(lat, lon), Single).headers;
      && |hs| >= 1 && hs[|hs| - 1] == CoordHeader
      && hs[..|hs| - 1] == Without(t.headers, {lat, lon})
      && (forall h :: h in hs[..|hs| - 1] <==> h in t.headers && h != lat && h != lon)
      && (lat !in t.headers && lon !in t.headers ==> hs == t.headers + [CoordHeader])
  {
    var hs := Converted(t, TwoColumn(lat, lon), Single).headers;
    assert hs[..|hs| - 1] == Without(t.headers, {lat, lon});
    forall h ensures h in hs[..|hs| - 1] <==> h in t.headers && h != lat && h != lon {
      WithoutMembers(t.headers, {lat, lon}, h);
    }
    if lat !in t.headers && lon !in t.headers {
      WithoutNothingDropped(t.headers, {lat, lon});
    }
  }

  /** Two columns to one, row by row: order and count kept, other fields kept,
      both coordinate columns gone (unless named `座標`), and `座標` is
      `lat + "," + lon` with `""` for a missing side. */
  lemma TwoToOneRows(t: Table, lat: string, lon: string)
    ensures var r := Converted(t, TwoColumn(lat, lon), Single);
      && |r.rows| == |t.rows|
      && (forall i, h :: 0 <= i < |t.rows| && h in t.headers && h != lat && h != lon && h != CoordHeader
            ==> h in r.rows[i] && r.rows[i][h] == Cell(t.rows[i], h))
      && (forall i, h :: 0 <= i < |t.rows| && h in r.rows[i]
            ==> (h in t.headers && h != lat && h != lon) || h == CoordHeader)
      && (forall i :: 0 <= i < |t.rows|
            ==> r.rows[i][CoordHeader] == Cell(t.rows[i], lat) + "," + Cell(t.rows[i], lon))
  {
  }

  /** Every header a conversion adds is one the preview flags as a coordinate column. */
  lemma AddedHeadersAreCoordinateColumns(t: Table, source: Layout, target: Format, h: string)
    requires h in Converted(t, source, target).headers && h !in t.headers
    ensures IsCoordinateColumn(h)
  {
    match source
    case OneColumn(col) =>
      if target == Double {
        WithoutMembers(t.headers, {col}, h);
      }
    case TwoColumn(lat, lon) =>
      if target == Single {
        WithoutMembers(t.headers, {lat, lon}, h);
      }
  }

  /** `"a,b"` with comma-free `a`, `b` gives latitude `trim(a)`, longitude `trim(b)`. */
  lemma CoordinatePair(a: string, b: string)
    requires ',' !in a && ',' !in b
    ensures SplitCoordinate(a + "," + b) == (Trim(a), Trim(b))
  {
    SplitJoin([a, b], ',');
    assert Join([a, b], ',') == a + "," + b;
  }

  /** Pieces after the second are discarded without error. */
  lemma CoordinateExtraPiecesIgnored(a: string, b: string, rest: string)
    requires ',' !in a && ',' !in b
    ensures SplitCoordinate(a + "," + b + "," + rest) == (Trim(a), Trim(b))
  {
    var tail := b + [','] + rest;
    SplitAfterFirst(b, ',', rest);
    SplitAfterFirst(a, ',', tail);
    var parts := Split(a + [','] + tail, ',');
    assert parts == [a] + ([b] + Split(rest, ','));
    assert parts[0] == a && parts[1] == b;
    assert a + "," + b + "," + rest == a + [','] + tail;
  }

  /** Without a comma the whole trimmed text is the latitude and the longitude is empty. */
  lemma CoordinateWithoutComma(a: string)
    requires ',' !in a
    ensures SplitCoordinate(a) == (Trim(a), "")
  {
    SplitNoSeparator(a, ',');
  }

  /** Row `i` of a one-to-two conversion is the mapped row `i`. */
  lemma OneToTwoRowAt(t: Table, col: string, i: nat)
    requires i < |t.rows|
    ensures Converted(t, OneColumn(col), Double).rows[i] == RowToTwo(t.rows[i], t.headers, col)
  {
  }

  /** Row `i` of a two-to-one conversion is the mapped row `i`. */
  lemma TwoToOneRowAt(t: Table, lat: string, lon: string, i: nat)
    requires i < |t.rows|
    ensures Converted(t, TwoColumn(lat, lon), Single).rows[i] == RowToOne(t.rows[i], t.headers, lat, lon)
  {
  }

  /** The two fields a one-to-two row mapping adds. */
  lemma RowToTwoNewFields(row: Row, headers: seq<string>, col: string)
    ensures var r := RowToTwo(row, headers, col);
            LatHeader in r && LonHeader in r
            && r[LatHeader] == SplitCoordinate(Cell(row, col)).0
            && r[LonHeader] == SplitCoordinate(Cell(row, col)).1
  {
  }

  /** The field a two-to-one row mapping adds. */
  lemma RowToOneNewField(row: Row, headers: seq<string>, lat: string, lon: string)
    ensures var r := RowToOne(row, headers, lat, lon);
            CoordHeader in r && r[CoordHeader] == Cell(row, lat) + "," + Cell(row, lon)
  {
  }

  /** One column to two and back, choosing the generated `緯度`, `経度` as the
      source columns: a row whose coordinate text is one comma-separated pair
      gets back the pair with each side trimmed. */
  lemma {:induction false} RoundTripOneTwoOne(t: Table, col: string, i: nat, a: string, b: string)
    requires i < |t.rows| && Cell(t.rows[i], col) == a + "," + b
    requires ',' !in a && ',' !in b
    ensures var two := Converted(t, OneColumn(col), Double);
            var one := Converted(two, TwoColumn(LatHeader, LonHeader), Single);
            Cell(one.rows[i], CoordHeader) == Trim(a) + "," + Trim(b)
  {
    var two := Converted(t, OneColumn(col), Double);
    OneToTwoRowAt(t, col, i);
    var mid := two.rows[i];
    CoordinatePair(a, b);
    RowToTwoNewFields(t.rows[i], t.headers, col);
    TwoToOneRowAt(two, LatHeader, LonHeader, i);
    RowToOneNewField(mid, two.headers, LatHeader, LonHeader);
  }

  /** So the round trip restores the coordinate text exactly when neither side
      has anything to trim. */
  lemma RoundTripOneTwoOneExact(t: Table, col: string, i: nat, a: string, b: string)
    requires i < |t.rows| && Cell(t.rows[i], col) == a + "," + b
    requires ',' !in a && ',' !in b
    ensures var two := Converted(t, OneColumn(col), Double);
            var one := Converted(two, TwoColumn(LatHeader, LonHeader), Single);
            Cell(one.rows[i], CoordHeader) == Cell(t.rows[i], col) <==> IsTrimmed(a) && IsTrimmed(b)
  {
    RoundTripOneTwoOne(t, col, i, a, b);
    TrimmedPairIff(a, b);
  }

  /** A pair reads the same after trimming both pieces exactly when neither
      piece had anything to trim: trimming never lengthens a piece, so a piece
      that kept its length kept everything. */
  lemma TrimmedPairIff(a: string, b: string)
    ensures Trim(a) + "," + Trim(b) == a + "," + b <==> IsTrimmed(a) && IsTrimmed(b)
  {
    if IsTrimmed(a) && IsTrimmed(b) {
      TrimOfTrimmed(a);
      TrimOfTrimmed(b);
    }
    TrimShortens(a);
    TrimShortens(b);
    assert |Trim(a) + "," + Trim(b)| == |Trim(a)| + 1 + |Trim(b)|;
    assert |a + "," + b| == |a| + 1 + |b|;
  }

  /** A coordinate text that is exactly one comma-separated pair with nothing
      to trim on either side. */
  ghost predicate IsTrimmedPair(s: string) {
    exists a, b :: ',' !in a && ',' !in b && IsTrimmed(a) && IsTrimmed(b) && s == a + "," + b
  }

  /** One column to two and back, on any row: the coordinate comes back as the
      two split pieces joined by a comma. */
  lemma RoundTripOneTwoOneAny(t: Table, col: string, i: nat)
    requires i < |t.rows|
    ensures var two := Converted(t, OneColumn(col), Double);
            var one := Converted(two, TwoColumn(LatHeader, LonHeader), Single);
            var latLon := SplitCoordinate(Cell(t.rows[i], col));
            Cell(one.rows[i], CoordHeader) == latLon.0 + "," + latLon.1
  {
    var two := Converted(t, OneColumn(col), Double);
    OneToTwoRowAt(t, col, i);
    RowToTwoNewFields(t.rows[i], t.headers, col);
    TwoToOneRowAt(two, LatHeader, LonHeader, i);
    RowToOneNewField(two.rows[i], two.headers, LatHeader, LonHeader);
  }

  /** The round trip gives a row's coordinate text back unchanged exactly when
      that text is one comma-separated pair with nothing to trim: a text
      without a comma gains one (`"35.6"` becomes `"35.6,"`) and a third piece
      is lost (`"a,b,c"` becomes `"a,b"`). */
  lemma RoundTripRestoresExactly(t: Table, col: string, i: nat)
    requires i < |t.rows|
    ensures var two := Converted(t, OneColumn(col), Double);
            var one := Converted(two, TwoColumn(LatHeader, LonHeader), Single);
            Cell(one.rows[i], CoordHeader) == Cell(t.rows[i], col) <==> IsTrimmedPair(Cell(t.rows[i], col))
  {
    var c := Cell(t.rows[i], col);
    var latLon := SplitCoordinate(c);
    RoundTripOneTwoOneAny(t, col, i);
    if c == latLon.0 + "," + latLon.1 {
      assert IsTrimmedPair(c);
    }
    if IsTrimmedPair(c) {
      var a, b :| ',' !in a && ',' !in b && IsTrimmed(a) && IsTrimmed(b) && c == a + "," + b;
      RoundTripOneTwoOneExact(t, col, i, a, b);
    }
  }

  /** Two columns to one and back restores the latitude and longitude values of
      every row whose values hold no comma and nothing to trim. */
  lemma {:induction false} RoundTripTwoOneTwo(t: Table, lat: string, lon: string, i: nat)
    requires i < |t.rows|
    requires ',' !in Cell(t.rows[i], lat) && ',' !in Cell(t.rows[i], lon)
    requires IsTrimmed(Cell(t.rows[i], lat)) && IsTrimmed(Cell(t.rows[i], lon))
    ensures var one := Converted(t, TwoColumn(lat, lon), Single);
            var two := Converted(one, OneColumn(CoordHeader), Double);
            two.rows[i][LatHeader] == Cell(t.rows[i], lat) && two.rows[i][LonHeader] == Cell(t.rows[i], lon)
  {
    var x, y := Cell(t.rows[i], lat), Cell(t.rows[i], lon);
    var one := Converted(t, TwoColumn(lat, lon), Single);
    TwoToOneRowAt(t, lat, lon, i);
    var mid := one.rows[i];
    RowToOneNewField(t.rows[i], t.headers, lat, lon);
    CoordinatePair(x, y);
    TrimOfTrimmed(x);
    TrimOfTrimmed(y);
    OneToTwoRowAt(one, CoordHeader, i);
    RowToTwoNewFields(mid, one.headers, CoordHeader);
  }

  /** The round trip is not an invariant: a space before each piece, as in
      `" 1, 2"`, is lost and the text comes back as `"1,2"`. */
  lemma RoundTripLosesSpaces(t: Table, col: string, i: nat, one: string, two: string)
    requires i < |t.rows| && Cell(t.rows[i], col) == [' '] + one + [',', ' '] + two
    requires ',' !in one && ',' !in two && IsTrimmed(one) && IsTrimmed(two)
    ensures var two' := Converted(t, OneColumn(col), Double);
            var one' := Converted(two', TwoColumn(LatHeader, LonHeader), Single);
            Cell(one'.rows[i], CoordHeader) == one + "," + two != Cell(t.rows[i], col)
  {
    var a, b := [' '] + one, [' '] + two;
    assert a + "," + b == [' '] + one + [',', ' '] + two;
    RoundTripOneTwoOne(t, col, i, a, b);
    SpacedPiecesTrim(one, two);
  }

  /** One leading space before each piece is dropped by the trim. */
  lemma SpacedPiecesTrim(one: string, two: string)
    requires IsTrimmed(one) && IsTrimmed(two)
    ensures Trim([' '] + one) + "," + Trim([' '] + two) == one + "," + two
  {
    TrimOfTrimmed(one);
    TrimOfTrimmed(two);
    TrimSkipsLeading(' ', one);
    TrimSkipsLeading(' ', two);
  }

  /** The one-column scenario: `[id, coord]`, `{id: "1", coord: "10,20"}`. */
  lemma OneToTwoScenario(t: Table)
    requires t == Table(["id", "coord"], [map["id" := "1", "coord" := "10,20"]])
    ensures Converted(t, OneColumn("coord"), Double)
              == Table(["id", LatHeader, LonHeader], [map["id" := "1", LatHeader := "10", LonHeader := "20"]])
  {
    ScenarioHeaders(t.headers, {"coord"});
    ScenarioRowsToTwo(t.rows, t.headers);
    assert ["id"] + [LatHeader, LonHeader] == ["id", LatHeader, LonHeader];
  }

  /** The rows of the one-column scenario. */
  lemma ScenarioRowsToTwo(rows: seq<Row>, headers: seq<string>)
    requires rows == [map["id" := "1", "coord" := "10,20"]] && headers == ["id", "coord"]
    ensures RowsToTwo(rows, headers, "coord") == [map["id" := "1", LatHeader := "10", LonHeader := "20"]]
  {
    ScenarioRowToTwo(rows[0], headers);
  }

  /** The header filter of the one-column scenario. */
  lemma ScenarioHeaders(hs: seq<string>, drop: set<string>)
    requires hs == ["id", "coord"] && drop == {"coord"}
    ensures Without(hs, drop) == ["id"]
  {
    assert hs[..1] == ["id"];
    assert ["id"][..0] == [];
  }

  /** The row of the one-column scenario. */
  lemma ScenarioRowToTwo(row: Row, headers: seq<string>)
    requires row == map["id" := "1", "coord" := "10,20"] && headers == ["id", "coord"]
    ensures RowToTwo(row, headers, "coord") == map["id" := "1", LatHeader := "10", LonHeader := "20"]
  {
    var kept := KeptFields(row, headers, {"coord"});
    assert kept == map["id" := "1"] by {
      assert kept.Keys == {"id"};
      assert kept["id"] == Cell(row, "id");
    }
    SplitTenTwenty(Cell(row, "coord"));
  }

  /** The coordinate text of the one-column scenario. */
  lemma SplitTenTwenty(coord: string)
    requires coord == "10,20"
    ensures SplitCoordinate(coord) == ("10", "20")
  {
    var a, b := coord[..2], coord[3..];
    assert a == "10" && b == "20";
    assert coord == a + "," + b;
    assert a[0] == '1' && a[1] == '0' && b[0] == '2' && b[1] == '0';
    assert ',' !in a && ',' !in b;
    assert IsTrimmed(a) && IsTrimmed(b);
    TrimOfTrimmed(a);
    TrimOfTrimmed(b);
    CoordinatePair(a, b);
  }

  /** The two-column scenario: `[id, lat, lon]`, `{id: "1", lat: "10", lon: "20"}`. */
  lemma TwoToOneScenario(t: Table)
    requires t == Table(["id", "lat", "lon"], [map["id" := "1", "lat" := "10", "lon" := "20"]])
    ensures Converted(t, TwoColumn("lat", "lon"), Single)
              == Table(["id", CoordHeader], [map["id" := "1", CoordHeader := "10,20"]])
  {
    ScenarioTwoHeaders(t.headers, {"lat", "lon"});
    ScenarioRowsToOne(t.rows, t.headers);
    assert ["id"] + [CoordHeader] == ["id", CoordHeader];
  }

  /** The header filter of the two-column scenario. */
  lemma ScenarioTwoHeaders(hs: seq<string>, drop: set<string>)
    requires hs == ["id", "lat", "lon"] && drop == {"lat", "lon"}
    ensures Without(hs, drop) == ["id"]
  {
    assert hs[..2] == ["id", "lat"] && hs[2] in drop;
    assert Without(hs, drop) == Without(["id", "lat"], drop);
    assert ["id", "lat"][..1] == ["id"] && "lat" in drop;
    assert Without(["id", "lat"], drop) == Without(["id"], drop);
    assert ["id"][..0] == [] && "id" !in drop;
  }

  /** The rows of the two-column scenario. */
  lemma ScenarioRowsToOne(rows: seq<Row>, headers: seq<string>)
    requires rows == [map["id" := "1", "lat" := "10", "lon" := "20"]] && headers == ["id", "lat", "lon"]
    ensures RowsToOne(rows, headers, "lat", "lon") == [map["id" := "1", CoordHeader := "10,20"]]
  {
    var row := RowToOne(rows[0], headers, "lat", "lon");
    assert "10" + "," + "20" == "10,20";
    assert row.Keys == {"id", CoordHeader};
    assert row == map["id" := "1", CoordHeader := "10,20"];
  }
}

/**
 The conversion session: the page-level state of the formatter (the loaded
 table, the chosen formats and columns, the last converted data and the upload
 name) and the three operations that change or read it: loading a parsed file,
 converting, and preparing the download.
 */
module Session {
  import opened Detector
  import opened Converter
  import opened FileName

  datatype Option<T> = None | Some(value: T)

  /** What the CSV parser hands to its `complete` callback: a failure with the
      first error's message, or the header fields and the rows. */
  datatype ParseResult = ParseFailed(message: string) | Parsed(fields: seq<string>, data: seq<Row>)

  datatype LoadOutcome = Loaded | ParseError(message: string) | EmptyFile

  /** Why a conversion was refused. */
  datatype ConvertError = NoCoordinateColumn | NoLatLonColumns | SameLatLonColumns

  /** The outcome of checking the column choices: the source layout to convert
      from, or the reason for refusing. */
  datatype Checked = Accepted(layout: Layout) | Refused(error: ConvertError)

  /** What the download hands to the serializer and the browser. */
  datatype Download = Download(fileName: string, rows: seq<Row>)

  /** The inputs a conversion result was computed from. */
  datatype Provenance = Provenance(table: Table, source: Layout, target: Format)

  /** The checks made before converting: the one-column format needs a chosen
      column; the two-column format needs both columns chosen, and different. */
  function CheckChoices(current: Format, column: string, lat: string, lon: string): (c: Checked)
    ensures c.Accepted? <==> if current == Single then column != "" else lat != "" && lon != "" && lat != lon
    ensures c.Accepted? ==> c.layout.Format() == current
    ensures c.Accepted? && current == Single ==> c.layout == OneColumn(column)
    ensures c.Accepted? && current == Double ==> c.layout == TwoColumn(lat, lon) && lat != lon
    ensures c == Refused(NoCoordinateColumn) <==> current == Single && column == ""
    ensures c == Refused(NoLatLonColumns) <==> current == Double && (lat == "" || lon == "")
    ensures c == Refused(SameLatLonColumns) <==> current == Double && lat != "" && lon != "" && lat == lon
  {
    match current
    case Single =>
      if column == "" then Refused(NoCoordinateColumn) else Accepted(OneColumn(column))
    case Double =>
      if lat == "" || lon == "" then Refused(NoLatLonColumns)
      else if lat == lon then Refused(SameLatLonColumns)
      else Accepted(TwoColumn(lat, lon))
  }

  class Session {
    var csvData: seq<Row>
    var headers: seq<string>
    var currentFormat: Format
    var targetFormat: Format
    var selectedColumn: string
    var selectedLatColumn: string
    var selectedLonColumn: string
    var editedData: Option<seq<Row>>
    var convertedHeaders: seq<string>
    var uploadedFileName: string

    /** The values of the coordinate-column, latitude and longitude drop-downs. */
    var columnChoice: string
    var latChoice: string
    var lonChoice: string

    /** The table and layouts the current `editedData` was converted from. */
    ghost var provenance: Option<Provenance>

    /** The converted data and headers are always the conversion of some table
        that was loaded at the time; none before the first conversion. */
    ghost predicate Valid()
      reads this`provenance, this`editedData, this`convertedHeaders
    {
      match provenance
      case None => editedData == None && convertedHeaders == []
      case Some(p) =>
        var r := Converted(p.table, p.source, p.target);
        editedData == Some(r.rows) && convertedHeaders == r.headers
    }

    /** The initial state: nothing loaded, one column to two columns chosen. */
    constructor ()
      ensures Valid()
      ensures csvData == [] && headers == [] && uploadedFileName == ""
      ensures currentFormat == Single && targetFormat == Double
      ensures selectedColumn == "" && selectedLatColumn == "" && selectedLonColumn == ""
      ensures editedData == None && convertedHeaders == []
      ensures columnChoice == "" && latChoice == "" && lonChoice == ""
    {
      csvData, headers := [], [];
      currentFormat, targetFormat := Single, Double;
      selectedColumn, selectedLatColumn, selectedLonColumn := "", "", "";
      editedData, convertedHeaders := None, [];
      uploadedFileName := "";
      columnChoice, latChoice, lonChoice := "", "", "";
      provenance := None;
    }

    /** The parser's `complete` callback for the file `fileName`. A parse error
        changes nothing; parsed rows go on to `LoadTable`. */
    method Load(parsed: ParseResult, fileName: string) returns (outcome: LoadOutcome)
      requires Valid()
      modifies this`csvData, this`headers, this`uploadedFileName, this`currentFormat, this`targetFormat
      modifies this`columnChoice, this`latChoice, this`lonChoice
      ensures Valid()
      ensures parsed.ParseFailed? ==>
        && outcome == ParseError(parsed.message)
        && csvData == old(csvData) && headers == old(headers) && uploadedFileName == old(uploadedFileName)
        && currentFormat == old(currentFormat) && targetFormat == old(targetFormat)
        && columnChoice == old(columnChoice) && latChoice == old(latChoice) && lonChoice == old(lonChoice)
      ensures parsed.Parsed? ==> LoadedTable(parsed.fields, parsed.data, fileName, outcome)
      ensures editedData == old(editedData) && convertedHeaders == old(convertedHeaders)
    {
      match parsed
      case ParseFailed(message) =>
        outcome := ParseError(message);
      case Parsed(fields, data) =>
        outcome := LoadTable(fields, data, fileName);
    }

    /** The state after `LoadTable(fields, data, fileName)` returned `outcome`,
        given the state before. */
    twostate predicate LoadedTable(fields: seq<string>, data: seq<Row>, fileName: string, outcome: LoadOutcome)
      reads this
    {
      && csvData == data && headers == fields && uploadedFileName == fileName
      && (if |data| == 0 || |fields| == 0 then
            && outcome == EmptyFile
            && currentFormat == old(currentFormat) && targetFormat == old(targetFormat)
            && columnChoice == old(columnChoice) && latChoice == old(latChoice) && lonChoice == old(lonChoice)
          else
            && outcome == Loaded
            && currentFormat == Single && targetFormat == Double
            && columnChoice == ""
            && latChoice == LastMatch(fields, Latitude, "")
            && lonChoice == LastMatch(fields, Longitude, ""))
    }

    /** The rows, headers and name are replaced before the empty check; a
        non-empty table also resets the drop-downs, pre-selects the detected
        latitude and longitude columns and resets the formats to one column to
        two. The last conversion result is kept. */
    method LoadTable(fields: seq<string>, data: seq<Row>, fileName: string) returns (outcome: LoadOutcome)
      modifies this`csvData, this`headers, this`uploadedFileName, this`currentFormat, this`targetFormat
      modifies this`columnChoice, this`latChoice, this`lonChoice
      ensures LoadedTable(fields, data, fileName, outcome)
    {
      csvData := data;
      headers := fields;
      uploadedFileName := fileName;
      if |csvData| == 0 || |headers| == 0 {
        return EmptyFile;
      }
      ResetChoices();
      currentFormat := Single;
      targetFormat := Double;
      outcome := Loaded;
    }

    /** `populateColumnSelects`: the three drop-downs are refilled (so back to
        no choice) and the detector then pre-selects latitude and longitude. */
    method ResetChoices()
      modifies this`columnChoice, this`latChoice, this`lonChoice
      ensures columnChoice == ""
      ensures latChoice == LastMatch(headers, Latitude, "")
      ensures lonChoice == LastMatch(headers, Longitude, "")
    {
      columnChoice, latChoice, lonChoice := "", "", "";
      latChoice, lonChoice := DetectColumns(headers, latChoice, lonChoice);
    }

    /** The change handler of the current-format radio buttons. */
    method SetCurrentFormat(f: Format)
      modifies this`currentFormat
      ensures currentFormat == f
    {
      currentFormat := f;
    }

    /** The change handler of the target-format radio buttons. */
    method SetTargetFormat(f: Format)
      modifies this`targetFormat
      ensures targetFormat == f
    {
      targetFormat := f;
    }

    /** The user picks values in the three column drop-downs. */
    method Choose(column: string, lat: string, lon: string)
      modifies this`columnChoice, this`latChoice, this`lonChoice
      ensures columnChoice == column && latChoice == lat && lonChoice == lon
    {
      columnChoice, latChoice, lonChoice := column, lat, lon;
    }

    /** The convert button. The drop-down values for the current format are
        copied into the selections first, then checked; only when the check
        passes is the data converted, otherwise the previous result stays. */
    method Convert() returns (checked: Checked)
      requires Valid()
      modifies this
      ensures Valid()
      ensures checked == CheckChoices(old(currentFormat), old(columnChoice), old(latChoice), old(lonChoice))
      ensures csvData == old(csvData) && headers == old(headers) && uploadedFileName == old(uploadedFileName)
      ensures currentFormat == old(currentFormat) && targetFormat == old(targetFormat)
      ensures columnChoice == old(columnChoice) && latChoice == old(latChoice) && lonChoice == old(lonChoice)
      ensures currentFormat == Single ==>
        && selectedColumn == columnChoice
        && selectedLatColumn == old(selectedLatColumn) && selectedLonColumn == old(selectedLonColumn)
      ensures currentFormat == Double ==>
        && selectedColumn == old(selectedColumn)
        && selectedLatColumn == latChoice && selectedLonColumn == lonChoice
      ensures checked.Refused? ==>
        && editedData == old(editedData) && convertedHeaders == old(convertedHeaders)
        && provenance == old(provenance)
      ensures checked.Accepted? ==>
        && provenance == Some(Provenance(Table(headers, csvData), checked.layout, targetFormat))
        && editedData == Some(Converted(Table(headers, csvData), checked.layout, targetFormat).rows)
        && convertedHeaders == Converted(Table(headers, csvData), checked.layout, targetFormat).headers
    {
      var layout: Layout;
      if currentFormat == Single {
        selectedColumn := columnChoice;
        if selectedColumn == "" {
          return Refused(NoCoordinateColumn);
        }
        layout := OneColumn(selectedColumn);
      } else {
        selectedLatColumn := latChoice;
        selectedLonColumn := lonChoice;
        if selectedLatColumn == "" || selectedLonColumn == "" {
          return Refused(NoLatLonColumns);
        }
        if selectedLatColumn == selectedLonColumn {
          return Refused(SameLatLonColumns);
        }
        layout := TwoColumn(selectedLatColumn, selectedLonColumn);
      }
      ConvertData(layout);
      checked := Accepted(layout);
    }

    /** `convertData`: rebuild the converted headers with the filtering loop
        and the converted rows with the row mapping, or pass the table through
        when the formats do not call for a reshaping. */
    method ConvertData(source: Layout)
      requires source.Format() == currentFormat
      modifies this`editedData, this`convertedHeaders, this`provenance
      ensures Valid()
      ensures provenance == Some(Provenance(Table(headers, csvData), source, targetFormat))
      ensures editedData == Some(Converted(Table(headers, csvData), source, targetFormat).rows)
      ensures convertedHeaders == Converted(Table(headers, csvData), source, targetFormat).headers
    {
      if currentFormat == Single && targetFormat == Double {
        var kept := KeepHeaders(headers, {source.column});
        convertedHeaders := kept + [LatHeader, LonHeader];
        editedData := Some(RowsToTwo(csvData, headers, source.column));
      } else if currentFormat == Double && targetFormat == Single {
        var kept := KeepHeaders(headers, {source.lat, source.lon});
        convertedHeaders := kept + [CoordHeader];
        editedData := Some(RowsToOne(csvData, headers, source.lat, source.lon));
      } else {
        convertedHeaders := headers;
        editedData := Some(csvData);
      }
      provenance := Some(Provenance(Table(headers, csvData), source, targetFormat));
    }

    /** `downloadCSV`: refused without converted rows; otherwise the converted
        rows go to the serializer under the export file name, whose suffix
        follows the formats chosen now. */
    method Export() returns (download: Option<Download>)
      requires Valid()
      ensures download.None? <==> editedData.None? || |editedData.value| == 0
      ensures download.Some? ==>
        && download.value.fileName == ExportFileName(uploadedFileName, currentFormat, targetFormat)
        && download.value.rows == editedData.value
      ensures download.Some? ==>
        var p := provenance.value;
        && download.value.rows == Converted(p.table, p.source, p.target).rows
        && |download.value.rows| == |p.table.rows|
    {
      if editedData.None? || |editedData.value| == 0 {
        return None;
      }
      var fileName := ExportFileName(uploadedFileName, currentFormat, targetFormat);
      download := Some(Download(fileName, editedData.value));
    }
  }
}

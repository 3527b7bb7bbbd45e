/**
 * The log analyzer window's state and its two actions: loading a sign-in
 * export and analysing it against the country selected in the drop-down.
 */
module Analyzer {

  import opened Wrappers
  import opened Classifier
  import opened Countries

  /**
   * What one press of "Analyze" produces.
   *   NotReady:        no file loaded, or no usable name selected ("Please load a CSV file and select a valid country.")
   *   LookupFailed:    the registry does not resolve the name (the exception reported as "An error occurred")
   *   MissingLocation: the export has no `Location` column
   *   Report:          the code, the count and the reported rows with their Location cells
   */
  datatype Outcome =
    | NotReady
    | LookupFailed
    | MissingLocation
    | Report(code: Alpha2, count: nat, indices: seq<nat>, locations: seq<Option<string>>)

  /** The summary line "Sign-ins from outside CODE: COUNT". */
  datatype Summary = Summary(code: Alpha2, count: nat)

  /** One line of the details view: "Row NUMBER: USERNAME, LOCATION". */
  datatype Detail = Detail(rowNumber: int, username: string, location: string)

  /** How a cell prints in an f-string: its text, or "nan" for a NaN cell. */
  function CellText(cell: Option<string>): string
  {
    match cell
    case Some(s) => s
    case None => "nan"
  }

  /**
   * The analysis as one function of the loaded table, the drop-down's text
   * and the registry's name lookup (a partial map from names to codes).
   */
  function Analyze(data: Option<Table>, selected: string, lookup: map<string, Alpha2>): (o: Outcome)
    ensures o.NotReady? <==> data.None? || selected == "" || selected == Separator
    ensures o.LookupFailed? <==> !o.NotReady? && selected !in lookup
    ensures o.MissingLocation? <==> !o.NotReady? && selected in lookup && !data.value.hasLocation
    ensures o.Report? ==>
              && data.Some? && selected in lookup && o.code == lookup[selected]
              && o.count == |o.indices| == |o.locations|
              && o.count == |data.value.rows| - HomeCount(data.value.rows, o.code)
              && StrictlyIncreasing(o.indices)
              && (forall i :: i in o.indices <==> 0 <= i < |data.value.rows| && !IsHome(data.value.rows[i].location, o.code))
              && (forall k :: 0 <= k < |o.indices| ==> o.indices[k] < |data.value.rows|)
              && (forall k :: 0 <= k < |o.indices| ==> o.locations[k] == data.value.rows[o.indices[k]].location)
  {
    if data.None? || selected == "" || selected == Separator then NotReady
    else if selected !in lookup then LookupFailed
    else if !data.value.hasLocation then MissingLocation
    else
      var code := lookup[selected];
      var rows := data.value.rows;
      var indices := MismatchIndices(rows, code);
      MismatchIndicesSpec(rows, code);
      MismatchCount(rows, code);
      Report(code, |indices|, indices, MismatchLocations(rows, indices))
  }

  /** An export without rows is analysed without error: nothing is reported. */
  lemma EmptyExportReportsNothing(hasUsername: bool, selected: string, lookup: map<string, Alpha2>)
    requires selected != "" && selected != Separator && selected in lookup
    ensures Analyze(Some(Table(true, hasUsername, [])), selected, lookup) == Report(lookup[selected], 0, [], [])
  {
  }

  /** An export without a Location column is refused as a whole, with no partial report. */
  lemma MissingColumnRefused(hasUsername: bool, rows: seq<Row>, selected: string, lookup: map<string, Alpha2>)
    requires selected != "" && selected != Separator && selected in lookup
    ensures Analyze(Some(Table(false, hasUsername, rows)), selected, lookup) == MissingLocation
  {
  }

  /** The details line of one reported row: its 1-based file line number (after the header), its user, its location. */
  function DetailOf(t: Table, index: nat, location: Option<string>): Detail
    requires index < |t.rows|
  {
    Detail(index + 2, if t.hasUsername then CellText(t.rows[index].username) else "N/A", CellText(location))
  }

  /** The lines of the details view for the pairs of `zip(indices, locations)`. */
  function DetailLines(t: Table, indices: seq<nat>, locations: seq<Option<string>>): (lines: seq<Detail>)
    requires forall k :: 0 <= k < |indices| ==> indices[k] < |t.rows|
    ensures |lines| <= |indices| && |lines| <= |locations|
    ensures |lines| == |indices| || |lines| == |locations|
    ensures forall k :: 0 <= k < |lines| ==> lines[k].rowNumber == indices[k] + 2
  {
    var n := if |indices| <= |locations| then |indices| else |locations|;
    seq(n, k requires 0 <= k < n => DetailOf(t, indices[k], locations[k]))
  }

  /**
   * A report's details view: one line per reported row, numbered in
   * increasing file-line order, each naming a row that is not home with its
   * Location text, and "N/A" as user exactly when there is no Username column;
   * every row that is not home has its line.
   */
  lemma ReportDetails(data: Option<Table>, selected: string, lookup: map<string, Alpha2>)
    requires Analyze(data, selected, lookup).Report?
    ensures var o := Analyze(data, selected, lookup);
            var t := data.value;
            var lines := DetailLines(t, o.indices, o.locations);
            && |lines| == o.count
            && (forall a, b :: 0 <= a < b < |lines| ==> lines[a].rowNumber < lines[b].rowNumber)
            && (forall k :: 0 <= k < |lines| ==>
                  && lines[k].rowNumber == o.indices[k] + 2
                  && 2 <= lines[k].rowNumber < |t.rows| + 2
                  && !IsHome(t.rows[lines[k].rowNumber - 2].location, o.code)
                  && lines[k].location == CellText(t.rows[lines[k].rowNumber - 2].location)
                  && (!t.hasUsername ==> lines[k].username == "N/A")
                  && (t.hasUsername ==> lines[k].username == CellText(t.rows[lines[k].rowNumber - 2].username)))
            && (forall i :: 0 <= i < |t.rows| && !IsHome(t.rows[i].location, o.code) ==>
                  exists k :: 0 <= k < |lines| && lines[k].rowNumber == i + 2)
  {
    var o := Analyze(data, selected, lookup);
    var t := data.value;
    var lines := DetailLines(t, o.indices, o.locations);
    forall k | 0 <= k < |lines|
      ensures lines[k].rowNumber == o.indices[k] + 2
      ensures !IsHome(t.rows[o.indices[k]].location, o.code)
    {
      assert o.indices[k] in o.indices;
    }
  }

  /** How a press of "Open Log File" ended. */
  datatype LoadStatus = Cancelled | Loaded | LoadFailed

  /** The analyzer window: the chosen file, the loaded table, the drop-down, the summary label and the details view. */
  class SignInLogAnalyzer {
    var filename: Option<string>
    var data: Option<Table>
    const dropdown: CountrySearchDropdown
    var summary: Option<Summary>
    var details: seq<Detail>

    /** A fresh window: nothing loaded, "United Kingdom" selected, empty result widgets. */
    constructor (registryNames: seq<string>)
      ensures filename == None && data == None
      ensures fresh(dropdown)
      ensures dropdown.countries == CountryList(registryNames)
      ensures dropdown.filteredCountries == dropdown.countries && dropdown.values == dropdown.countries
      ensures dropdown.selection == "United Kingdom"
      ensures summary == None && details == []
    {
      filename := None;
      data := None;
      var d := new CountrySearchDropdown(registryNames);
      d.Set("United Kingdom");
      dropdown := d;
      summary := None;
      details := [];
    }

    /**
     * "Open Log File": `chosen` is the path the file dialog returns ("" when
     * cancelled), `parsed` the table CSV parsing yields (None when it fails).
     * The path is always recorded; the table is replaced only on a
     * successful load, so a failed or cancelled load keeps the previous one.
     */
    method LoadFile(chosen: string, parsed: Option<Table>) returns (status: LoadStatus)
      modifies this`filename, this`data
      ensures filename == Some(chosen)
      ensures status == (if chosen == "" then Cancelled else if parsed.None? then LoadFailed else Loaded)
      ensures data == if status == Loaded then parsed else old(data)
    {
      filename := Some(chosen);
      if chosen == "" {
        status := Cancelled;
      } else if parsed.None? {
        status := LoadFailed;
      } else {
        data := parsed;
        status := Loaded;
      }
    }

    /**
     * "Analyze": on a report, set the summary and rewrite the details view;
     * on any error leave both as they were (no partial result).
     */
    method AnalyzeLogs(lookup: map<string, Alpha2>) returns (outcome: Outcome)
      modifies this`summary, this`details
      ensures outcome == Analyze(data, dropdown.selection, lookup)
      ensures outcome.Report? ==>
                && summary == Some(Summary(outcome.code, outcome.count))
                && details == DetailLines(data.value, outcome.indices, outcome.locations)
      ensures !outcome.Report? ==> summary == old(summary) && details == old(details)
    {
      var selected := dropdown.selection;
      if data.None? || selected == "" || selected == Separator {
        outcome := NotReady;
      } else if selected !in lookup {
        outcome := LookupFailed;
      } else if !data.value.hasLocation {
        outcome := MissingLocation;
      } else {
        var code := lookup[selected];
        var rows := data.value.rows;
        var indices := MismatchIndices(rows, code);
        var locations := MismatchLocations(rows, indices);
        summary := Some(Summary(code, |locations|));
        DisplayDetails(indices, locations);
        outcome := Report(code, |locations|, indices, locations);
      }
    }

    /** Clear the details view, then add one line per pair of `zip(indices, locations)`. */
    method DisplayDetails(indices: seq<nat>, locations: seq<Option<string>>)
      requires data.Some?
      requires forall k :: 0 <= k < |indices| ==> indices[k] < |data.value.rows|
      modifies this`details
      ensures details == DetailLines(data.value, indices, locations)
    {
      var t := data.value;
      var n := if |indices| <= |locations| then |indices| else |locations|;
      details := [];
      var k := 0;
      while k < n
        invariant 0 <= k <= n
        invariant |details| == k
        invariant forall j :: 0 <= j < k ==> details[j] == DetailOf(t, indices[j], locations[j])
      {
        var index := indices[k];
        var username := if t.hasUsername then CellText(t.rows[index].username) else "N/A";
        details := details + [Detail(index + 2, username, CellText(locations[k]))];
        k := k + 1;
      }
    }
  }
}

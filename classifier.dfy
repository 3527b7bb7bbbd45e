/**
 * The sign-in classifier: which rows of a sign-in export count as coming
 * from the selected home country, and which rows are reported.
 *
 * A row is "home" when its Location ends with a comma, any amount of
 * whitespace and the country's ISO 3166-1 alpha-2 code, compared without
 * regard to case; a Location cell that pandas read as NaN is never home.
 * Every other row is reported, in file order.
 */
module Classifier {

  import opened Wrappers
  import opened Text
  import opened Lists

  /** Two upper-case ASCII letters, the form of every registry `alpha_2` code. */
  predicate IsAlpha2(s: string)
  {
    |s| == 2 && 'A' <= s[0] <= 'Z' && 'A' <= s[1] <= 'Z'
  }

  type Alpha2 = s: string | IsAlpha2(s) witness "GB"

  /**
   * One sign-in record: the text of its Location and Username cells, `None`
   * where pandas read the cell as NaN (an empty CSV field).
   */
  datatype Row = Row(location: Option<string>, username: Option<string>)

  /**
   * A loaded sign-in export: which of the two columns the analyzer looks at
   * are present, and the records in file order (the position in `rows` is
   * the DataFrame's default integer index).
   */
  datatype Table = Table(hasLocation: bool, hasUsername: bool, rows: seq<Row>)

  // ---------------------------------------------------------------------------
  // The home-country test

  /**
   * Reading `s` backwards from its end: zero or more whitespace characters,
   * then a comma.
   */
  function CommaThenSpaces(s: string): bool
    decreases |s|
  {
    if s == [] then false
    else if s[|s| - 1] == ',' then true
    else if IsSpace(s[|s| - 1]) then CommaThenSpaces(s[..|s| - 1])
    else false
  }

  /** `s` ends, ignoring case, with a comma, optional whitespace and `code`. */
  function EndsWithCode(s: string, code: Alpha2): bool
  {
    |s| >= 3 && EqualIgnoreCase(s[|s| - 2..], code) && CommaThenSpaces(s[..|s| - 2])
  }

  /**
   * The row test of the analysis: the pattern `,\s*CODE$` searched for with
   * `case=False, na=False`. A NaN cell never matches; `$` also matches just
   * before one final newline.
   */
  function IsHome(location: Option<string>, code: Alpha2): (home: bool)
    ensures home ==> location.Some? && |location.value| >= 3
  {
    match location
    case None => false
    case Some(s) =>
      EndsWithCode(s, code)
      || (|s| > 0 && s[|s| - 1] == '\n' && EndsWithCode(s[..|s| - 1], code))
  }

  /** Declarative reading of the pattern: the comma at `i` is followed only by whitespace up to the code. */
  ghost predicate PatternAt(s: string, code: Alpha2, i: int)
  {
    && 0 <= i
    && i + 3 <= |s|
    && s[i] == ','
    && (forall j :: i < j < |s| - 2 ==> IsSpace(s[j]))
    && EqualIgnoreCase(s[|s| - 2..], code)
  }

  /** Some comma of `s` starts a match of the pattern that ends at the end of `s`. */
  ghost predicate PatternAtEnd(s: string, code: Alpha2)
  {
    exists i :: PatternAt(s, code, i)
  }

  /** What `re.search(",\s*CODE$", s, re.IGNORECASE)` finds: a match ending at the end of `s` or before a final newline. */
  ghost predicate PatternFound(s: string, code: Alpha2)
  {
    PatternAtEnd(s, code) || (|s| > 0 && s[|s| - 1] == '\n' && PatternAtEnd(s[..|s| - 1], code))
  }

  /** A position `i` holding a comma with only whitespace after it. */
  ghost predicate CommaAt(s: string, i: int)
  {
    0 <= i < |s| && s[i] == ',' && forall j :: i < j < |s| ==> IsSpace(s[j])
  }

  /** The backward scan succeeds exactly when such a comma exists. */
  lemma {:induction false} CommaThenSpacesIff(s: string)
    ensures CommaThenSpaces(s) <==> exists i :: CommaAt(s, i)
    decreases |s|
  {
    if s == [] {
    } else if s[|s| - 1] == ',' {
      assert CommaAt(s, |s| - 1);
    } else {
      var init := s[..|s| - 1];
      forall i | CommaAt(s, i)
        ensures CommaAt(init, i) && IsSpace(s[|s| - 1])
      {
      }
      if IsSpace(s[|s| - 1]) {
        CommaThenSpacesIff(init);
        if i :| CommaAt(init, i) {
          assert CommaAt(s, i);
        }
      }
    }
  }

  /** The suffix check agrees with the pattern, for strings that end where `$` matches. */
  lemma EndsWithCodeIff(s: string, code: Alpha2)
    ensures EndsWithCode(s, code) <==> PatternAtEnd(s, code)
  {
    if |s| >= 3 {
      var init := s[..|s| - 2];
      CommaThenSpacesIff(init);
      if EndsWithCode(s, code) {
        var i :| CommaAt(init, i);
        assert PatternAt(s, code, i);
      }
      if i :| PatternAt(s, code, i) {
        assert CommaAt(init, i);
      }
    }
  }

  /**
   * The row test holds exactly when the search pattern is found: the
   * explicit suffix scan is the regular expression of the analysis.
   */
  lemma IsHomeIff(s: string, code: Alpha2)
    ensures IsHome(Some(s), code) <==> PatternFound(s, code)
  {
    EndsWithCodeIff(s, code);
    if |s| > 0 {
      EndsWithCodeIff(s[..|s| - 1], code);
    }
  }

  /** A location that does not end in the code's two letters is never home, whatever precedes them. */
  lemma OtherSuffixNotHome(s: string, code: Alpha2)
    requires |s| >= 2 && !EqualIgnoreCase(s[|s| - 2..], code)
    requires s[|s| - 1] != '\n'
    ensures !IsHome(Some(s), code)
  {
  }

  // ---------------------------------------------------------------------------
  // The mismatch partition

  /**
   * The mask of the analysis, inverted: the positions of the rows that are not
   * home, in increasing order.
   */
  function MismatchIndices(rows: seq<Row>, code: Alpha2): (r: seq<nat>)
    ensures |r| <= |rows|
    ensures forall k :: 0 <= k < |r| ==> r[k] < |rows|
    decreases |rows|
  {
    if rows == [] then []
    else
      var last := |rows| - 1;
      MismatchIndices(rows[..last], code) + (if IsHome(rows[last].location, code) then [] else [last])
  }

  /** The number of home rows. */
  function HomeCount(rows: seq<Row>, code: Alpha2): (n: nat)
    ensures n <= |rows|
    decreases |rows|
  {
    if rows == [] then 0
    else
      var last := |rows| - 1;
      HomeCount(rows[..last], code) + (if IsHome(rows[last].location, code) then 1 else 0)
  }

  ghost predicate StrictlyIncreasing(s: seq<nat>)
  {
    forall a, b :: 0 <= a < b < |s| ==> s[a] < s[b]
  }

  /**
   * The reported positions are exactly the rows that are not home (a NaN
   * Location among them), each once and in file order.
   */
  lemma {:induction false} MismatchIndicesSpec(rows: seq<Row>, code: Alpha2)
    ensures StrictlyIncreasing(MismatchIndices(rows, code))
    ensures forall i :: i in MismatchIndices(rows, code) <==> 0 <= i < |rows| && !IsHome(rows[i].location, code)
    decreases |rows|
  {
    if rows != [] {
      var last := |rows| - 1;
      var init := rows[..last];
      MismatchIndicesSpec(init, code);
      assert forall i :: 0 <= i < last ==> init[i] == rows[i];
    }
  }

  /** Nothing is double-counted or dropped: reported rows are all rows minus the home rows. */
  lemma {:induction false} MismatchCount(rows: seq<Row>, code: Alpha2)
    ensures |MismatchIndices(rows, code)| == |rows| - HomeCount(rows, code)
    decreases |rows|
  {
    if rows != [] {
      MismatchCount(rows[..|rows| - 1], code);
    }
  }

  /** The Location cells of the reported rows, in the same order (the masked column). */
  function MismatchLocations(rows: seq<Row>, indices: seq<nat>): (r: seq<Option<string>>)
    requires forall k :: 0 <= k < |indices| ==> indices[k] < |rows|
    ensures |r| == |indices|
    ensures forall k :: 0 <= k < |r| ==> r[k] == rows[indices[k]].location
  {
    seq(|indices|, k requires 0 <= k < |indices| => rows[indices[k]].location)
  }

  /** The mask of the analysis as a row test: the row is not home. */
  function IsMismatch(code: Alpha2): Row -> bool
  {
    (row: Row) => !IsHome(row.location, code)
  }

  /** The Location column of some rows. */
  function LocationColumn(rows: seq<Row>): seq<Option<string>>
  {
    seq(|rows|, k requires 0 <= k < |rows| => rows[k].location)
  }

  /**
   * Looking up the Location of each reported position gives the Location
   * column of the rows the mask keeps, `data.loc[mask, 'Location']`.
   */
  lemma {:induction false} LocationsAreMaskedColumn(rows: seq<Row>, code: Alpha2)
    ensures MismatchLocations(rows, MismatchIndices(rows, code)) == LocationColumn(Filter(IsMismatch(code), rows))
    decreases |rows|
  {
    if rows != [] {
      var last := |rows| - 1;
      var init := rows[..last];
      LocationsAreMaskedColumn(init, code);
      assert rows == init + [rows[last]];
      FilterAppend(IsMismatch(code), init, [rows[last]]);
      assert [rows[last]][1..] == [];
      var before := MismatchIndices(init, code);
      assert forall k :: 0 <= k < |before| ==> rows[before[k]] == init[before[k]];
    }
  }

  // ---------------------------------------------------------------------------
  // Worked examples

  /** London is home for GB; Paris and an empty (NaN) Location are reported, in that order. */
  lemma ExampleMixedRows()
    ensures MismatchIndices([Row(Some("London, England, GB"), None), Row(Some("Paris, FR"), None), Row(None, None)], "GB") == [1, 2]
  {
    var london, paris := "London, England, GB", "Paris, FR";
    assert london[|london| - 2..] == "GB" && london[..|london| - 2] == "London, England, ";
    assert "London, England, "[..16] == "London, England,";
    assert IsHome(Some(london), "GB");
    assert paris[|paris| - 2..] == "FR" && Lower("FR") != Lower("GB") by {
      assert Lower("FR")[0] == 'f';
    }
    assert !IsHome(Some(paris), "GB");
    var rows := [Row(Some(london), None), Row(Some(paris), None), Row(None, None)];
    assert rows[..2][..1] == [rows[0]];
    assert rows[..2][..1][..0] == [];
  }

  /** Case is ignored on both sides, and so is the whitespace between the comma and the code. */
  lemma ExampleCaseAndSpacing()
    ensures IsHome(Some("dubai, uae, ae"), "AE")
    ensures IsHome(Some("Leeds,\t GB\n"), "GB")
    ensures !IsHome(Some("Leeds GB"), "GB")
  {
    var dubai := "dubai, uae, ae";
    assert dubai[|dubai| - 2..] == "ae" && Lower("ae") == Lower("AE");
    assert dubai[..|dubai| - 2] == "dubai, uae, ";
    assert "dubai, uae, "[..11] == "dubai, uae,";
    var leeds := "Leeds,\t GB\n";
    var line := leeds[..|leeds| - 1];
    assert line == "Leeds,\t GB" && line[|line| - 2..] == "GB" && line[..|line| - 2] == "Leeds,\t ";
    assert CommaThenSpaces("Leeds,\t ") by {
      assert "Leeds,\t "[..7] == "Leeds,\t";
      assert "Leeds,\t"[..6] == "Leeds,";
    }
    var plain := "Leeds GB";
    assert plain[..|plain| - 2] == "Leeds " && "Leeds "[..5] == "Leeds";
    assert !CommaThenSpaces("Leeds");
  }
}

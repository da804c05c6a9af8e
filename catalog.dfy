/**
 * The district list: every location-like value found in any row of any
 * cleaned dataset, de-duplicated through a set and sorted for the selector.
 */
module Catalog {
  import opened Wrappers
  import opened Text
  import opened Rows

  /** Every column name the catalog inspects, in the order it inspects them. */
  const LocationFields: seq<string> := [
    "District", "district", "DISTRICT",
    "City", "city", "CITY",
    "Location", "location", "LOCATION",
    "State", "state", "STATE",
    "Region", "region", "REGION",
    "Place", "place", "PLACE"
  ]

  const NoDistrictsMessage: string :=
    "No districts found in CSV files. Please check your CSV structure and column names."

  /** Row `r` contributes `x` through column `f`: a string there that trims to the non-empty `x`. */
  predicate Offers(r: Row, f: string, x: string) {
    var v := Get(r, f);
    v.Some? && v.value.Str? && x != "" && Trim(v.value.s) == x
  }

  /** What one cell adds to the set: its trimmed string, when that is not empty. */
  function Accepted(v: Option<Value>): set<string> {
    if v.Some? && v.value.Str? && Trim(v.value.s) != "" then {Trim(v.value.s)} else {}
  }

  /** The values row `r` adds through the columns `fields`. */
  function RowLocations(r: Row, fields: seq<string>): set<string> {
    if fields == [] then {}
    else RowLocations(r, fields[..|fields| - 1]) + Accepted(Get(r, fields[|fields| - 1]))
  }

  /** The values a sequence of rows adds through the columns `fields`. */
  function RowsLocations(rows: seq<Row>, fields: seq<string>): set<string> {
    if rows == [] then {}
    else RowsLocations(rows[..|rows| - 1], fields) + RowLocations(rows[|rows| - 1], fields)
  }

  /** The values all datasets add through the columns `fields`. */
  function DatasetsLocations(datasets: seq<Dataset>, fields: seq<string>): set<string> {
    if datasets == [] then {}
    else DatasetsLocations(datasets[..|datasets| - 1], fields) + RowsLocations(datasets[|datasets| - 1], fields)
  }

  lemma {:induction false} RowLocationsIff(r: Row, fields: seq<string>, x: string)
    ensures x in RowLocations(r, fields) <==> exists k :: 0 <= k < |fields| && Offers(r, fields[k], x)
  {
    if fields != [] {
      var n := |fields| - 1;
      RowLocationsIff(r, fields[..n], x);
      assert x in Accepted(Get(r, fields[n])) <==> Offers(r, fields[n], x);
      assert forall k :: 0 <= k < n ==> fields[..n][k] == fields[k];
    }
  }

  lemma {:induction false} RowsLocationsIff(rows: seq<Row>, fields: seq<string>, x: string)
    ensures x in RowsLocations(rows, fields) <==>
            exists j, k :: 0 <= j < |rows| && 0 <= k < |fields| && Offers(rows[j], fields[k], x)
  {
    if rows != [] {
      var n := |rows| - 1;
      RowsLocationsIff(rows[..n], fields, x);
      RowLocationsIff(rows[n], fields, x);
      assert forall j :: 0 <= j < n ==> rows[..n][j] == rows[j];
    }
  }

  /**
   * The catalog's content, stated without the fold: `x` is in it exactly when
   * some row of some dataset holds, under one of the column names `fields`, a
   * string that trims to the non-empty `x`.
   */
  lemma {:induction false} DatasetsLocationsIff(datasets: seq<Dataset>, fields: seq<string>, x: string)
    ensures x in DatasetsLocations(datasets, fields) <==>
            exists d, j, k :: 0 <= d < |datasets| && 0 <= j < |datasets[d]| && 0 <= k < |fields|
                              && Offers(datasets[d][j], fields[k], x)
  {
    if datasets != [] {
      var n := |datasets| - 1;
      DatasetsLocationsIff(datasets[..n], fields, x);
      RowsLocationsIff(datasets[n], fields, x);
      assert forall d :: 0 <= d < n ==> datasets[..n][d] == datasets[d];
    }
  }

  /** The least element of a non-empty set of strings. */
  method Least(s: set<string>) returns (m: string)
    requires s != {}
    ensures m in s
    ensures forall y :: y in s && y != m ==> Less(m, y)
  {
    m :| m in s;
    var todo := s - {m};
    while todo != {}
      invariant todo <= s && m in s && m !in todo
      invariant forall y :: y in s - todo && y != m ==> Less(m, y)
      decreases todo
    {
      var y :| y in todo;
      if Less(y, m) {
        forall z | z in s - todo && z != y
          ensures Less(y, z)
        {
          if z != m {
            LessTransitive(y, m, z);
          }
        }
        m := y;
      } else {
        LessTotal(y, m);
      }
      todo := todo - {y};
    }
  }

  /** `Array.from(set).sort()`: the elements of `s` in ascending order, each once. */
  method SortDistricts(s: set<string>) returns (r: seq<string>)
    ensures StrictlySorted(r)
    ensures forall x :: x in r <==> x in s
  {
    r := [];
    var rest := s;
    while rest != {}
      invariant rest <= s
      invariant forall x :: x in r <==> x in s && x !in rest
      invariant StrictlySorted(r)
      invariant forall i, y :: 0 <= i < |r| && y in rest ==> Less(r[i], y)
      decreases rest
    {
      var m := Least(rest);
      r := r + [m];
      rest := rest - {m};
    }
  }

  /** A strictly sorted list holds no value twice. */
  lemma StrictlySortedDistinct(s: seq<string>)
    requires StrictlySorted(s)
    ensures forall i, j :: 0 <= i < j < |s| ==> s[i] != s[j]
  {
    forall i, j | 0 <= i < j < |s|
      ensures s[i] != s[j]
    {
      LessIrreflexive(s[i]);
    }
  }

  /** The `possibleDistrictFields.forEach` over one row: adds what the row offers through `fields`. */
  method AddRowLocations(all: set<string>, row: Row, fields: seq<string>) returns (all': set<string>)
    ensures all' == all + RowLocations(row, fields)
  {
    all' := all;
    var k := 0;
    while k < |fields|
      invariant 0 <= k <= |fields|
      invariant all' == all + RowLocations(row, fields[..k])
    {
      var v := Get(row, fields[k]);
      if v.Some? && v.value.Str? && Trim(v.value.s) != "" {
        all' := all' + {Trim(v.value.s)};
      }
      assert fields[..k + 1][..k] == fields[..k];
      k := k + 1;
    }
    assert fields[..k] == fields;
  }

  /** The `dataset.forEach` over one dataset: adds what its rows offer through `fields`. */
  method AddDatasetLocations(all: set<string>, dataset: Dataset, fields: seq<string>) returns (all': set<string>)
    ensures all' == all + RowsLocations(dataset, fields)
  {
    all' := all;
    var j := 0;
    while j < |dataset|
      invariant 0 <= j <= |dataset|
      invariant all' == all + RowsLocations(dataset[..j], fields)
    {
      all' := AddRowLocations(all', dataset[j], fields);
      assert dataset[..j + 1][..j] == dataset[..j];
      j := j + 1;
    }
    assert dataset[..j] == dataset;
  }

  /**
   * Scans every row of every dataset, adds the trimmed value of EVERY
   * location column that holds a non-blank string (not only the first such
   * column), then sorts; an empty result comes with the error message.
   */
  method BuildCatalog(datasets: seq<Dataset>) returns (districts: seq<string>, error: Option<string>)
    ensures StrictlySorted(districts)
    ensures forall i, j :: 0 <= i < j < |districts| ==> districts[i] != districts[j]
    ensures forall x :: x in districts <==> x in DatasetsLocations(datasets, LocationFields)
    ensures forall x :: x in districts <==>
              exists d, j, k :: 0 <= d < |datasets| && 0 <= j < |datasets[d]| && 0 <= k < |LocationFields|
                                && Offers(datasets[d][j], LocationFields[k], x)
    ensures error.Some? <==> districts == []
    ensures error.Some? ==> error.value == NoDistrictsMessage
  {
    var all: set<string> := {};
    var d := 0;
    while d < |datasets|
      invariant 0 <= d <= |datasets|
      invariant all == DatasetsLocations(datasets[..d], LocationFields)
    {
      all := AddDatasetLocations(all, datasets[d], LocationFields);
      assert datasets[..d + 1][..d] == datasets[..d];
      d := d + 1;
    }
    assert datasets[..d] == datasets;
    districts := SortDistricts(all);
    StrictlySortedDistinct(districts);
    forall x {
      DatasetsLocationsIff(datasets, LocationFields, x);
    }
    error := if districts == [] then Some(NoDistrictsMessage) else None;
  }
}

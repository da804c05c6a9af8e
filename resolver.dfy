/**
 * `findDataByDistrict`: the first row of a dataset whose location value
 * equals the query, ignoring letter case.
 */
module Resolver {
  import opened Wrappers
  import opened Text
  import opened Rows
  import Catalog

  /** The alias chain the resolver reads a row's location from (shorter than the catalog's list). */
  const DistrictAliases: seq<string> := ["District", "district", "City", "city", "Location", "location", "State", "state"]

  /** `row.District || row.district || ... || row.state`, when that is a non-empty string. */
  function DistrictOf(r: Row): (loc: Option<string>)
    ensures loc.Some? ==> loc.value != ""
    ensures loc.Some? <==> exists k :: 0 <= k < |DistrictAliases| && Truthy(Get(r, DistrictAliases[k]))
    ensures forall k :: 0 <= k < |DistrictAliases| && Truthy(Get(r, DistrictAliases[k]))
                        && (forall j :: 0 <= j < k ==> !Truthy(Get(r, DistrictAliases[j])))
                        ==> loc == Some(Get(r, DistrictAliases[k]).value.s)
  {
    var k := FirstTruthyIndex(r, DistrictAliases);
    if k < |DistrictAliases| then Some(Get(r, DistrictAliases[k]).value.s) else None
  }

  /** The predicate handed to `find`. */
  predicate Matches(r: Row, query: string) {
    var loc := DistrictOf(r);
    loc.Some? && Lower(loc.value) == Lower(query)
  }

  /** Index of the first matching row; `|dataset|` when none matches. */
  function FindIndex(dataset: Dataset, query: string): (i: nat)
    ensures i <= |dataset|
    ensures forall j :: 0 <= j < i ==> !Matches(dataset[j], query)
    ensures i < |dataset| ==> Matches(dataset[i], query)
  {
    if dataset == [] then 0
    else if Matches(dataset[0], query) then 0
    else 1 + FindIndex(dataset[1..], query)
  }

  /**
   * `dataset.find(...)`: the first row, in dataset order, whose location
   * equals the query ignoring case; nothing for an empty dataset or when no
   * row matches.
   */
  function FindByDistrict(dataset: Dataset, query: string): (found: Option<Row>)
    ensures found.None? <==> forall j :: 0 <= j < |dataset| ==> !Matches(dataset[j], query)
    ensures found.Some? ==> exists i :: 0 <= i < |dataset| && dataset[i] == found.value && Matches(dataset[i], query)
                                        && forall j :: 0 <= j < i ==> !Matches(dataset[j], query)
  {
    var i := FindIndex(dataset, query);
    if i < |dataset| then Some(dataset[i]) else None
  }

  /** Queries that differ only in letter case find the same row. */
  lemma {:induction false} FindIgnoresCase(dataset: Dataset, q1: string, q2: string)
    requires Lower(q1) == Lower(q2)
    ensures FindByDistrict(dataset, q1) == FindByDistrict(dataset, q2)
  {
    FindIndexIgnoresCase(dataset, q1, q2);
  }

  lemma {:induction false} FindIndexIgnoresCase(dataset: Dataset, q1: string, q2: string)
    requires Lower(q1) == Lower(q2)
    ensures FindIndex(dataset, q1) == FindIndex(dataset, q2)
  {
    if dataset != [] && !Matches(dataset[0], q1) {
      FindIndexIgnoresCase(dataset[1..], q1, q2);
    }
  }

  /** A row whose location is "Chennai" is found by "chennai", "CHENNAI" and "Chennai" alike. */
  lemma ChennaiAnyCase(dataset: Dataset)
    ensures FindByDistrict(dataset, "chennai") == FindByDistrict(dataset, "Chennai")
    ensures FindByDistrict(dataset, "CHENNAI") == FindByDistrict(dataset, "Chennai")
  {
    assert Lower("chennai") == Lower("Chennai");
    assert Lower("CHENNAI") == Lower("Chennai");
    FindIgnoresCase(dataset, "chennai", "Chennai");
    FindIgnoresCase(dataset, "CHENNAI", "Chennai");
  }

  /**
   * A district resolves in a dataset only through one of the eight alias
   * columns: when no row holds, under any of them, a non-empty string that
   * lower-cases like the query, the search finds nothing.
   */
  lemma NoAliasNoResolve(dataset: Dataset, query: string)
    requires forall j, k :: 0 <= j < |dataset| && 0 <= k < |DistrictAliases| && Truthy(Get(dataset[j], DistrictAliases[k]))
                            ==> Lower(Get(dataset[j], DistrictAliases[k]).value.s) != Lower(query)
    ensures FindByDistrict(dataset, query).None?
  {
    forall j | 0 <= j < |dataset| ensures !Matches(dataset[j], query) {
      var k := FirstTruthyIndex(dataset[j], DistrictAliases);
      if k < |DistrictAliases| {
        assert DistrictOf(dataset[j]) == Some(Get(dataset[j], DistrictAliases[k]).value.s);
      }
    }
  }

  /**
   * The resolver reads only the first non-empty alias, and fewer aliases
   * than the catalog: a district listed only under `Region` is offered for
   * selection but never resolves.
   */
  lemma RegionOnlyDistrictNeverResolves()
    ensures "Pune" in Catalog.DatasetsLocations([[[Field("Region", Str("Pune"))]]], Catalog.LocationFields)
    ensures FindByDistrict([[Field("Region", Str("Pune"))]], "Pune").None?
  {
    var row := [Field("Region", Str("Pune"))];
    assert Catalog.LocationFields[12] == "Region";
    assert Catalog.Offers(row, Catalog.LocationFields[12], "Pune") by {
      TrimOfTrimmed("Pune");
    }
    Catalog.DatasetsLocationsIff([[row]], Catalog.LocationFields, "Pune");
    forall k | 0 <= k < |DistrictAliases| ensures !Truthy(Get(row, DistrictAliases[k])) {
      assert Get(row, DistrictAliases[k]) == None;
    }
  }

  /**
   * The catalog lists every location column of a row, the resolver only the
   * first non-empty one: with District "Nashik" and City "Pune" in one row,
   * "Pune" is offered but does not resolve to that row.
   */
  lemma FirstAliasShadowsLater()
    ensures "Pune" in Catalog.DatasetsLocations([[[Field("District", Str("Nashik")), Field("City", Str("Pune"))]]], Catalog.LocationFields)
    ensures FindByDistrict([[Field("District", Str("Nashik")), Field("City", Str("Pune"))]], "Pune").None?
  {
    var row := [Field("District", Str("Nashik")), Field("City", Str("Pune"))];
    assert Catalog.LocationFields[3] == "City";
    assert Catalog.Offers(row, Catalog.LocationFields[3], "Pune") by {
      TrimOfTrimmed("Pune");
    }
    Catalog.DatasetsLocationsIff([[row]], Catalog.LocationFields, "Pune");
    assert DistrictOf(row) == Some("Nashik") by {
      assert Truthy(Get(row, DistrictAliases[0]));
    }
    assert Lower("Nashik") != Lower("Pune") by {
      assert Lower("Nashik")[0] == 'n' && Lower("Pune")[0] == 'p';
    }
  }
}

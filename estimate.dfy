/**
 * `calculate`: validates the form, resolves the selected district in each
 * of the four datasets, and derives the assessment figures. The figures are
 * returned as a record; the HTML they are rendered into is not modelled.
 */
module Estimate {
  import opened Wrappers
  import opened Text
  import opened Rows
  import opened Resolver

  /** The roof-area field: blank until the user types, then `Number(input)`. */
  datatype RoofArea = Blank | Area(m2: real)

  /** The form: selected district, roof area, roof type and number of dwellers (`Number(input)`). */
  datatype Input = Input(district: string, roofArea: RoofArea, roofType: string, dwellers: real)

  /** The four cleaned reference tables. */
  datatype Datasets = Datasets(rainfall: Dataset, groundwater: Dataset, soil: Dataset, aquifer: Dataset)

  datatype Structure = Pit | Trench | Shaft

  datatype Efficiency = Excellent | Good | Moderate

  /** The values the report shows. */
  datatype Report = Report(
    district: string,
    rainfall: real,            // mm per year
    harvest: real,             // litres per year
    efficiency: Efficiency,
    perPerson: real,           // litres per year per dweller
    structure: Structure,
    volume: real,              // cubic metres
    runoff: real,              // runoff coefficient of the roof type
    groundwaterDepth: string,
    soilType: string,
    aquifer: string,
    recharge: string,
    cost: int,
    savings: real,
    payback: Option<real>      // None where the report shows "NA"
  )

  /** Either the blocking alert, with no report, or a report. */
  datatype Outcome = Alert(message: string) | Assessment(report: Report)

  const MissingFieldsMessage: string := "Please fill all required fields"

  const RainfallAliases: seq<string> :=
    ["Annual_Rainfall_mm", "Annual Rainfall (mm)", "Rainfall", "rainfall", "Avg Annual Rainfall"]
  const GroundwaterAliases: seq<string> :=
    ["Groundwater_Depth_m", "Groundwater Depth (m)", "Depth to Water Table", "depth"]
  const SoilAliases: seq<string> := ["Soil_Type", "Soil Type", "Dominant Soil", "soil", "type"]
  const AquiferAliases: seq<string> := ["Principal_Aquifer", "Principal Aquifer", "Aquifer", "aquifer"]
  const RechargeAliases: seq<string> := ["Recharge_Potential", "Recharge Potential", "Recharge", "recharge"]

  const DefaultRainfall: real := 1000.0

  /** `!district || !roofArea || !dwellers`: a missing district, a blank or zero area, or zero dwellers. */
  predicate Incomplete(input: Input) {
    input.district == "" || input.roofArea.Blank? || input.roofArea.m2 == 0.0 || input.dwellers == 0.0
  }

  /** The four roof types of the coefficient table (and of the form's selector). */
  const RoofTypes: set<string> := {"Concrete", "Tile", "Metal", "Thatched"}

  /** `runoffCoeff[roofType] || 0.8`: the table, with 0.8 for any other roof type. */
  function RunoffCoefficient(roofType: string): (rc: real)
    ensures 0.5 <= rc <= 0.9
    ensures roofType == "Metal" <==> rc == 0.9
    ensures roofType !in RoofTypes <==> rc == 0.8
  {
    if roofType == "Concrete" then 0.85
    else if roofType == "Tile" then 0.75
    else if roofType == "Metal" then 0.9
    else if roofType == "Thatched" then 0.5
    else 0.8
  }

  /**
   * The rainfall figure: the first non-empty rainfall column of the row,
   * read as a number by `toNumber` (the coercion `*` applies), or 1000 when
   * the row or every such column is missing.
   */
  function Rainfall(row: Option<Row>, toNumber: string -> real): (mm: real)
    ensures row.None? ==> mm == DefaultRainfall
    ensures row.Some? && (forall k :: 0 <= k < |RainfallAliases| ==> !Truthy(Get(row.value, RainfallAliases[k])))
            ==> mm == DefaultRainfall
    ensures row.Some? ==> forall k :: 0 <= k < |RainfallAliases| && Truthy(Get(row.value, RainfallAliases[k]))
                                      && (forall j :: 0 <= j < k ==> !Truthy(Get(row.value, RainfallAliases[j])))
                                      ==> mm == toNumber(Get(row.value, RainfallAliases[k]).value.s)
  {
    var text := FieldOr(row, RainfallAliases, "");
    if text != "" then toNumber(text) else DefaultRainfall
  }

  /** Litres per year: roof area (m2) times rainfall (mm) times runoff coefficient, times 0.001. */
  function Harvest(area: real, rainfall: real, rc: real): real {
    area * rainfall * rc * 0.001
  }

  /** The cost tier follows the structure tier: both split the harvest at 50000 and 200000 litres. */
  function InstallationCost(harvest: real): (cost: int)
    ensures cost == 15000 <==> StructureFor(harvest) == Pit
    ensures cost == 30000 <==> StructureFor(harvest) == Trench
    ensures cost == 50000 <==> StructureFor(harvest) == Shaft
  {
    if harvest < 50000.0 then 15000 else if harvest < 200000.0 then 30000 else 50000
  }

  /** The recommended recharge structure: a pit below 50000 litres, a shaft from 200000, a trench between. */
  function StructureFor(harvest: real): Structure {
    if harvest < 50000.0 then Pit else if harvest < 200000.0 then Trench else Shaft
  }

  /** The rating: strict thresholds, so exactly 50000 litres is Moderate and exactly 100000 is Good. */
  function EfficiencyFor(harvest: real): Efficiency {
    if harvest > 100000.0 then Excellent else if harvest > 50000.0 then Good else Moderate
  }

  /** Years to recover the cost: defined only when there are savings, so never a division by zero. */
  function Payback(cost: int, savings: real): (years: Option<real>)
    ensures years.Some? <==> savings > 0.0
    ensures years.Some? ==> years.value * savings == cost as real
  {
    if savings > 0.0 then Some(cost as real / savings) else None
  }

  /** Line 248: the yearly supply per dweller, which shared out again gives the whole harvest. */
  function PerPerson(harvest: real, dwellers: real): (share: real)
    requires dwellers != 0.0
    ensures share * dwellers == harvest
  {
    harvest / dwellers
  }

  /** The relations every report's figures keep among themselves. */
  predicate Coherent(r: Report) {
    && r.volume * 1000.0 == r.harvest
    && r.savings == r.volume * 50.0
    && (r.structure == Pit <==> r.harvest < 50000.0)
    && (r.structure == Shaft <==> r.harvest >= 200000.0)
    && (r.cost == 15000 <==> r.structure == Pit)
    && (r.cost == 30000 <==> r.structure == Trench)
    && (r.cost == 50000 <==> r.structure == Shaft)
    && (r.efficiency == Excellent <==> r.harvest > 100000.0)
    && (r.efficiency == Good <==> 50000.0 < r.harvest <= 100000.0)
    && (r.efficiency == Moderate <==> r.harvest <= 50000.0)
    && (r.payback.Some? <==> r.harvest > 0.0)
    && (r.payback.Some? ==> r.payback.value * r.savings == r.cost as real)
    && 0.5 <= r.runoff <= 0.9
  }

  /** The figures of the report once the inputs are validated and the rows resolved. */
  function Assess(district: string, area: real, roofType: string, dwellers: real, rainfall: real,
                  groundwaterDepth: string, soilType: string, aquifer: string, recharge: string): (r: Report)
    requires dwellers != 0.0
    ensures Coherent(r)
    ensures r.harvest == Harvest(area, r.rainfall, r.runoff)
    ensures r.perPerson == PerPerson(r.harvest, dwellers)
    ensures r.rainfall == rainfall && r.runoff == RunoffCoefficient(roofType)
  {
    var rc := RunoffCoefficient(roofType);
    var harvest := Harvest(area, rainfall, rc);
    var cost := InstallationCost(harvest);
    var volume := harvest / 1000.0;
    var savings := volume * 50.0;
    Report(district, rainfall, harvest, EfficiencyFor(harvest), PerPerson(harvest, dwellers), StructureFor(harvest),
           volume, rc, groundwaterDepth, soilType, aquifer, recharge, cost, savings, Payback(cost, savings))
  }

  /** What the four lookups supply to the report, defaults included. */
  datatype Resolved = Resolved(rainfall: real, groundwaterDepth: string, soilType: string, aquifer: string, recharge: string)

  /**
   * Lines 181-196 and 215-229: resolve the district in each dataset
   * separately and read each figure through its alias chain; a dataset
   * that does not know the district leaves its figures at their defaults.
   */
  function Resolve(district: string, data: Datasets, toNumber: string -> real): (res: Resolved)
    ensures FindByDistrict(data.rainfall, district).None? ==> res.rainfall == DefaultRainfall
    ensures FindByDistrict(data.groundwater, district).None? ==> res.groundwaterDepth == "NA"
    ensures FindByDistrict(data.soil, district).None? ==> res.soilType == "Unknown"
    ensures FindByDistrict(data.aquifer, district).None? ==> res.aquifer == "Unknown" && res.recharge == "Moderate"
    ensures FindByDistrict(data.rainfall, district).Some? ==>
              res.rainfall == Rainfall(FindByDistrict(data.rainfall, district), toNumber)
    ensures FindByDistrict(data.groundwater, district).Some? ==>
              res.groundwaterDepth == FieldOr(FindByDistrict(data.groundwater, district), GroundwaterAliases, "NA")
    ensures FindByDistrict(data.soil, district).Some? ==>
              res.soilType == FieldOr(FindByDistrict(data.soil, district), SoilAliases, "Unknown")
    ensures FindByDistrict(data.aquifer, district).Some? ==>
              && res.aquifer == FieldOr(FindByDistrict(data.aquifer, district), AquiferAliases, "Unknown")
              && res.recharge == FieldOr(FindByDistrict(data.aquifer, district), RechargeAliases, "Moderate")
  {
    var aquiferRow := FindByDistrict(data.aquifer, district);
    Resolved(
      Rainfall(FindByDistrict(data.rainfall, district), toNumber),
      FieldOr(FindByDistrict(data.groundwater, district), GroundwaterAliases, "NA"),
      FieldOr(FindByDistrict(data.soil, district), SoilAliases, "Unknown"),
      FieldOr(aquiferRow, AquiferAliases, "Unknown"),
      FieldOr(aquiferRow, RechargeAliases, "Moderate"))
  }

  /**
   * `calculate`: the alert and no report exactly when the form is
   * incomplete; otherwise a report, whatever the four lookups find.
   */
  function Calculate(input: Input, data: Datasets, toNumber: string -> real): (out: Outcome)
    ensures out.Alert? <==> Incomplete(input)
    ensures out.Alert? ==> out.message == MissingFieldsMessage
    ensures out.Assessment? ==> Coherent(out.report)
    ensures out.Assessment? ==> out.report.district == input.district
    ensures out.Assessment? ==> out.report.harvest == Harvest(input.roofArea.m2, out.report.rainfall, out.report.runoff)
    ensures out.Assessment? ==> out.report.perPerson == PerPerson(out.report.harvest, input.dwellers)
    ensures out.Assessment? ==> out.report.runoff == RunoffCoefficient(input.roofType)
    ensures out.Assessment? ==>
              var res := Resolve(input.district, data, toNumber);
              && out.report.rainfall == res.rainfall
              && out.report.groundwaterDepth == res.groundwaterDepth
              && out.report.soilType == res.soilType
              && out.report.aquifer == res.aquifer
              && out.report.recharge == res.recharge
  {
    if Incomplete(input) then Alert(MissingFieldsMessage)
    else
      var res := Resolve(input.district, data, toNumber);
      Assessment(Assess(input.district, input.roofArea.m2, input.roofType, input.dwellers,
                        res.rainfall, res.groundwaterDepth, res.soilType, res.aquifer, res.recharge))
  }

  /** The table's four coefficients, as the form's roof-type selector advertises them. */
  lemma RoofCoefficients()
    ensures RunoffCoefficient("Concrete") == 0.85 && RunoffCoefficient("Tile") == 0.75
    ensures RunoffCoefficient("Metal") == 0.9 && RunoffCoefficient("Thatched") == 0.5
  {
  }

  /** Half-open cost and structure tiers: exactly 50000 is a Trench, exactly 200000 a Shaft. */
  lemma TierBoundaries()
    ensures StructureFor(49999.0) == Pit && InstallationCost(49999.0) == 15000
    ensures StructureFor(50000.0) == Trench && InstallationCost(50000.0) == 30000
    ensures StructureFor(199999.0) == Trench && InstallationCost(199999.0) == 30000
    ensures StructureFor(200000.0) == Shaft && InstallationCost(200000.0) == 50000
    ensures EfficiencyFor(50000.0) == Moderate && EfficiencyFor(100000.0) == Good
  {
  }

  /** A larger harvest never costs less. */
  lemma CostNonDecreasing(h1: real, h2: real)
    requires h1 <= h2
    ensures InstallationCost(h1) <= InstallationCost(h2)
  {
  }

  /** With non-negative rainfall, a larger roof never harvests less. */
  lemma HarvestMonotoneInArea(a1: real, a2: real, rainfall: real, roofType: string)
    requires a1 <= a2 && rainfall >= 0.0
    ensures Harvest(a1, rainfall, RunoffCoefficient(roofType)) <= Harvest(a2, rainfall, RunoffCoefficient(roofType))
  {
    var rc := RunoffCoefficient(roofType);
    assert (a2 - a1) * rainfall >= 0.0;
    assert (a2 - a1) * rainfall * rc >= 0.0;
  }

  /** With a non-negative roof area, more rain never harvests less. */
  lemma HarvestMonotoneInRainfall(area: real, r1: real, r2: real, roofType: string)
    requires r1 <= r2 && area >= 0.0
    ensures Harvest(area, r1, RunoffCoefficient(roofType)) <= Harvest(area, r2, RunoffCoefficient(roofType))
  {
    var rc := RunoffCoefficient(roofType);
    assert area * (r2 - r1) >= 0.0;
    assert area * (r2 - r1) * rc >= 0.0;
  }

  /**
   * Whatever the roof type, the harvest is zero exactly when the roof area or
   * the rainfall is zero. (The payback is "NA" exactly when the harvest is
   * zero or negative, which a negative area or rainfall also gives.)
   */
  lemma HarvestZeroIff(area: real, rainfall: real, roofType: string)
    ensures Harvest(area, rainfall, RunoffCoefficient(roofType)) == 0.0 <==> area == 0.0 || rainfall == 0.0
  {
    var rc := RunoffCoefficient(roofType);
    if area != 0.0 && rainfall != 0.0 {
      assert area * rainfall != 0.0;
      assert area * rainfall * rc != 0.0;
    }
  }

  /**
   * A worked example: 100 m2 of concrete roof, 1200 mm of rain, four
   * dwellers. The literal formula gives 102 litres a year, a Pit at 15000,
   * efficiency Moderate, 25.5 litres per dweller.
   */
  lemma ConcreteRoofExample(toNumber: string -> real)
    requires toNumber("1200") == 1200.0
    ensures
      var row := [Field("District", Str("Chennai")), Field("Annual_Rainfall_mm", Str("1200"))];
      var out := Calculate(Input("Chennai", Area(100.0), "Concrete", 4.0), Datasets([row], [], [], []), toNumber);
      && out.Assessment?
      && out.report.rainfall == 1200.0
      && out.report.harvest == 102.0
      && out.report.cost == 15000 && out.report.structure == Pit
      && out.report.efficiency == Moderate
      && out.report.perPerson == 25.5
      && out.report.groundwaterDepth == "NA" && out.report.soilType == "Unknown"
  {
    var row := [Field("District", Str("Chennai")), Field("Annual_Rainfall_mm", Str("1200"))];
    assert DistrictOf(row) == Some("Chennai") by {
      assert Truthy(Get(row, DistrictAliases[0]));
    }
    assert Matches(row, "Chennai");
    assert FindByDistrict([row], "Chennai") == Some(row);
    assert Truthy(Get(row, RainfallAliases[0]));
    assert FieldOr(Some(row), RainfallAliases, "") == "1200";
  }

  /**
   * When the rainfall table does not know the district, 1000 mm is assumed:
   * 50 m2 of tile roof then harvests 37.5 litres a year, a Pit.
   */
  lemma UnknownDistrictExample(toNumber: string -> real)
    ensures
      var out := Calculate(Input("Pune", Area(50.0), "Tile", 2.0), Datasets([], [], [], []), toNumber);
      && out.Assessment?
      && out.report.rainfall == 1000.0
      && out.report.harvest == 37.5
      && out.report.cost == 15000 && out.report.structure == Pit
      && out.report.payback == Some(8000.0)
  {
    var res := Resolve("Pune", Datasets([], [], [], []), toNumber);
    assert res.rainfall == 1000.0;
    assert Harvest(50.0, 1000.0, RunoffCoefficient("Tile")) == 37.5;
    assert Payback(15000, 37.5 / 1000.0 * 50.0) == Some(8000.0);
  }

  /**
   * The rainfall table of the zero-rainfall example resolves "leh" to its one
   * row, and the rainfall read from it is `toNumber("0")`. The steps are
   * split over the three lemmas below so that each stays small for the solver.
   */
  lemma LehRowResolves(toNumber: string -> real)
    requires toNumber("0") == 0.0
    ensures Resolve("leh", Datasets([[Field("City", Str("Leh")), Field("Rainfall", Str("0"))]], [], [], []), toNumber).rainfall == 0.0
  {
    var row := [Field("City", Str("Leh")), Field("Rainfall", Str("0"))];
    var data := Datasets([row], [], [], []);
    LehRowFound();
    assert FindByDistrict(data.rainfall, "leh") == Some(row);
    assert Resolve("leh", data, toNumber).rainfall == Rainfall(Some(row), toNumber);
    LehRowRainfall(toNumber);
  }

  /** The row matches "leh": its location is "Leh", read through `City`, and the two lower-case alike. */
  lemma LehRowFound()
    ensures FindByDistrict([[Field("City", Str("Leh")), Field("Rainfall", Str("0"))]], "leh")
            == Some([Field("City", Str("Leh")), Field("Rainfall", Str("0"))])
  {
    LehRowDistrict();
    assert Lower("Leh") == Lower("leh") by {
      LowerEqIff("Leh", "leh");
      assert CaseMates('L', 'l');
    }
  }

  /** Neither `District` nor `district` is present, so the chain stops at `City`. */
  lemma LehRowDistrict()
    ensures DistrictOf([Field("City", Str("Leh")), Field("Rainfall", Str("0"))]) == Some("Leh")
  {
    var row := [Field("City", Str("Leh")), Field("Rainfall", Str("0"))];
    assert !Truthy(Get(row, DistrictAliases[0]));
    assert !Truthy(Get(row, DistrictAliases[1]));
    assert Truthy(Get(row, DistrictAliases[2]));
  }

  /** Only the third rainfall column name, `Rainfall`, is present, so the rainfall is `toNumber("0")`. */
  lemma LehRowRainfall(toNumber: string -> real)
    ensures Rainfall(Some([Field("City", Str("Leh")), Field("Rainfall", Str("0"))]), toNumber) == toNumber("0")
  {
    var row := [Field("City", Str("Leh")), Field("Rainfall", Str("0"))];
    assert !Truthy(Get(row, RainfallAliases[0]));
    assert !Truthy(Get(row, RainfallAliases[1]));
    assert Get(row, RainfallAliases[2]) == Some(Str("0"));
  }

  /** A rainfall of zero gives zero savings, and the payback is "NA" rather than a division by zero. */
  lemma ZeroRainfallExample(toNumber: string -> real)
    requires toNumber("0") == 0.0
    ensures
      var row := [Field("City", Str("Leh")), Field("Rainfall", Str("0"))];
      var out := Calculate(Input("leh", Area(80.0), "Metal", 3.0), Datasets([row], [], [], []), toNumber);
      && out.Assessment?
      && out.report.harvest == 0.0
      && out.report.savings == 0.0
      && out.report.payback.None?
  {
    LehRowResolves(toNumber);
    assert Harvest(80.0, 0.0, RunoffCoefficient("Metal")) == 0.0;
  }

  /**
   * Only the aquifer table knows the district: aquifer and recharge come
   * from its row, while depth, soil and rainfall fall back to their defaults.
   */
  lemma AquiferOnlyExample(toNumber: string -> real)
    ensures
      var row := [Field("District", Str("Pune")), Field("Principal_Aquifer", Str("Basalt")),
                  Field("Recharge_Potential", Str("High"))];
      var out := Calculate(Input("Pune", Area(120.0), "Concrete", 5.0), Datasets([], [], [], [row]), toNumber);
      && out.Assessment?
      && out.report.aquifer == "Basalt" && out.report.recharge == "High"
      && out.report.groundwaterDepth == "NA" && out.report.soilType == "Unknown"
      && out.report.rainfall == 1000.0
  {
    var row := [Field("District", Str("Pune")), Field("Principal_Aquifer", Str("Basalt")),
                Field("Recharge_Potential", Str("High"))];
    assert DistrictOf(row) == Some("Pune") by {
      assert Truthy(Get(row, DistrictAliases[0]));
    }
    assert Matches(row, "Pune");
    assert FindByDistrict([row], "Pune") == Some(row);
    assert Truthy(Get(row, AquiferAliases[0]));
    assert Truthy(Get(row, RechargeAliases[0]));
  }
}

# Rainwater-harvest estimator: data resolution and estimation engine

A Dafny model of the logic inside the `RainHarvestPro` component (`src/App.jsx`).
The component loads four reference tables: rainfall, groundwater depth, soil type and aquifer information.
It cleans every parsed row and builds the sorted list of districts a user can pick.
When the user asks for an assessment, it finds the selected district in each table and turns the roof area, roof type and number of dwellers into a report:

- harvest potential
- recommended recharge structure and its cost
- storage volume
- savings and payback period
- an efficiency rating and the supply per dweller

The model covers four parts, one module each, plus two support modules:

- `Text` (`text.dfy`): `trim` (ECMAScript whitespace at both ends), `toLowerCase`, and the character order the default `sort` uses.
- `Rows` (`rows.dfy`): a parsed cell is `Str`, `Null` or `Other`. A row is its properties in enumeration order, and assigning to a property overwrites it in place or appends it, as a JavaScript object does. This module holds the row cleaner of lines 71-80 and the `a || b || ... || fallback` alias chains.
- `Catalog` (`catalog.dfy`): the district list of lines 105-153. It is an imperative method with the source's nested loops. Each loop adds to a set, and the set is then sorted.
- `Resolver` (`resolver.dfy`): `findDataByDistrict`, lines 166-172.
- `Estimate` (`estimate.dfy`): `calculate`, lines 174-237, plus the per-dweller figure of line 248. It returns a `Report` record instead of HTML, or the alert when the form is incomplete.
- `Wrappers` (`wrappers.dfy`): the `Option` type.

Arithmetic is over `real`, so every formula holds exactly. The number that JavaScript's `*` makes of a rainfall string is a parameter, `toNumber: string -> real`.

The model follows the code as written, including these behaviours that are easy to miss:

- Rows are filtered before trimming. A row whose values are all whitespace survives and is cleaned to empty strings. A second cleaning pass over a dataset would then drop it, so cleaning a dataset is not idempotent (`Rows.CleanRowsNotIdempotent`). Cleaning a single row is idempotent (`Rows.CleanIdempotent`).
- The catalog adds the value of every one of its 18 column names that holds a non-blank string, not only the first, unlike the resolver's reading of a single alias.
- The resolver reads only the first non-empty value along a shorter chain of 8 column names. It has no all-capitals names (`DISTRICT`, `CITY`, ...) and no `Region` or `Place`. So a district can be offered for selection and still never resolve (`Resolver.RegionOnlyDistrictNeverResolves`, `Resolver.FirstAliasShadowsLater`). When that happens, the report silently uses the defaults.
- Validation accepts any non-zero number of dwellers and any non-zero roof area, negative or fractional ones included.

## Model

| member | source | states |
|---|---|---|
| `Text.Trim` | src/App.jsx:76-77 | the trimmed key or value has no whitespace at either end |
| `Text.TrimSlice` | src/App.jsx:76-77 | trimming removes whitespace at the two ends and nothing else: the result is a contiguous slice of the input, with only whitespace before and after it |
| `Text.TrimIdempotent` | src/App.jsx:76-77 | trimming twice is the same as trimming once |
| `Text.TrimEmptyIff` | src/App.jsx:125 | a string trims to "" exactly when it is all whitespace |
| `Text.Lower` | src/App.jsx:170 | `toLowerCase` keeps the length, maps each character to itself or its case partner, and leaves no upper-case ASCII letter: each of A-Z becomes its lower-case letter and every other character stays |
| `Text.LowerEqIff` | src/App.jsx:170 | two strings lower-case alike exactly when they have the same length and agree character by character up to letter case |
| `Text.LowerIdempotent` | src/App.jsx:170 | lower-casing a lower-cased string changes nothing |
| `Text.Less` | src/App.jsx:145 | the order the default `sort` uses; `Text.LessIrreflexive`, `Text.LessTransitive` and `Text.LessTotal` prove it a strict total order, and `Catalog.SortDistricts` sorts by it |
| `Text.LessIrreflexive` | src/App.jsx:145 | no string sorts before itself |
| `Text.LessTransitive` | src/App.jsx:145 | the sort order is transitive |
| `Text.LessTotal` | src/App.jsx:145 | any two different strings are ordered one way or the other |
| `Rows.Get` | src/App.jsx:125 | `row[key]`: `Rows.GetIff` states when it finds a value and which; `Rows.Assign` states how it reads after an assignment; `Rows.FieldOr` builds the alias chains of lines 168-169 and 195-229 on it |
| `Rows.GetIff` | src/App.jsx:125 | a read finds a value exactly when the row has a property of that name, and the value found is that property's value |
| `Rows.Assign` | src/App.jsx:77 | after `row[key] = v`, reading `key` gives `v` and every other key reads as before; a new key is appended at the end |
| `Rows.AssignKeepsKeysUnique` | src/App.jsx:77 | assigning to a property never creates a second property with the same name |
| `Rows.Clean` | src/App.jsx:73-79 | cleaning a row never adds properties; `Rows.CleanKeys`, `Rows.CleanLastWins` and `Rows.CleanIsNormalized` state which keys and values the cleaned row holds |
| `Rows.CleanIsNormalized` | src/App.jsx:73-79 | a cleaned row has unique keys, every key trimmed and every string value trimmed |
| `Rows.CleanKeys` | src/App.jsx:75-77 | the cleaned row has property `k` exactly when some raw key trims to `k` |
| `Rows.TrimValue` | src/App.jsx:77 | a string value is trimmed and any other value is kept as it is; `Rows.CleanLastWins` states what it stores in the cleaned row, `Rows.CleanIsNormalized` that the result is trimmed |
| `Rows.CleanLastWins` | src/App.jsx:75-77 | when several raw keys trim to the same key, the cleaned value is the trimmed value of the last of them; non-string values pass through unchanged |
| `Rows.CleanNormalized` | src/App.jsx:73-79 | a row that is already in cleaned shape is left exactly as it is |
| `Rows.CleanIdempotent` | src/App.jsx:73-79 | cleaning an already-cleaned row leaves it unchanged |
| `Rows.CleanRows` | src/App.jsx:71-80 | every raw row with some value that is neither null nor "" (judged before trimming) appears cleaned in the output; every output row is the cleaned form of such a row; there are never more output rows than input rows |
| `Rows.Survives` | src/App.jsx:72 | the filter keeps a row exactly when some value is neither null nor "", judged on the raw values (used by `Rows.CleanRows` and `Rows.CleanRowsSingle`) |
| `Rows.CleanRowsSingle` | src/App.jsx:71-80 | a single raw row yields its cleaned form when it survives the filter, and nothing otherwise |
| `Rows.CleanRowsAppend` | src/App.jsx:71-80 | the output for a concatenation of datasets is the concatenation of the outputs, so surviving rows keep their order and their number |
| `Rows.WhitespaceRowSurvives` | src/App.jsx:72 | a row whose only value is whitespace passes the filter and is cleaned to an empty string |
| `Rows.CleanRowsNotIdempotent` | src/App.jsx:71-80 | cleaning a dataset twice can drop a row that one pass kept |
| `Rows.Truthy` | src/App.jsx:168-169 | the test at which an `||` chain stops: a non-empty string; `Rows.FirstTruthyIndex` and `Rows.FieldOr` state the chains through it |
| `Rows.FirstTruthyIndex` | src/App.jsx:168-169 | the alias chain stops at the first alias whose value is a non-empty string, and every earlier alias is empty or missing |
| `Rows.FieldOr` | src/App.jsx:215-229 | the extracted field is the first non-empty value along its alias chain; it is the fallback when the row was not found or no alias holds a non-empty value |
| `Catalog.Offers` | src/App.jsx:125 | the test of line 125 for one column: a string there that trims to the non-empty `x`; `Catalog.RowLocationsIff` states what the loop collects through it |
| `Catalog.Accepted` | src/App.jsx:125-126 | what one column adds: its trimmed string when that is non-empty, nothing otherwise; `Catalog.RowLocationsIff` equates it with `Catalog.Offers` |
| `Catalog.RowLocationsIff` | src/App.jsx:124-132 | a row adds `x` exactly when one of the listed columns holds a string that trims to the non-empty `x` |
| `Catalog.RowsLocationsIff` | src/App.jsx:111-139 | a dataset adds `x` exactly when one of its rows does |
| `Catalog.DatasetsLocationsIff` | src/App.jsx:108-140 | `x` is collected exactly when some row of some dataset holds, under one of the inspected column names, a string that trims to the non-empty `x` |
| `Catalog.AddRowLocations` | src/App.jsx:114-132 | the loop over the column names adds exactly what the row offers under them to the set |
| `Catalog.AddDatasetLocations` | src/App.jsx:111-139 | the loop over a dataset's rows adds exactly what its rows offer to the set |
| `Catalog.Least` | src/App.jsx:145 | returns an element of the set that sorts strictly before every other element |
| `Catalog.SortDistricts` | src/App.jsx:145 | the sorted array is strictly ascending and holds exactly the elements of the set |
| `Catalog.StrictlySortedDistinct` | src/App.jsx:145 | a strictly ascending list has no duplicates |
| `Catalog.BuildCatalog` | src/App.jsx:105-153 | the district list is strictly ascending and duplicate-free; it holds exactly the non-empty trimmed strings found under any of the 18 column names in any row of any dataset; the error is set, with its message, exactly when the list is empty |
| `Resolver.DistrictOf` | src/App.jsx:168-169 | a row's location is the first non-empty string along District, district, City, city, Location, location, State, state; the row has none when all eight are empty or missing |
| `Resolver.Matches` | src/App.jsx:170 | a row matches when it has a location and that location lower-cases like the query; `Resolver.FindIgnoresCase` and `Resolver.NoAliasNoResolve` state its consequences for the search |
| `Resolver.FindIndex` | src/App.jsx:167-171 | the index found is that of the first matching row; no earlier row matches; it is past the end when no row matches |
| `Resolver.FindByDistrict` | src/App.jsx:166-172 | returns the first row, in dataset order, whose location equals the query after lower-casing both; returns nothing exactly when no row matches, the empty dataset included |
| `Resolver.FindIndexIgnoresCase` | src/App.jsx:170 | queries that lower-case alike stop at the same index |
| `Resolver.FindIgnoresCase` | src/App.jsx:170 | queries that lower-case alike, which by `Text.LowerEqIff` means queries that differ only in letter case, find the same row |
| `Resolver.ChennaiAnyCase` | src/App.jsx:170 | "chennai", "CHENNAI" and "Chennai" resolve to the same row in any dataset |
| `Resolver.NoAliasNoResolve` | src/App.jsx:167-171 | when no row of a dataset holds, under any of the eight alias columns, a non-empty string that lower-cases like the query, the search finds nothing |
| `Resolver.RegionOnlyDistrictNeverResolves` | src/App.jsx:168-169 | for the one-row dataset whose only column is `Region: "Pune"`, "Pune" is in the catalog but the search for it finds nothing |
| `Resolver.FirstAliasShadowsLater` | src/App.jsx:168-170 | a row with District "Nashik" and City "Pune" puts "Pune" in the catalog, but a query for "Pune" does not resolve to it |
| `Estimate.RunoffCoefficient` | src/App.jsx:199-205 | the runoff coefficient always lies between 0.5 and 0.9; it is 0.9 exactly for Metal and 0.8 exactly for a roof type outside the table of four |
| `Estimate.RoofCoefficients` | src/App.jsx:199-204 | Concrete 0.85, Tile 0.75, Metal 0.9, Thatched 0.5 |
| `Estimate.Incomplete` | src/App.jsx:175 | the form is incomplete when the district is empty, the roof area is blank or 0, or there are 0 dwellers; `Estimate.Calculate` alerts exactly then |
| `Estimate.Rainfall` | src/App.jsx:194-196 | the rainfall is the number read from the first non-empty rainfall column, or 1000 when the row was not found or every rainfall column is empty |
| `Estimate.Harvest` | src/App.jsx:208 | litres per year from area, rainfall and coefficient; `Estimate.HarvestMonotoneInArea`, `Estimate.HarvestMonotoneInRainfall` and `Estimate.HarvestZeroIff` state how it moves |
| `Estimate.InstallationCost` | src/App.jsx:211-212 | the cost is 15000, 30000 or 50000 exactly when the structure is a Pit, a Trench or a Shaft |
| `Estimate.StructureFor` | src/App.jsx:212 | Pit below 50000 litres, Shaft from 200000, Trench between (`Estimate.TierBoundaries`, and `Estimate.Coherent` through `Estimate.Assess`) |
| `Estimate.EfficiencyFor` | src/App.jsx:236-237 | Excellent above 100000 litres, Good above 50000, Moderate otherwise (`Estimate.TierBoundaries`, and `Estimate.Coherent` through `Estimate.Assess`) |
| `Estimate.Payback` | src/App.jsx:234 | a payback exists exactly when savings are positive, and then payback times savings equals the cost, so nothing is ever divided by zero |
| `Estimate.PerPerson` | src/App.jsx:248 | the per-dweller supply times the number of dwellers gives back the harvest |
| `Estimate.Assess` | src/App.jsx:199-237 | the report is coherent: volume is harvest/1000 and savings 50 per m³; Pit below 50000, Shaft from 200000, Trench between, with costs 15000/30000/50000; Excellent above 100000, Good above 50000 up to 100000, otherwise Moderate; payback exists exactly when harvest is positive; the harvest is area × rainfall × runoff × 0.001 |
| `Estimate.Resolve` | src/App.jsx:181-229 | each dataset is searched on its own; when the district is found, each field is what its alias chain reads from the found row (`Estimate.Rainfall`, `Rows.FieldOr`: the first non-empty alias value, else the default); a dataset that does not know the district leaves its fields at 1000 mm, "NA", "Unknown", "Unknown" and "Moderate" |
| `Estimate.Calculate` | src/App.jsx:174-237 | gives the alert and no report exactly when the district is empty, the roof area is blank or 0, or there are 0 dwellers; otherwise it always gives a coherent report, even when every lookup misses, built from the resolved fields and the roof type's coefficient |
| `Estimate.TierBoundaries` | src/App.jsx:211-212 | exactly 50000 is a Trench costing 30000, and exactly 200000 is a Shaft costing 50000; an efficiency of exactly 50000 is Moderate and of exactly 100000 is Good |
| `Estimate.CostNonDecreasing` | src/App.jsx:211 | a larger harvest never has a lower cost |
| `Estimate.HarvestMonotoneInArea` | src/App.jsx:208 | with non-negative rainfall, a larger roof never harvests less |
| `Estimate.HarvestMonotoneInRainfall` | src/App.jsx:208 | with a non-negative roof area, more rain never harvests less |
| `Estimate.HarvestZeroIff` | src/App.jsx:208 | whatever the roof type, the harvest is zero exactly when the roof area or the rainfall is zero |
| `Estimate.ConcreteRoofExample` | src/App.jsx:174-248 | 100 m² of concrete roof with 1200 mm of rain and 4 dwellers gives 102 L/year: a Pit at 15000, Moderate, 25.5 L per dweller, with groundwater and soil at their defaults |
| `Estimate.UnknownDistrictExample` | src/App.jsx:194-234 | a district that the rainfall table does not know gets 1000 mm; 50 m² of tile roof then gives 37.5 L/year, a Pit at 15000, and a payback of 8000 |
| `Estimate.ZeroRainfallExample` | src/App.jsx:232-234 | a rainfall of "0" (found through the City column, queried in lower case) gives zero harvest and savings, and the payback is "NA" |
| `Estimate.AquiferOnlyExample` | src/App.jsx:215-229 | when only the aquifer table knows the district, aquifer and recharge come from its row, while depth, soil and rainfall take their defaults |

## Left out

- Loading (lines 28-97) is not modelled: `fetch`, the `response.ok` check, `async`/`await`, and the per-file fallback to an empty dataset. It is network I/O, so the model starts from the four parsed datasets.
- CSV parsing with Papa Parse is not modelled: delimiter guessing, headers and skipping empty lines. It is a library whose code is not part of this model. The model takes `results.data` as a sequence of raw rows.
- The one-second `setTimeout` before the catalog is built is not modelled. It races the parse callbacks, so the catalog is modelled as a function of the datasets.
- React state, hooks, JSX, styles and the dark-mode toggle are left out. So are the HTML report, `toFixed`, `toLocaleString` and the emoji prefixes. The report is a record of values, so the rainfall is kept as its number, not as the raw string.
- The `console` calls and the `totalFilesLoaded` and `totalRowsChecked` counters are diagnostics only, and are left out.
- Floating point is not modelled: rounding, NaN, and a non-numeric rainfall string turning the harvest into NaN. The arithmetic is over `real`, and the string-to-number coercion is the `toNumber` parameter.
- `Estimate.Incomplete` treats only a blank or zero roof area and zero dwellers as missing. `NaN` is falsy in JavaScript and would also block the report, but the model has no `NaN`.
- `Text.Lower`: maps only the ASCII letters A-Z, not the full Unicode case mapping of `toLowerCase`.
- `Text.Less`: compares characters by code point. JavaScript's default sort compares UTF-16 code units, which differ only for characters outside the Basic Multilingual Plane.
- `Rows.Truthy`: counts only non-empty strings as values that stop an alias chain. A non-string, non-null value would also stop a JavaScript `||` chain, and `toLowerCase` on it would throw. The parser produces such a value (the array of surplus fields) only under a key that none of the chains names.
- JavaScript enumerates integer-like property names first, in numeric order. Rows here keep insertion order. This changes which of two keys that trim alike wins only when one of them looks like an array index.
- `Estimate.RunoffCoefficient`: the object lookup `runoffCoeff[roofType]` would also find inherited properties such as `constructor`. The roof type comes from a fixed four-option selector, so the model maps every other name to 0.8.

/**
 * Rows as the CSV parser hands them over, the row cleaner that runs on each
 * parsed dataset, and the alias chains (`row.A || row.B || ...`) through which
 * the engine reads a logical field from a row of unknown schema.
 */
module Rows {
  import opened Wrappers
  import opened Text

  /** A cell: a string, `null`, or some other non-string value (the parser's array of surplus fields). */
  datatype Value = Str(s: string) | Null | Other

  datatype Field = Field(key: string, value: Value)

  /** A row as a JavaScript object: its own properties in enumeration order. */
  type Row = seq<Field>

  /** One reference table: its rows in file order. */
  type Dataset = seq<Row>

  predicate UniqueKeys(r: Row) {
    forall i, j :: 0 <= i < j < |r| ==> r[i].key != r[j].key
  }

  predicate HasKey(r: Row, key: string) {
    exists i :: 0 <= i < |r| && r[i].key == key
  }

  /** `row[key]`: the value of the first property named `key`, if there is one. */
  function Get(r: Row, key: string): (v: Option<Value>)
  {
    if r == [] then None
    else if r[0].key == key then Some(r[0].value)
    else Get(r[1..], key)
  }

  /** A read finds a value exactly when the row has the property, and it is that property's value. */
  lemma {:induction false} GetIff(r: Row, key: string)
    ensures Get(r, key).Some? <==> HasKey(r, key)
    ensures Get(r, key).Some? ==> Field(key, Get(r, key).value) in r
  {
    if r != [] && r[0].key != key {
      GetIff(r[1..], key);
      if HasKey(r, key) {
        var i :| 0 <= i < |r| && r[i].key == key;
        assert r[1..][i - 1] == r[i];
      }
    }
  }

  /** `row[key] = v`: overwrites the property in place when it exists, appends it otherwise. */
  function Assign(r: Row, key: string, v: Value): (r': Row)
    ensures Get(r', key) == Some(v)
    ensures forall k :: k != key ==> Get(r', k) == Get(r, k)
    ensures !HasKey(r, key) ==> r' == r + [Field(key, v)]
    ensures |r'| <= |r| + 1
  {
    if r == [] then [Field(key, v)]
    else if r[0].key == key then [Field(key, v)] + r[1..]
    else [r[0]] + Assign(r[1..], key, v)
  }

  /** Every property after an assignment is the assigned one or one that was there before. */
  lemma {:induction false} AssignFields(r: Row, key: string, v: Value)
    ensures forall i :: 0 <= i < |Assign(r, key, v)| ==> Assign(r, key, v)[i] == Field(key, v) || Assign(r, key, v)[i] in r
  {
    if r != [] && r[0].key != key {
      AssignFields(r[1..], key, v);
      var t := Assign(r[1..], key, v);
      assert Assign(r, key, v) == [r[0]] + t;
      forall i | 1 <= i < |Assign(r, key, v)|
        ensures Assign(r, key, v)[i] == Field(key, v) || Assign(r, key, v)[i] in r
      {
        assert Assign(r, key, v)[i] == t[i - 1];
        if t[i - 1] != Field(key, v) {
          assert t[i - 1] in r[1..];
        }
      }
    }
  }

  /** Assignment never creates a second property with the same name. */
  lemma {:induction false} AssignKeepsKeysUnique(r: Row, key: string, v: Value)
    requires UniqueKeys(r)
    ensures UniqueKeys(Assign(r, key, v))
  {
    if r != [] && r[0].key != key {
      AssignKeepsKeysUnique(r[1..], key, v);
      AssignFields(r[1..], key, v);
      var t := Assign(r[1..], key, v);
      forall i | 0 <= i < |t| ensures t[i].key != r[0].key {
        if t[i] != Field(key, v) {
          assert t[i] in r[1..];
        }
      }
    }
  }

  /** The value a cleaned row stores for `v`: strings trimmed, anything else as it was. */
  function TrimValue(v: Value): Value {
    if v.Str? then Str(Trim(v.s)) else v
  }

  predicate IsTrimmedValue(v: Value) {
    v.Str? ==> IsTrimmed(v.s)
  }

  /** The shape of every row the cleaner emits. */
  predicate Normalized(r: Row) {
    && UniqueKeys(r)
    && forall i :: 0 <= i < |r| ==> IsTrimmed(r[i].key) && IsTrimmedValue(r[i].value)
  }

  /** Builds `cleanRow` by assigning every trimmed key its trimmed value, in enumeration order. */
  function Clean(raw: Row): (r: Row)
    ensures |r| <= |raw|
  {
    if raw == [] then []
    else
      var last := raw[|raw| - 1];
      Assign(Clean(raw[..|raw| - 1]), Trim(last.key), TrimValue(last.value))
  }

  /** Every cleaned row has distinct keys, and all its keys and values are trimmed. */
  lemma {:induction false} CleanIsNormalized(raw: Row)
    ensures Normalized(Clean(raw))
  {
    if raw != [] {
      var last := raw[|raw| - 1];
      var prefix := Clean(raw[..|raw| - 1]);
      CleanIsNormalized(raw[..|raw| - 1]);
      AssignKeepsKeysUnique(prefix, Trim(last.key), TrimValue(last.value));
      AssignFields(prefix, Trim(last.key), TrimValue(last.value));
    }
  }

  /** The filter: some value is neither `null` nor `""`, judged before any trimming. */
  predicate Survives(raw: Row) {
    exists i :: 0 <= i < |raw| && raw[i].value != Null && raw[i].value != Str("")
  }

  /** `results.data.filter(...).map(...)`: the surviving rows, cleaned, in order. */
  function CleanRows(rows: seq<Row>): (out: Dataset)
    ensures |out| <= |rows|
    ensures forall r :: r in rows && Survives(r) ==> Clean(r) in out
    ensures forall x :: x in out ==> exists r :: r in rows && Survives(r) && x == Clean(r)
  {
    if rows == [] then []
    else (if Survives(rows[0]) then [Clean(rows[0])] else []) + CleanRows(rows[1..])
  }

  /** A single row yields its cleaned form exactly when it survives the filter. */
  lemma CleanRowsSingle(r: Row)
    ensures CleanRows([r]) == if Survives(r) then [Clean(r)] else []
  {
    assert [r][1..] == [];
  }

  /**
   * Filtering and mapping keep the order and the multiplicity of the rows:
   * the result for a concatenation is the concatenation of the results.
   * With `CleanRowsSingle` this determines the output row by row.
   */
  lemma {:induction false} CleanRowsAppend(a: seq<Row>, b: seq<Row>)
    ensures CleanRows(a + b) == CleanRows(a) + CleanRows(b)
  {
    if a == [] {
      assert a + b == b;
    } else {
      var head := if Survives(a[0]) then [Clean(a[0])] else [];
      assert (a + b)[0] == a[0];
      assert (a + b)[1..] == a[1..] + b;
      CleanRowsAppend(a[1..], b);
      calc {
        CleanRows(a + b);
        head + CleanRows(a[1..] + b);
        head + (CleanRows(a[1..]) + CleanRows(b));
        { assert head + (CleanRows(a[1..]) + CleanRows(b)) == (head + CleanRows(a[1..])) + CleanRows(b); }
        CleanRows(a) + CleanRows(b);
      }
    }
  }

  /** Some raw property's key trims to `k`: some raw property of `raw` becomes property `k`. */
  predicate RawKey(raw: Row, k: string) {
    exists i :: 0 <= i < |raw| && Trim(raw[i].key) == k
  }

  lemma RawKeySnoc(raw: Row, k: string)
    requires raw != []
    ensures RawKey(raw, k) <==> RawKey(raw[..|raw| - 1], k) || Trim(raw[|raw| - 1].key) == k
  {
    var p := raw[..|raw| - 1];
    if RawKey(raw, k) && Trim(raw[|raw| - 1].key) != k {
      var i :| 0 <= i < |raw| && Trim(raw[i].key) == k;
      assert p[i] == raw[i];
    }
    if RawKey(p, k) {
      var i :| 0 <= i < |p| && Trim(p[i].key) == k;
      assert p[i] == raw[i];
    }
  }

  /** Property `k` exists in the cleaned row exactly when some raw key trims to `k`. */
  lemma {:induction false} CleanKeys(raw: Row, k: string)
    ensures Get(Clean(raw), k).Some? <==> RawKey(raw, k)
  {
    if raw != [] {
      var n := |raw| - 1;
      var p := raw[..n];
      var last := raw[n];
      assert Clean(raw) == Assign(Clean(p), Trim(last.key), TrimValue(last.value));
      RawKeySnoc(raw, k);
      if Trim(last.key) != k {
        CleanKeys(p, k);
      }
    }
  }

  /**
   * The value of property `k` in the cleaned row is the trimmed value of the
   * LAST raw property whose key trims to `k`: later keys win.
   */
  lemma {:induction false} CleanLastWins(raw: Row, k: string, i: nat)
    requires i < |raw| && Trim(raw[i].key) == k
    requires forall j :: i < j < |raw| ==> Trim(raw[j].key) != k
    ensures Get(Clean(raw), k) == Some(TrimValue(raw[i].value))
  {
    var n := |raw| - 1;
    var p := raw[..n];
    CleanGetLast(raw, k);
    if i < n {
      assert Trim(p[i].key) == k && forall j :: i < j < |p| ==> Trim(p[j].key) != k by {
        assert forall j :: 0 <= j < |p| ==> p[j] == raw[j];
      }
      CleanLastWins(p, k, i);
      assert p[i] == raw[i];
    }
  }

  /** Looking up `k` after cleaning: the last raw property decides if it trims to `k`, the rest otherwise. */
  lemma CleanGetLast(raw: Row, k: string)
    requires raw != []
    ensures Trim(raw[|raw| - 1].key) == k ==> Get(Clean(raw), k) == Some(TrimValue(raw[|raw| - 1].value))
    ensures Trim(raw[|raw| - 1].key) != k ==> Get(Clean(raw), k) == Get(Clean(raw[..|raw| - 1]), k)
  {
  }

  /** A row already in cleaned shape is a fixed point of cleaning. */
  lemma {:induction false} CleanNormalized(r: Row)
    requires Normalized(r)
    ensures Clean(r) == r
  {
    if r != [] {
      var n := |r| - 1;
      var p := r[..n];
      var last := r[n];
      NormalizedSnoc(r);
      CleanNormalized(p);
      assert Trim(last.key) == last.key by {
        TrimOfTrimmed(last.key);
      }
      assert TrimValue(last.value) == last.value by {
        if last.value.Str? {
          TrimOfTrimmed(last.value.s);
        }
      }
      assert p + [last] == r;
      calc {
        Clean(r);
        Assign(Clean(p), Trim(last.key), TrimValue(last.value));
        Assign(p, last.key, last.value);
        p + [Field(last.key, last.value)];
      }
    }
  }

  /** Taking the last property off a cleaned-shape row leaves a cleaned-shape row without its key. */
  lemma NormalizedSnoc(r: Row)
    requires Normalized(r) && r != []
    ensures Normalized(r[..|r| - 1])
    ensures !HasKey(r[..|r| - 1], r[|r| - 1].key)
    ensures IsTrimmed(r[|r| - 1].key) && IsTrimmedValue(r[|r| - 1].value)
  {
    var p := r[..|r| - 1];
    assert forall i :: 0 <= i < |p| ==> p[i] == r[i];
  }

  /** Cleaning an already-cleaned row leaves it unchanged. */
  lemma CleanIdempotent(raw: Row)
    ensures Clean(Clean(raw)) == Clean(raw)
  {
    CleanIsNormalized(raw);
    CleanNormalized(Clean(raw));
  }

  /**
   * The filter looks at the raw values: a row whose only values are
   * whitespace survives, and cleans to a row of empty strings.
   */
  lemma WhitespaceRowSurvives()
    ensures Survives([Field("Place", Str(" "))])
    ensures Clean([Field("Place", Str(" "))]) == [Field("Place", Str(""))]
  {
    var raw := [Field("Place", Str(" "))];
    assert raw[0].value != Null && raw[0].value != Str("");
    assert TrimStart(" ") == "";
    assert TrimStart("Place") == "Place" && TrimEnd("Place") == "Place";
  }

  /** Hence cleaning a dataset is not idempotent: a second pass drops that row. */
  lemma CleanRowsNotIdempotent()
    ensures CleanRows(CleanRows([[Field("Place", Str(" "))]])) == []
    ensures CleanRows([[Field("Place", Str(" "))]]) != []
  {
    WhitespaceRowSurvives();
    var once := [Field("Place", Str(""))];
    assert CleanRows([[Field("Place", Str(" "))]]) == [once];
    assert !Survives(once);
  }

  /** A value the `||` chain stops at: a non-empty string. */
  predicate Truthy(v: Option<Value>) {
    v.Some? && v.value.Str? && v.value.s != ""
  }

  /** Position of the first alias under which `r` holds a non-empty string; `|aliases|` when none does. */
  function FirstTruthyIndex(r: Row, aliases: seq<string>): (k: nat)
    ensures k <= |aliases|
    ensures forall j :: 0 <= j < k ==> !Truthy(Get(r, aliases[j]))
    ensures k < |aliases| ==> Truthy(Get(r, aliases[k]))
  {
    if aliases == [] then 0
    else if Truthy(Get(r, aliases[0])) then 0
    else 1 + FirstTruthyIndex(r, aliases[1..])
  }

  /** `row[a1] || row[a2] || ... || fallback` for a row that may be missing altogether. */
  function FieldOr(row: Option<Row>, aliases: seq<string>, fallback: string): (v: string)
    ensures row.None? ==> v == fallback
    ensures row.Some? && (forall k :: 0 <= k < |aliases| ==> !Truthy(Get(row.value, aliases[k]))) ==> v == fallback
    ensures row.Some? ==> forall k :: 0 <= k < |aliases| && Truthy(Get(row.value, aliases[k]))
                                      && (forall j :: 0 <= j < k ==> !Truthy(Get(row.value, aliases[j])))
                                      ==> Get(row.value, aliases[k]) == Some(Str(v))
  {
    if row.None? then fallback
    else
      var k := FirstTruthyIndex(row.value, aliases);
      if k < |aliases| then Get(row.value, aliases[k]).value.s else fallback
  }
}

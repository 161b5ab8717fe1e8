/** Editing the measurement cells of a ten-quantity draft, and the counters shown beside them.

    A measurement set is looked at only after its legacy personnel cell was migrated; `View` is
    that look.  Absent objects read as empty sets and cannot be written to.
 */
module Measurements {
  import opened Wrappers

  // ---------------------------------------------------------------- data

  datatype Amount = NullAmount | Unset | Number(number: real)

  datatype Measurement = Measurement(value: Amount, flags: Option<seq<string>>, metricCode: string, aggregation: string)

  /** A property of a measurement set: null, or a measurement. */
  datatype Cell = NullCell | Cell(m: Measurement)

  type Values = map<string, Cell>

  datatype Reported = Reported(daily: Option<Values>, shifts: map<string, Option<Values>>)

  datatype Day = Day(operatingState: string, reported: Option<Reported>)

  const DAILY := "daily_total"
  const SCOPES: seq<string> := [DAILY, "zero_shift", "eight_shift", "four_shift"]

  const PERSONS := "mine_entry_persons"
  const LABOR := "labor_persons"

  /** The ten quantities with their atomic metrics. */
  const QUANTITIES: seq<seq<string>> := [
    ["ventilation_m3_min"], ["electricity_kwh"], ["detonators_count", "explosives_kg"], [PERSONS],
    ["production_t"], ["extraction_t"], ["transport_t"], ["wash_feed_t"],
    ["sales_t"], ["invoiced_quantity_t"]]

  // ---------------------------------------------------------------- measurement sets

  predicate Truthy(values: Values, metric: string) {
    metric in values && values[metric].Cell?
  }

  /** The in-place migration of `measurementSet`. */
  function Migrated(values: Values): Values {
    if !Truthy(values, PERSONS) && Truthy(values, LABOR) then
      values[PERSONS := Cell(values[LABOR].m.(metricCode := PERSONS, aggregation := "sum"))] - {LABOR}
    else values
  }

  /** Migration is idempotent, keeps the personnel amount, and touches no other metric. */
  lemma MigrationKeeps(values: Values)
    ensures Migrated(Migrated(values)) == Migrated(values)
    ensures Truthy(values, LABOR) && !Truthy(values, PERSONS) ==>
              Truthy(Migrated(values), PERSONS) && LABOR !in Migrated(values)
              && Migrated(values)[PERSONS].m.value == values[LABOR].m.value
              && Migrated(values)[PERSONS].m.flags == values[LABOR].m.flags
              && Migrated(values)[PERSONS].m.metricCode == "mine_entry_persons"
              && Migrated(values)[PERSONS].m.aggregation == "sum"
    ensures !Truthy(values, LABOR) ==> Migrated(values) == values
    ensures Truthy(values, PERSONS) ==> Migrated(values) == values
    ensures forall metric :: metric != PERSONS && metric != LABOR ==>
              (metric in Migrated(values) <==> metric in values)
              && (metric in values ==> Migrated(values)[metric] == values[metric])
  {
  }

  /** The stored set of a day and scope; `None` where the source falls back to a new object. */
  function Stored(day: Day, scope: string): Option<Values> {
    if day.reported.None? then None
    else if scope == DAILY then day.reported.value.daily
    else if scope in day.reported.value.shifts then day.reported.value.shifts[scope]
    else None
  }

  function WithStored(day: Day, scope: string, values: Values): Day
    requires Stored(day, scope).Some?
  {
    var r := day.reported.value;
    day.(reported := Some(if scope == DAILY then r.(daily := Some(values)) else r.(shifts := r.shifts[scope := Some(values)])))
  }

  /** Where the sets of a day are: the daily total beside the shifts, each shift under its name. */
  lemma StoredWhere(state: string, daily: Option<Values>, shifts: map<string, Option<Values>>, scope: string)
    ensures Stored(Day(state, Some(Reported(daily, shifts))), "daily_total") == daily
    ensures scope != "daily_total" ==>
              Stored(Day(state, Some(Reported(daily, shifts))), scope) == if scope in shifts then shifts[scope] else None
    ensures Stored(Day(state, None), scope) == None
  {
  }

  /** And writing one set leaves all else of the day as it is. */
  lemma WithStoredWhere(day: Day, scope: string, values: Values)
    requires Stored(day, scope).Some?
    ensures WithStored(day, scope, values).operatingState == day.operatingState
    ensures var r := day.reported.value;
            var written := if scope == "daily_total" then Reported(Some(values), r.shifts)
                           else Reported(r.daily, r.shifts[scope := Some(values)]);
            WithStored(day, scope, values).reported == Some(written)
  {
  }

  lemma StoredAfter(day: Day, scope: string, values: Values, other: string)
    requires Stored(day, scope).Some?
    ensures Stored(WithStored(day, scope, values), other) == if other == scope then Some(values) else Stored(day, other)
  {
  }

  function Look(day: Day, scope: string): Values {
    Migrated(match Stored(day, scope) case Some(values) => values case None => map[])
  }

  function View(days: seq<Day>, i: int, scope: string): Values {
    if 0 <= i < |days| then Look(days[i], scope) else map[]
  }

  /** `measurementSet`'s effect on the draft. */
  function Settled(days: seq<Day>, i: int, scope: string): seq<Day> {
    if 0 <= i < |days| && Stored(days[i], scope).Some? then days[i := WithStored(days[i], scope, Look(days[i], scope))]
    else days
  }

  /** Looking at a stored set leaves it migrated, and every other set as it was. */
  lemma SettledIs(days: seq<Day>, i: nat, scope: string, j: nat, other: string)
    requires i < |days| && j < |days| && Stored(days[i], scope).Some?
    ensures |Settled(days, i, scope)| == |days|
    ensures Stored(Settled(days, i, scope)[j], other)
         == if j == i && other == scope then Some(Migrated(Stored(days[i], scope).value)) else Stored(days[j], other)
  {
    hide Migrated;
    StoredAfter(days[i], scope, Look(days[i], scope), other);
  }

  // ---------------------------------------------------------------- cells

  predicate NotApplicable(m: Measurement) {
    m.flags.Some? && "not_applicable" in m.flags.value
  }

  /** The cells an edit may write: present and applicable. */
  predicate Editable(values: Values, metric: string) {
    Truthy(values, metric) && !NotApplicable(values[metric].m)
  }

  /** An edit may write a cell that is there, unless it is flagged as not applicable. */
  lemma EditableIff(values: Values, metric: string)
    ensures Editable(values, metric)
       <==> && metric in values && values[metric].Cell?
            && forall flags :: values[metric].m.flags == Some(flags) ==> "not_applicable" !in flags
  {
  }

  predicate Missing(values: Values, metric: string) {
    Editable(values, metric) && values[metric].m.value.NullAmount?
  }

  const REPLACED_FLAGS: set<string> := {"reported", "missing", "unavailable", "not_applicable"}

  function OtherFlags(flags: seq<string>): seq<string> {
    if flags == [] then []
    else (if flags[0] in REPLACED_FLAGS then [] else [flags[0]]) + OtherFlags(flags[1..])
  }

  /** The cell after an edit; a blank input is `None`. */
  function Written(m: Measurement, input: Option<real>): Measurement {
    match input
    case None => m.(value := NullAmount, flags := Some(["missing"]))
    case Some(number) =>
      m.(value := Number(number),
         flags := Some(["reported"] + OtherFlags(if m.flags.Some? then m.flags.value else [])))
  }

  lemma {:induction false} OtherFlagsApplicable(flags: seq<string>)
    ensures "not_applicable" !in OtherFlags(flags)
    decreases |flags|
  {
    if flags != [] {
      OtherFlagsApplicable(flags[1..]);
    }
  }

  /** The other flags are kept, the status flags are not. */
  lemma {:induction false} OtherFlagsAre(flags: seq<string>, flag: string)
    ensures flag in OtherFlags(flags)
       <==> flag in flags && flag != "reported" && flag != "missing" && flag != "unavailable" && flag != "not_applicable"
    decreases |flags|
  {
    if flags != [] {
      OtherFlagsAre(flags[1..], flag);
    }
  }

  /** What is written: the number typed, flagged as reported beside the flags that say nothing
      about the status; or, for a blank input, a null flagged as missing. */
  lemma WrittenIs(m: Measurement, number: real, flag: string)
    ensures var w := Written(m, Some(number));
            && w.value == Number(number) && w.metricCode == m.metricCode && w.aggregation == m.aggregation
            && w.flags.Some? && w.flags.value != [] && w.flags.value[0] == "reported"
            && (flag in w.flags.value[1..] <==>
                 m.flags.Some? && flag in m.flags.value
                 && flag != "reported" && flag != "missing" && flag != "unavailable" && flag != "not_applicable")
    ensures Written(m, None) == Measurement(NullAmount, Some(["missing"]), m.metricCode, m.aggregation)
  {
    OtherFlagsAre(if m.flags.Some? then m.flags.value else [], flag);
  }

  /** A written cell stays applicable, and is missing exactly when the input was blank. */
  lemma WrittenCell(values: Values, metric: string, input: Option<real>)
    requires Editable(values, metric)
    ensures match input
            case Some(number) => Written(values[metric].m, input).value == Number(number)
            case None => Written(values[metric].m, input).value == NullAmount
    ensures var after := values[metric := Cell(Written(values[metric].m, input))];
            Editable(after, metric) && (Missing(after, metric) <==> input.None?)
  {
    var m := values[metric].m;
    OtherFlagsApplicable(if m.flags.Some? then m.flags.value else []);
    assert !NotApplicable(Written(m, input)) by {
      assert "not_applicable" != "missing" && "not_applicable" != "reported" by {
        assert |"not_applicable"| == 14 && |"missing"| == 7 && |"reported"| == 8;
      }
    }
  }

  // ---------------------------------------------------------------- counters

  function MissingIn(values: Values, metrics: seq<string>): nat {
    if metrics == [] then 0
    else (if Missing(values, metrics[0]) then 1 else 0) + MissingIn(values, metrics[1..])
  }

  /** `countMissingMeasurements` */
  function CountMissing(values: Values, quantities: seq<seq<string>>): nat {
    if quantities == [] then 0 else MissingIn(values, quantities[0]) + CountMissing(values, quantities[1..])
  }

  function Flat(quantities: seq<seq<string>>): seq<string> {
    if quantities == [] then [] else quantities[0] + Flat(quantities[1..])
  }

  predicate Distinct(xs: seq<string>) {
    forall i, j :: 0 <= i < j < |xs| ==> xs[i] != xs[j]
  }

  lemma {:induction false} MissingInConcat(values: Values, a: seq<string>, b: seq<string>)
    ensures MissingIn(values, a + b) == MissingIn(values, a) + MissingIn(values, b)
    decreases |a|
  {
    if a == [] {
      assert a + b == b;
    } else {
      assert (a + b)[1..] == a[1..] + b;
      MissingInConcat(values, a[1..], b);
    }
  }

  /** Counting by quantity counts each metric of the flat list. */
  lemma {:induction false} CountIsFlat(values: Values, quantities: seq<seq<string>>)
    ensures CountMissing(values, quantities) == MissingIn(values, Flat(quantities))
    decreases |quantities|
  {
    if quantities != [] {
      CountIsFlat(values, quantities[1..]);
      MissingInConcat(values, quantities[0], Flat(quantities[1..]));
    }
  }

  function Bit(b: bool): int {
    if b then 1 else 0
  }

  /** One changed cell changes the count by its own transition, if its metric is counted. */
  lemma {:induction false} MissingInChange(values: Values, metric: string, cell: Cell, metrics: seq<string>)
    requires Distinct(metrics)
    ensures MissingIn(values[metric := cell], metrics) as int
         == MissingIn(values, metrics)
            + if metric in metrics then Bit(Missing(values[metric := cell], metric)) - Bit(Missing(values, metric)) else 0
    decreases |metrics|
  {
    if metrics != [] {
      var rest := metrics[1..];
      forall k | 0 <= k < |rest| ensures rest[k] != metrics[0] {
        assert rest[k] == metrics[k + 1];
      }
      assert Distinct(rest) by {
        forall i, j | 0 <= i < j < |rest| ensures rest[i] != rest[j] {
          assert rest[i] == metrics[i + 1] && rest[j] == metrics[j + 1];
        }
      }
      MissingInChange(values, metric, cell, rest);
    }
  }

  function ScopeMissing(day: Day, scopes: seq<string>): nat {
    if scopes == [] then 0 else CountMissing(Look(day, scopes[0]), QUANTITIES) + ScopeMissing(day, scopes[1..])
  }

  /** The count `renderDraft` shows: over all days, scopes and quantities. */
  function TotalMissing(days: seq<Day>): nat {
    if days == [] then 0
    else TotalMissing(days[..|days| - 1]) + ScopeMissing(days[|days| - 1], SCOPES)
  }

  /** A metric is received when some day and scope has a cell for it. */
  ghost predicate Received(days: seq<Day>, metric: string) {
    exists i, scope :: 0 <= i < |days| && scope in SCOPES && metric in View(days, i, scope)
  }

  ghost function Coverage(days: seq<Day>, quantities: seq<seq<string>>): nat {
    if quantities == [] then 0
    else (if forall k :: 0 <= k < |quantities[0]| ==> Received(days, quantities[0][k]) then 1 else 0)
         + Coverage(days, quantities[1..])
  }

  // ---------------------------------------------------------------- one edit

  function CellWritten(values: Values, metric: string, input: Option<real>): Values
    requires Editable(values, metric)
  {
    values[metric := Cell(Written(values[metric].m, input))]
  }

  /** The draft after an edit: migrated in any case, written only where editable. */
  function Edited(days: seq<Day>, i: int, scope: string, metric: string, input: Option<real>): seq<Day> {
    var values := View(days, i, scope);
    if 0 <= i < |days| && Stored(days[i], scope).Some? && Editable(values, metric) then
      days[i := WithStored(days[i], scope, CellWritten(values, metric, input))]
    else Settled(days, i, scope)
  }

  lemma WrittenStaysMigrated(values: Values, metric: string, input: Option<real>)
    requires Migrated(values) == values && Editable(values, metric)
    ensures Migrated(CellWritten(values, metric, input)) == CellWritten(values, metric, input)
  {
    assert Truthy(values, LABOR) ==> Truthy(values, PERSONS) || LABOR !in Migrated(values);
  }

  /** The view after an edit: the edited cell in the edited set, and nothing else. */
  lemma EditView(days: seq<Day>, i: int, scope: string, metric: string, input: Option<real>, j: int, other: string)
    ensures View(Edited(days, i, scope, metric, input), j, other)
         == if j == i && other == scope && Editable(View(days, i, scope), metric)
            then CellWritten(View(days, i, scope), metric, input)
            else View(days, j, other)
  {
    hide Migrated, Written, NotApplicable;
    if 0 <= i < |days| && j == i {
      var values := View(days, i, scope);
      MigrationKeeps(match Stored(days[i], scope) case Some(v) => v case None => map[]);
      if Stored(days[i], scope).Some? {
        if Editable(values, metric) {
          WrittenStaysMigrated(values, metric, input);
          StoredAfter(days[i], scope, CellWritten(values, metric, input), other);
        } else {
          StoredAfter(days[i], scope, values, other);
        }
      } else {
        NothingMigrates();
      }
    }
  }

  lemma NothingMigrates()
    ensures Migrated(map[]) == map[]
  {
  }

  /** No other cell changes, and a cell that is not applicable never does. */
  lemma EditFrame(days: seq<Day>, i: int, scope: string, metric: string, input: Option<real>, j: int, other: string, cell: string)
    ensures var before, after := View(days, j, other), View(Edited(days, i, scope, metric, input), j, other);
            && (cell in after <==> cell in before)
            && (cell in before && ((j, other, cell) != (i, scope, metric) || !Editable(before, cell)) ==>
                  after[cell] == before[cell])
  {
    hide Edited, View;
    EditView(days, i, scope, metric, input, j, other);
  }

  /** The edited cell holds what was entered. */
  lemma EditedCellHolds(days: seq<Day>, i: int, scope: string, metric: string, number: real)
    requires Editable(View(days, i, scope), metric)
    ensures var after := View(Edited(days, i, scope, metric, Some(number)), i, scope);
            metric in after && after[metric].Cell? && after[metric].m.value == Number(number)
    ensures var after := View(Edited(days, i, scope, metric, None), i, scope);
            metric in after && after[metric].Cell? && after[metric].m.value == NullAmount
  {
    hide Edited, View, Migrated, NotApplicable;
    EditView(days, i, scope, metric, Some(number), i, scope);
    EditView(days, i, scope, metric, None, i, scope);
  }

  // ---------------------------------------------------------------- the counters track the edit

  const METRICS: seq<string> := [
    "ventilation_m3_min", "electricity_kwh", "detonators_count", "explosives_kg", PERSONS, "production_t",
    "extraction_t", "transport_t", "wash_feed_t", "sales_t", "invoiced_quantity_t"]

  lemma FlatCons(quantity: seq<string>, quantities: seq<seq<string>>)
    ensures Flat([quantity] + quantities) == quantity + Flat(quantities)
  {
    assert ([quantity] + quantities)[1..] == quantities;
  }

  lemma FlatTen(a: string, b: string, c: string, d: string, e: string, f: string, g: string, h: string, i: string, j: string, k: string)
    ensures Flat([[a], [b], [c, d], [e], [f], [g], [h], [i], [j], [k]]) == [a, b, c, d, e, f, g, h, i, j, k]
  {
    hide Flat;
    var q4 := [[h], [i], [j], [k]];
    assert Flat(q4) == [h, i, j, k] by { FlatFour(h, i, j, k); }
    var q7 := [[e], [f], [g]] + q4;
    assert Flat(q7) == [e, f, g, h, i, j, k] by {
      FlatCons([g], q4);
      FlatCons([f], [[g]] + q4);
      FlatCons([e], [[f]] + ([[g]] + q4));
      assert q7 == [[e]] + ([[f]] + ([[g]] + q4));
    }
    FlatCons([c, d], q7);
    FlatCons([b], [[c, d]] + q7);
    FlatCons([a], [[b]] + ([[c, d]] + q7));
    assert [[a], [b], [c, d], [e], [f], [g], [h], [i], [j], [k]] == [[a]] + ([[b]] + ([[c, d]] + q7));
  }

  lemma FlatFour(h: string, i: string, j: string, k: string)
    ensures Flat([[h], [i], [j], [k]]) == [h, i, j, k]
  {
    FlatCons([k], []);
    FlatCons([j], [[k]]);
    FlatCons([i], [[j], [k]]);
    FlatCons([h], [[i], [j], [k]]);
    assert [[j]] + [[k]] == [[j], [k]] && [[i]] + [[j], [k]] == [[i], [j], [k]]
        && [[h]] + [[i], [j], [k]] == [[h], [i], [j], [k]];
  }

  lemma FlatQuantities()
    ensures Flat(QUANTITIES) == METRICS
  {
    hide Flat;
    var m := METRICS;
    FlatTen(m[0], m[1], m[2], m[3], m[4], m[5], m[6], m[7], m[8], m[9], m[10]);
  }

  lemma MetricsDistinct()
    ensures Distinct(METRICS)
  {
    var m := METRICS;
    assert |m[0]| == 18 && |m[1]| == 15 && |m[2]| == 16 && |m[3]| == 13 && |m[4]| == 18 && |m[5]| == 12;
    assert |m[6]| == 12 && |m[7]| == 11 && |m[8]| == 11 && |m[9]| == 7 && |m[10]| == 19;
    assert m[0][0] == 'v' && m[4][0] == 'm' && m[5][0] == 'p' && m[6][0] == 'e' && m[7][0] == 't' && m[8][0] == 'w';
  }

  /** One changed cell changes the count of its set by its own transition. */
  lemma CountChange(values: Values, metric: string, input: Option<real>)
    requires Editable(values, metric)
    ensures CountMissing(CellWritten(values, metric, input), QUANTITIES) as int
         == CountMissing(values, QUANTITIES) + Transition(values, metric, input)
  {
    hide Written, Missing, NotApplicable;
    FlatQuantities();
    MetricsDistinct();
    CountIsFlat(values, QUANTITIES);
    CountIsFlat(CellWritten(values, metric, input), QUANTITIES);
    MissingInChange(values, metric, Cell(Written(values[metric].m, input)), METRICS);
    WrittenCell(values, metric, input);
  }

  /** How an edit of an editable cell changes its missing count. */
  function Transition(values: Values, metric: string, input: Option<real>): int {
    if metric in METRICS then Bit(input.None?) - Bit(Missing(values, metric)) else 0
  }

  lemma {:induction false} ScopeChange(before: Day, after: Day, scope: string, scopes: seq<string>, delta: int)
    requires Distinct(scopes)
    requires forall other :: other in scopes && other != scope ==> Look(after, other) == Look(before, other)
    requires CountMissing(Look(after, scope), QUANTITIES) as int == CountMissing(Look(before, scope), QUANTITIES) + delta
    ensures ScopeMissing(after, scopes) as int == ScopeMissing(before, scopes) + if scope in scopes then delta else 0
    decreases |scopes|
  {
    hide CountMissing, Look;
    if scopes != [] {
      var rest := scopes[1..];
      assert Distinct(rest) by {
        forall i, j | 0 <= i < j < |rest| ensures rest[i] != rest[j] {
          assert rest[i] == scopes[i + 1] && rest[j] == scopes[j + 1];
        }
      }
      forall k | 0 <= k < |rest| ensures rest[k] != scopes[0] {
        assert rest[k] == scopes[k + 1];
      }
      forall other | other in rest && other != scope ensures Look(after, other) == Look(before, other) {
        assert other in scopes;
      }
      ScopeChange(before, after, scope, rest, delta);
      assert scopes[0] in scopes;
    }
  }

  lemma ScopesDistinct()
    ensures Distinct(SCOPES)
  {
    var s := SCOPES;
    assert |s[0]| == 11 && |s[1]| == 10 && |s[2]| == 11 && |s[3]| == 10;
    assert s[0][0] == 'd' && s[1][0] == 'z' && s[2][0] == 'e' && s[3][0] == 'f';
  }

  lemma {:induction false} TotalChange(before: seq<Day>, after: seq<Day>, i: nat, delta: int)
    requires |after| == |before| && i < |before|
    requires forall j :: 0 <= j < |before| && j != i ==> ScopeMissing(after[j], SCOPES) == ScopeMissing(before[j], SCOPES)
    requires ScopeMissing(after[i], SCOPES) as int == ScopeMissing(before[i], SCOPES) + delta
    ensures TotalMissing(after) as int == TotalMissing(before) + delta
    decreases |before|
  {
    hide ScopeMissing;
    var n := |before| - 1;
    if i < n {
      TotalChange(before[..n], after[..n], i, delta);
    } else {
      TotalSame(before[..n], after[..n]);
    }
  }

  lemma {:induction false} TotalSame(before: seq<Day>, after: seq<Day>)
    requires |after| == |before|
    requires forall j :: 0 <= j < |before| ==> ScopeMissing(after[j], SCOPES) == ScopeMissing(before[j], SCOPES)
    ensures TotalMissing(after) == TotalMissing(before)
    decreases |before|
  {
    hide ScopeMissing;
    if before != [] {
      TotalSame(before[..|before| - 1], after[..|before| - 1]);
    }
  }

  /** The total missing count changes by exactly the edited cell's transition; an edit that finds
      no editable cell, or one outside the counted scopes and metrics, leaves it alone. */
  lemma EditCount(days: seq<Day>, i: int, scope: string, metric: string, input: Option<real>)
    ensures TotalMissing(Edited(days, i, scope, metric, input)) as int
         == TotalMissing(days)
            + if scope in SCOPES && Editable(View(days, i, scope), metric) then Transition(View(days, i, scope), metric, input) else 0
  {
    hide CountMissing, Look, Edited, Transition, Editable, CellWritten, TotalMissing, ScopeMissing, Distinct;
    var after := Edited(days, i, scope, metric, input);
    EditedLength(days, i, scope, metric, input);
    var values := View(days, i, scope);
    var delta := if scope in SCOPES && Editable(values, metric) then Transition(values, metric, input) else 0;
    forall j, other | 0 <= j < |days| && (j != i || other != scope)
      ensures Look(after[j], other) == Look(days[j], other)
    {
      EditView(days, i, scope, metric, input, j, other);
    }
    forall j | 0 <= j < |days|
      ensures ScopeMissing(after[j], SCOPES) as int == ScopeMissing(days[j], SCOPES) + if j == i then delta else 0
    {
      ScopesDistinct();
      EditView(days, i, scope, metric, input, j, scope);
      if j == i && Editable(values, metric) {
        CountChange(values, metric, input);
        ScopeChange(days[j], after[j], scope, SCOPES, Transition(values, metric, input));
      } else {
        ScopeChange(days[j], after[j], scope, SCOPES, 0);
      }
    }
    if 0 <= i < |days| {
      TotalChange(days, after, i, delta);
    } else {
      NoDayNoEdit(days, i, scope, metric);
      TotalSame(days, after);
    }
  }

  lemma EditedLength(days: seq<Day>, i: int, scope: string, metric: string, input: Option<real>)
    ensures |Edited(days, i, scope, metric, input)| == |days|
  {
  }

  lemma NoDayNoEdit(days: seq<Day>, i: int, scope: string, metric: string)
    requires !(0 <= i < |days|)
    ensures !Editable(View(days, i, scope), metric)
  {
  }

  // ---------------------------------------------------------------- what the count counts

  ghost function MissingAmong(values: Values, metrics: seq<string>): set<string> {
    set m | m in metrics && Missing(values, m)
  }

  lemma {:induction false} MissingInCounts(values: Values, metrics: seq<string>)
    requires Distinct(metrics)
    ensures MissingIn(values, metrics) == |MissingAmong(values, metrics)|
    decreases |metrics|
  {
    hide Missing;
    if metrics == [] {
      assert MissingAmong(values, metrics) == {};
    } else {
      var rest := metrics[1..];
      DistinctTail(metrics);
      MissingInCounts(values, rest);
      MissingAmongCons(values, metrics[0], rest);
      assert metrics == [metrics[0]] + rest;
      assert metrics[0] !in MissingAmong(values, rest);
    }
  }

  lemma MissingAmongCons(values: Values, metric: string, rest: seq<string>)
    ensures MissingAmong(values, [metric] + rest)
         == (if Missing(values, metric) then {metric} else {}) + MissingAmong(values, rest)
  {
    hide Missing;
    assert forall m :: m in [metric] + rest <==> m == metric || m in rest;
  }

  lemma DistinctTail(xs: seq<string>)
    requires Distinct(xs) && xs != []
    ensures Distinct(xs[1..]) && xs[0] !in xs[1..]
  {
    var rest := xs[1..];
    forall i, j | 0 <= i < j < |rest| ensures rest[i] != rest[j] {
      assert rest[i] == xs[i + 1] && rest[j] == xs[j + 1];
    }
    forall k | 0 <= k < |rest| ensures rest[k] != xs[0] {
      assert rest[k] == xs[k + 1];
    }
  }

  /** A cell of the draft: day, scope, metric. */
  type Place = (nat, string, string)

  ghost function Placed(i: nat, scope: string, metrics: set<string>): set<Place> {
    set m | m in metrics :: (i, scope, m)
  }

  lemma {:induction false} PlacedSize(i: nat, scope: string, metrics: set<string>)
    ensures |Placed(i, scope, metrics)| == |metrics|
    decreases |metrics|
  {
    if m :| m in metrics {
      PlacedSize(i, scope, metrics - {m});
      assert Placed(i, scope, metrics) == Placed(i, scope, metrics - {m}) + {(i, scope, m)};
    } else {
      assert Placed(i, scope, metrics) == {};
    }
  }

  ghost function MissingOfDay(i: nat, day: Day, scopes: seq<string>): set<Place> {
    set scope, m | scope in scopes && m in MissingAmong(Look(day, scope), METRICS) :: (i, scope, m)
  }

  lemma {:induction false} DayCounts(i: nat, day: Day, scopes: seq<string>)
    requires Distinct(scopes)
    ensures ScopeMissing(day, scopes) == |MissingOfDay(i, day, scopes)|
    decreases |scopes|
  {
    hide CountMissing, Look, MissingAmong, MissingIn;
    if scopes == [] {
      assert MissingOfDay(i, day, scopes) == {};
    } else {
      var scope, rest := scopes[0], scopes[1..];
      var here := MissingAmong(Look(day, scope), METRICS);
      DistinctTail(scopes);
      DayCounts(i, day, rest);
      FlatQuantities();
      MetricsDistinct();
      CountIsFlat(Look(day, scope), QUANTITIES);
      MissingInCounts(Look(day, scope), METRICS);
      PlacedSize(i, scope, here);
      assert scopes == [scope] + rest;
      assert MissingOfDay(i, day, scopes) == Placed(i, scope, here) + MissingOfDay(i, day, rest);
      assert Placed(i, scope, here) !! MissingOfDay(i, day, rest);
    }
  }

  /** The places of the ten quantities, on every day and in every scope, whose cell is missing. */
  ghost function MissingPlaces(days: seq<Day>): set<Place> {
    set i: nat, scope, m | 0 <= i < |days| && scope in SCOPES && m in MissingAmong(Look(days[i], scope), METRICS) :: (i, scope, m)
  }

  /** The count shown is the number of those places. */
  lemma {:induction false} TotalCounts(days: seq<Day>)
    ensures TotalMissing(days) == |MissingPlaces(days)|
    decreases |days|
  {
    hide ScopeMissing, MissingPlaces, MissingOfDay;
    if days == [] {
      NoPlaces();
    } else {
      var n := |days| - 1;
      var front := days[..n];
      TotalCounts(front);
      ScopesDistinct();
      DayCounts(n, days[n], SCOPES);
      PlacesSnoc(front, days[n]);
      assert front + [days[n]] == days;
    }
  }

  lemma NoPlaces()
    ensures MissingPlaces([]) == {}
  {
  }

  lemma PlacesSnoc(front: seq<Day>, day: Day)
    ensures MissingPlaces(front + [day]) == MissingPlaces(front) + MissingOfDay(|front|, day, SCOPES)
    ensures MissingPlaces(front) !! MissingOfDay(|front|, day, SCOPES)
  {
    hide Look, MissingAmong;
    var days := front + [day];
    forall i: nat, scope, m
      ensures (i, scope, m) in MissingPlaces(days) <==> (i, scope, m) in MissingPlaces(front) + MissingOfDay(|front|, day, SCOPES)
    {
      assert i < |front| ==> days[i] == front[i];
    }
  }

  lemma MissingPlacesAre(days: seq<Day>, i: nat, scope: string, metric: string)
    ensures (i, scope, metric) in MissingPlaces(days)
       <==> && i < |days| && scope in SCOPES && metric in METRICS
            && var values := View(days, i, scope);
               && metric in values && values[metric].Cell?
               && !(values[metric].m.flags.Some? && "not_applicable" in values[metric].m.flags.value)
               && values[metric].m.value == NullAmount
  {
    hide Migrated;
  }

  /** The quantity coverage does not depend on the values entered. */
  lemma {:induction false} EditCoverage(days: seq<Day>, i: int, scope: string, metric: string, input: Option<real>, quantities: seq<seq<string>>)
    ensures Coverage(Edited(days, i, scope, metric, input), quantities) == Coverage(days, quantities)
    decreases |quantities|
  {
    hide Edited, View;
    if quantities != [] {
      EditCoverage(days, i, scope, metric, input, quantities[1..]);
      forall k | 0 <= k < |quantities[0]|
        ensures Received(Edited(days, i, scope, metric, input), quantities[0][k]) <==> Received(days, quantities[0][k])
      {
        EditReceived(days, i, scope, metric, input, quantities[0][k]);
      }
    }
  }

  lemma EditReceived(days: seq<Day>, i: int, scope: string, metric: string, input: Option<real>, cell: string)
    ensures Received(Edited(days, i, scope, metric, input), cell) <==> Received(days, cell)
  {
    hide Edited, View;
    var after := Edited(days, i, scope, metric, input);
    EditedLength(days, i, scope, metric, input);
    forall j, other ensures cell in View(after, j, other) <==> cell in View(days, j, other) {
      EditFrame(days, i, scope, metric, input, j, other, cell);
    }
  }

  // ---------------------------------------------------------------- in place

  class Payload {
    var days: seq<Day>

    constructor (days: seq<Day>)
      ensures this.days == days
    {
      this.days := days;
    }

    /** `measurementSet`: migrates in place and returns the set. */
    method MeasurementSet(i: int, scope: string) returns (values: Values)
      modifies this
      ensures values == View(old(days), i, scope)
      ensures days == Settled(old(days), i, scope)
    {
      hide WithStored;
      NothingMigrates();
      if !(0 <= i < |days|) || Stored(days[i], scope).None? {
        return map[];
      }
      values := Stored(days[i], scope).value;
      if !Truthy(values, PERSONS) && Truthy(values, LABOR) {
        values := values[PERSONS := Cell(values[LABOR].m.(metricCode := PERSONS, aggregation := "sum"))];
        values := values - {LABOR};
      }
      days := days[i := WithStored(days[i], scope, values)];
    }

    /** The value part of `handleDraftEdit`. */
    method HandleEdit(i: int, scope: string, metric: string, input: Option<real>)
      modifies this
      ensures days == Edited(old(days), i, scope, metric, input)
    {
      hide Migrated, NotApplicable, Written;
      var values := MeasurementSet(i, scope);
      if !Truthy(values, metric) || NotApplicable(values[metric].m) {
        return;
      }
      NothingMigrates();
      assert 0 <= i < |days| && Stored(old(days)[i], scope).Some?;
      StoredAfter(old(days)[i], scope, values, scope);
      RewriteStored(old(days)[i], scope, values, CellWritten(values, metric, input));
      days := days[i := WithStored(days[i], scope, values[metric := Cell(Written(values[metric].m, input))])];
    }

    /** The counting loop of `renderDraft`. */
    method CountAllMissing() returns (missing: nat)
      modifies this
      ensures missing == TotalMissing(old(days))
      ensures |days| == |old(days)|
      ensures forall j, scope :: View(days, j, scope) == View(old(days), j, scope)
    {
      hide CountMissing, Look;
      missing := 0;
      for i := 0 to |days|
        invariant |days| == |old(days)| && missing == TotalMissing(old(days)[..i])
        invariant forall j, scope :: View(days, j, scope) == View(old(days), j, scope)
      {
        ghost var day := old(days)[i];
        ghost var sum := missing;
        for k := 0 to |SCOPES|
          invariant |days| == |old(days)| && missing == sum + ScopeMissing(day, SCOPES[..k])
          invariant forall j, scope :: View(days, j, scope) == View(old(days), j, scope)
        {
          ghost var was := days;
          var values := MeasurementSet(i, SCOPES[k]);
          forall j, scope ensures View(days, j, scope) == View(was, j, scope) {
            SettledView(was, i, SCOPES[k], j, scope);
          }
          assert values == View(old(days), i, SCOPES[k]) == Look(day, SCOPES[k]);
          missing := missing + CountMissing(values, QUANTITIES);
          assert SCOPES[..k + 1] == SCOPES[..k] + [SCOPES[k]];
          ScopeMissingSnoc(day, SCOPES[..k], SCOPES[k]);
        }
        assert SCOPES[..|SCOPES|] == SCOPES;
        assert old(days)[..i + 1][..i] == old(days)[..i];
      }
      assert old(days)[..|old(days)|] == old(days);
    }
  }

  lemma RewriteStored(day: Day, scope: string, values: Values, next: Values)
    requires Stored(day, scope).Some?
    ensures Stored(WithStored(day, scope, values), scope).Some?
    ensures WithStored(WithStored(day, scope, values), scope, next) == WithStored(day, scope, next)
  {
    var shifts := day.reported.value.shifts;
    assert shifts[scope := Some(values)][scope := Some(next)] == shifts[scope := Some(next)];
  }

  lemma {:induction false} ScopeMissingSnoc(day: Day, scopes: seq<string>, scope: string)
    ensures ScopeMissing(day, scopes + [scope]) == ScopeMissing(day, scopes) + CountMissing(Look(day, scope), QUANTITIES)
    decreases |scopes|
  {
    hide CountMissing, Look;
    if scopes == [] {
      assert [] + [scope] == [scope] && [scope][1..] == [];
    } else {
      assert (scopes + [scope])[1..] == scopes[1..] + [scope];
      ScopeMissingSnoc(day, scopes[1..], scope);
    }
  }

  /** Looking never changes what is seen. */
  lemma SettledView(days: seq<Day>, i: int, scope: string, j: int, other: string)
    ensures View(Settled(days, i, scope), j, other) == View(days, j, other)
  {
    hide Migrated;
    if 0 <= i < |days| && Stored(days[i], scope).Some? {
      MigrationKeeps(Stored(days[i], scope).value);
      StoredAfter(days[i], scope, Look(days[i], scope), other);
    }
  }
}

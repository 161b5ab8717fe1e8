/** The column-mapping preview of an upload: rendering, selection changes, the validator and the
    materialiser.
 */
module MappingPreview {
  import opened Wrappers

  // ---------------------------------------------------------------- the whitelist

  /** metric -> may be reported per shift */
  const TARGETS: map<string, bool> := map[
    "ventilation_m3_min" := true, "electricity_kwh" := true, "detonators_count" := true,
    "explosives_kg" := true, "mine_entry_persons" := true, "production_t" := true,
    "extraction_t" := true, "sales_t" := true, "transport_t" := true,
    "wash_feed_t" := true, "invoiced_quantity_t" := true]

  const PERIODS: set<string> := {"daily_total", "zero_shift", "eight_shift", "four_shift"}

  const IGNORE := "__ignore__"
  const DATE := "__date__"

  predicate Allowed(metric: string, period: string) {
    && metric in TARGETS && (period == "daily_total" || TARGETS[metric])
    && period in PERIODS
  }

  function MappingKey(metric: string, period: string): string {
    metric + "|" + period
  }

  /** What the selection list offers: nothing yet, ignore, or one allowed key. */
  ghost predicate IsOption(value: string) {
    value == "" || value == IGNORE || IsKey(value)
  }

  ghost predicate IsKey(value: string) {
    exists m, p :: Allowed(m, p) && value == MappingKey(m, p)
  }

  // ---------------------------------------------------------------- keys split back

  predicate NoBar(s: string) {
    forall i :: 0 <= i < |s| ==> s[i] != '|'
  }

  /** The first two parts of `value.split("|")`; `None` for a missing second part. */
  function SplitKey(value: string): (string, Option<string>) {
    var metric := UpToBar(value);
    (metric, if |metric| == |value| then None else Some(UpToBar(value[|metric| + 1..])))
  }

  function UpToBar(s: string): (r: string)
    ensures r <= s && NoBar(r)
    ensures |r| < |s| ==> s[|r|] == '|'
  {
    if s == "" || s[0] == '|' then "" else [s[0]] + UpToBar(s[1..])
  }

  lemma {:induction false} UpToFirstBar(a: string, rest: string)
    requires NoBar(a) && (rest == "" || rest[0] == '|')
    ensures UpToBar(a + rest) == a
    decreases |a|
  {
    if a == "" {
      assert a + rest == rest;
    } else {
      assert (a + rest)[1..] == a[1..] + rest;
      UpToFirstBar(a[1..], rest);
    }
  }

  lemma TargetsHaveNoBar(metric: string)
    requires metric in TARGETS
    ensures NoBar(metric)
  {
  }

  lemma PeriodsHaveNoBar(period: string)
    requires period in PERIODS
    ensures NoBar(period)
  {
  }

  /** An allowed key splits back into its metric and period, and is neither empty nor the
      ignore mark. */
  lemma KeySplits(metric: string, period: string)
    requires Allowed(metric, period)
    ensures SplitKey(MappingKey(metric, period)) == (metric, Some(period))
    ensures MappingKey(metric, period) != "" && MappingKey(metric, period) != IGNORE
  {
    hide SplitKey;
    TargetsHaveNoBar(metric);
    PeriodsHaveNoBar(period);
    SplitNoBars(metric, period);
    BarIsNotPlain(metric, period);
  }

  lemma BarIsNotPlain(metric: string, period: string)
    ensures !NoBar(MappingKey(metric, period)) && NoBar(IGNORE) && NoBar("")
  {
    assert MappingKey(metric, period)[|metric|] == '|';
  }

  lemma SplitNoBars(a: string, b: string)
    requires NoBar(a) && NoBar(b)
    ensures SplitKey(a + "|" + b) == (a, Some(b))
  {
    var key := a + "|" + b;
    assert key == a + ("|" + b);
    UpToFirstBar(a, "|" + b);
    assert key[|a| + 1..] == b + "";
    UpToFirstBar(b, "");
  }

  /** A text without bars is one part. */
  lemma SplitPlain(s: string)
    requires NoBar(s)
    ensures SplitKey(s) == (s, None)
  {
    assert s == s + "";
    UpToFirstBar(s, "");
  }

  // ---------------------------------------------------------------- columns

  /** A column of the service's answer; `None` for an index that is no integer. */
  datatype RawColumn = RawColumn(sourceIndex: Option<int>, metric: Option<string>, period: Option<string>, status: string)

  datatype Column = Column(
    sourceIndex: int, metric: Option<string>, period: Option<string>, status: string,
    selection: string, humanChanged: bool)
  {
    predicate IsDate() {
      metric == Some("date") || status == "date"
    }

    predicate Mapped() {
      !IsDate() && selection != "" && selection != IGNORE
    }
  }

  datatype Mapping = Mapping(sourceIndex: int, metric: string, period: string)

  /** The column a raw column is shown as: a proposed allowed mapping is preselected unless the
      service left it unmapped or blocked it. */
  function Shown(raw: RawColumn): Column
    requires raw.sourceIndex.Some?
  {
    var c := Column(raw.sourceIndex.value, raw.metric, raw.period, raw.status, "", false);
    if c.IsDate() then c.(selection := DATE)
    else if raw.status != "unmapped" && raw.status != "blocked" && raw.metric.Some? && raw.period.Some?
            && Allowed(raw.metric.value, raw.period.value)
    then c.(selection := MappingKey(raw.metric.value, raw.period.value))
    else c
  }

  predicate GoodIndexes(raws: seq<RawColumn>) {
    && (forall i :: 0 <= i < |raws| ==> raws[i].sourceIndex.Some? && raws[i].sourceIndex.value >= 0)
    && (forall i, j :: 0 <= i < j < |raws| ==> raws[i].sourceIndex != raws[j].sourceIndex)
  }

  /** The date column comes first, unless a column of its index is already listed. */
  function WithDate(raws: seq<RawColumn>, date: Option<int>): seq<RawColumn> {
    if date.Some? && !(exists i :: 0 <= i < |raws| && raws[i].sourceIndex == date) then
      [RawColumn(date, Some("date"), None, "date")] + raws
    else raws
  }

  /** The date column, named by its index alone, comes first unless its index is listed already. */
  lemma WithDateIs(raws: seq<RawColumn>, date: Option<int>)
    ensures date.None? || (exists i :: 0 <= i < |raws| && raws[i].sourceIndex == date) ==> WithDate(raws, date) == raws
    ensures date.Some? && (forall i :: 0 <= i < |raws| ==> raws[i].sourceIndex != date) ==>
              WithDate(raws, date) == [RawColumn(date, Some("date"), None, "date")] + raws
  {
  }

  /** The service proposes this target for the column, and the client may take the proposal over. */
  predicate Proposes(raw: RawColumn, metric: string, period: string) {
    && raw.metric == Some(metric) && raw.period == Some(period)
    && raw.status != "unmapped" && raw.status != "blocked" && Allowed(metric, period)
  }

  predicate NamesDate(raw: RawColumn) {
    raw.metric == Some("date") || raw.status == "date"
  }

  /** A column is shown as the service describes it, not yet changed by anyone: the date under its
      mark, a usable proposal preselected, any other column unresolved. */
  lemma ShownIs(raw: RawColumn)
    requires raw.sourceIndex.Some?
    ensures var c := Shown(raw);
            && c.sourceIndex == raw.sourceIndex.value && c.metric == raw.metric && c.period == raw.period
            && c.status == raw.status && !c.humanChanged && (c.IsDate() <==> NamesDate(raw))
            && (NamesDate(raw) ==> c.selection == "__date__")
            && (forall m, p :: !NamesDate(raw) && Proposes(raw, m, p) ==> c.selection == m + "|" + p)
            && (!NamesDate(raw) && (forall m, p :: !Proposes(raw, m, p)) ==> c.selection == "")
  {
    if !NamesDate(raw) && raw.metric.Some? && raw.period.Some? && Shown(raw).selection != "" {
      assert Proposes(raw, raw.metric.value, raw.period.value);
    }
  }

  function AllShown(raws: seq<RawColumn>): (columns: seq<Column>)
    requires GoodIndexes(raws)
    ensures |columns| == |raws|
  {
    seq(|raws|, i requires 0 <= i < |raws| => Shown(raws[i]))
  }

  lemma ShownIndexes(raws: seq<RawColumn>)
    requires GoodIndexes(raws)
    ensures forall i :: 0 <= i < |raws| ==>
              AllShown(raws)[i].sourceIndex >= 0 && Some(AllShown(raws)[i].sourceIndex) == raws[i].sourceIndex
  {
  }

  // ---------------------------------------------------------------- what can be reached

  /** Indexes are distinct; a date column keeps its mark, any other column holds an option. */
  ghost predicate Inv(columns: seq<Column>) {
    && (forall i, j :: 0 <= i < j < |columns| ==> columns[i].sourceIndex != columns[j].sourceIndex)
    && forall i :: 0 <= i < |columns| ==>
         if columns[i].IsDate() then columns[i].selection == DATE else IsOption(columns[i].selection)
  }

  lemma ShownInv(raws: seq<RawColumn>)
    requires GoodIndexes(raws)
    ensures Inv(AllShown(raws))
  {
    forall i | 0 <= i < |raws|
      ensures var c := AllShown(raws)[i]; if c.IsDate() then c.selection == DATE else IsOption(c.selection)
    {
      var raw := raws[i];
      if raw.metric.Some? && raw.period.Some? && Allowed(raw.metric.value, raw.period.value) {
        assert IsKey(MappingKey(raw.metric.value, raw.period.value));
      }
    }
  }

  // ---------------------------------------------------------------- validator and materialiser

  predicate Resolved(columns: seq<Column>) {
    forall i :: 0 <= i < |columns| && !columns[i].IsDate() ==> columns[i].selection != ""
  }

  predicate SomeMapped(columns: seq<Column>) {
    exists i :: 0 <= i < |columns| && columns[i].Mapped()
  }

  predicate NoSharedKey(columns: seq<Column>) {
    forall i, j :: 0 <= i < j < |columns| && columns[i].Mapped() && columns[j].Mapped() ==>
      columns[i].selection != columns[j].selection
  }

  /** No column unresolved, some column mapped, no key used twice. */
  predicate Acceptable(columns: seq<Column>) {
    Resolved(columns) && SomeMapped(columns) && NoSharedKey(columns)
  }

  /** The columns that are to be written: not the date, not ignored. */
  function Chosen(columns: seq<Column>): seq<Column> {
    if columns == [] then []
    else
      var last := columns[|columns| - 1];
      Chosen(columns[..|columns| - 1]) + if last.IsDate() || last.selection == IGNORE then [] else [last]
  }

  /** `None` where the materialiser throws. */
  function MappingOf(c: Column): Option<Mapping> {
    var (metric, period) := SplitKey(c.selection);
    if period.Some? && Allowed(metric, period.value) then Some(Mapping(c.sourceIndex, metric, period.value)) else None
  }

  function MappingsOf(chosen: seq<Column>): Option<seq<Mapping>> {
    if chosen == [] then Some([])
    else
      var front, last := MappingsOf(chosen[..|chosen| - 1]), MappingOf(chosen[|chosen| - 1]);
      if front.None? || last.None? then None else Some(front.value + [last.value])
  }

  function Materialized(columns: seq<Column>): Option<seq<Mapping>> {
    MappingsOf(Chosen(columns))
  }

  /** How many mapped columns use the key `s`. */
  function Uses(columns: seq<Column>, s: string): nat {
    if columns == [] then 0
    else
      var last := columns[|columns| - 1];
      Uses(columns[..|columns| - 1], s) + if last.Mapped() && last.selection == s then 1 else 0
  }

  lemma {:induction false} UsedSomewhere(columns: seq<Column>, s: string)
    ensures Uses(columns, s) > 0 <==> exists i :: 0 <= i < |columns| && columns[i].Mapped() && columns[i].selection == s
    decreases |columns|
  {
    if columns != [] {
      var front := columns[..|columns| - 1];
      UsedSomewhere(front, s);
      if Uses(front, s) > 0 {
        var i :| 0 <= i < |front| && front[i].Mapped() && front[i].selection == s;
        assert columns[i].Mapped() && columns[i].selection == s;
      }
    }
  }

  /** A key is used twice exactly when two mapped columns share it. */
  lemma {:induction false} UsedTwice(columns: seq<Column>, s: string)
    ensures Uses(columns, s) > 1
       <==> exists i, j :: 0 <= i < j < |columns| && columns[i].Mapped() && columns[j].Mapped()
                           && columns[i].selection == s && columns[j].selection == s
    decreases |columns|
  {
    if columns != [] {
      var n := |columns| - 1;
      var front := columns[..n];
      UsedTwice(front, s);
      UsedSomewhere(front, s);
      if Uses(front, s) > 1 {
        var i, j :| 0 <= i < j < |front| && front[i].Mapped() && front[j].Mapped()
                    && front[i].selection == s && front[j].selection == s;
        assert columns[i].Mapped() && columns[j].Mapped() && columns[i].selection == s && columns[j].selection == s;
      } else if Uses(columns, s) > 1 {
        var i :| 0 <= i < |front| && front[i].Mapped() && front[i].selection == s;
        assert columns[i].Mapped() && columns[n].Mapped() && columns[i].selection == s && columns[n].selection == s;
      }
    }
  }

  lemma NoDuplicates(columns: seq<Column>)
    ensures (forall s :: Uses(columns, s) <= 1) <==> NoSharedKey(columns)
  {
    forall s ensures Uses(columns, s) > 1
       <==> exists i, j :: 0 <= i < j < |columns| && columns[i].Mapped() && columns[j].Mapped()
                           && columns[i].selection == s && columns[j].selection == s
    {
      UsedTwice(columns, s);
    }
    if i, j :| 0 <= i < j < |columns| && columns[i].Mapped() && columns[j].Mapped()
               && columns[i].selection == columns[j].selection {
      assert Uses(columns, columns[i].selection) > 1;
    }
  }

  lemma GoodIndexesSnoc(raws: seq<RawColumn>, raw: RawColumn)
    requires GoodIndexes(raws)
    ensures GoodIndexes(raws + [raw])
       <==> && raw.sourceIndex.Some? && raw.sourceIndex.value >= 0
            && forall k :: 0 <= k < |raws| ==> raws[k].sourceIndex != raw.sourceIndex
  {
    var all := raws + [raw];
    assert all[|raws|] == raw;
    assert forall k :: 0 <= k < |raws| ==> all[k] == raws[k];
    if GoodIndexes(all) {
      forall k | 0 <= k < |raws| ensures raws[k].sourceIndex != raw.sourceIndex {
        assert all[k].sourceIndex != all[|raws|].sourceIndex;
      }
    }
  }

  lemma NoIndexes()
    ensures GoodIndexes([])
  {
  }

  lemma GoodIndexesPrefix(raws: seq<RawColumn>, n: nat)
    requires n <= |raws| && GoodIndexes(raws)
    ensures GoodIndexes(raws[..n])
  {
  }

  class UploadPreview {
    var columns: seq<Column>

    constructor (columns: seq<Column>)
      ensures this.columns == columns
    {
      this.columns := columns;
    }

    /** `renderUploadPreview`; `None` where it throws. */
    static method Render(previewId: string, raws: seq<RawColumn>, date: Option<int>) returns (r: Option<UploadPreview>)
      ensures r.Some? <==> previewId != "" && raws != [] && GoodIndexes(WithDate(raws, date))
      ensures r.Some? ==> fresh(r.value) && r.value.columns == AllShown(WithDate(raws, date)) && Inv(r.value.columns)
      ensures r.Some? ==>
                forall i :: 0 <= i < |r.value.columns| ==>
                  r.value.columns[i].sourceIndex >= 0 && Some(r.value.columns[i].sourceIndex) == WithDate(raws, date)[i].sourceIndex
    {
      hide GoodIndexes, Shown, Inv;
      if previewId == "" || raws == [] {
        return None;
      }
      var previewColumns := WithDate(raws, date);
      NoIndexes();
      var sourceIndexes: set<int> := {};
      var shown: seq<Column> := [];
      for i := 0 to |previewColumns|
        invariant GoodIndexes(previewColumns[..i]) && shown == AllShown(previewColumns[..i])
        invariant forall x :: x in sourceIndexes <==> exists k :: 0 <= k < i && previewColumns[..i][k].sourceIndex == Some(x)
      {
        var index := previewColumns[i].sourceIndex;
        assert previewColumns[..i + 1] == previewColumns[..i] + [previewColumns[i]];
        GoodIndexesSnoc(previewColumns[..i], previewColumns[i]);
        if index.None? || index.value < 0 || index.value in sourceIndexes {
          if GoodIndexes(previewColumns) {
            GoodIndexesPrefix(previewColumns, i + 1);
          }
          return None;
        }
        sourceIndexes := sourceIndexes + {index.value};
        shown := shown + [Shown(previewColumns[i])];
      }
      assert previewColumns[..|previewColumns|] == previewColumns;
      ShownInv(previewColumns);
      var preview := new UploadPreview(shown);
      ShownIndexes(previewColumns);
      r := Some(preview);
    }

    /** `handlePreviewMappingChange`: the selection list offers options only. */
    method HandleMappingChange(sourceIndex: int, value: string)
      requires Inv(columns) && IsOption(value)
      modifies this
      ensures Inv(columns) && |columns| == |old(columns)|
      ensures forall i :: 0 <= i < |columns| ==>
                columns[i] == if old(columns)[i].sourceIndex == sourceIndex && !old(columns)[i].IsDate()
                              then old(columns)[i].(selection := value, humanChanged := true)
                              else old(columns)[i]
    {
      var i := 0;
      while i < |columns| && columns[i].sourceIndex != sourceIndex
        invariant 0 <= i <= |columns|
        invariant forall k :: 0 <= k < i ==> columns[k].sourceIndex != sourceIndex
      {
        i := i + 1;
      }
      if i == |columns| || columns[i].IsDate() {
        return;
      }
      columns := columns[i := columns[i].(selection := value, humanChanged := true)];
    }

    /** `validatePreviewMappings` */
    method ValidateMappings() returns (valid: bool)
      ensures valid <==> Acceptable(columns)
    {
      hide NoSharedKey, Column.IsDate;
      var unresolved, mapped := 0, 0;
      var targets: map<string, seq<int>> := map[];
      for i := 0 to |columns|
        invariant unresolved == 0 <==> forall k :: 0 <= k < i && !columns[k].IsDate() ==> columns[k].selection != ""
        invariant mapped > 0 <==> exists k :: 0 <= k < i && columns[k].Mapped()
        invariant forall s :: s in targets <==> Uses(columns[..i], s) > 0
        invariant forall s :: s in targets ==> |targets[s]| == Uses(columns[..i], s)
        invariant unresolved >= 0 && mapped >= 0
      {
        var column := columns[i];
        assert columns[..i + 1] == columns[..i] + [column];
        if !column.IsDate() {
          if column.selection == "" {
            unresolved := unresolved + 1;
          } else if column.selection != IGNORE {
            mapped := mapped + 1;
            var seen := if column.selection in targets then targets[column.selection] else [];
            targets := targets[column.selection := seen + [column.sourceIndex]];
          }
        }
      }
      assert columns[..|columns|] == columns;
      var duplicates := set s | s in targets && |targets[s]| > 1;
      NoDuplicates(columns);
      assert forall s :: s in duplicates <==> Uses(columns, s) > 1;
      valid := mapped > 0 && unresolved == 0 && duplicates == {};
    }

    /** `materializeMappings`; `None` where it throws. */
    method MaterializeMappings() returns (r: Option<seq<Mapping>>)
      ensures r == Materialized(columns)
    {
      hide MappingOf, Column.IsDate;
      var chosen: seq<Column> := [];
      for i := 0 to |columns|
        invariant chosen == Chosen(columns[..i])
      {
        assert columns[..i + 1][..i] == columns[..i];
        if !columns[i].IsDate() && columns[i].selection != IGNORE {
          chosen := chosen + [columns[i]];
        }
      }
      assert columns[..|columns|] == columns;
      var mappings: seq<Mapping> := [];
      for i := 0 to |chosen|
        invariant MappingsOf(chosen[..i]) == Some(mappings)
      {
        assert chosen[..i + 1][..i] == chosen[..i];
        var mapping := MappingOf(chosen[i]);
        if mapping.None? {
          StaysNone(chosen, i + 1);
          return None;
        }
        mappings := mappings + [mapping.value];
      }
      assert chosen[..|chosen|] == chosen;
      r := Some(mappings);
    }
  }

  lemma {:induction false} StaysNone(chosen: seq<Column>, n: nat)
    requires n <= |chosen| && MappingsOf(chosen[..n]).None?
    ensures MappingsOf(chosen).None?
    decreases |chosen|
  {
    if n < |chosen| {
      var front := chosen[..|chosen| - 1];
      assert front[..n] == chosen[..n];
      StaysNone(front, n);
    } else {
      assert chosen[..n] == chosen;
    }
  }

  // ---------------------------------------------------------------- what acceptance guarantees

  predicate DistinctIndexes(columns: seq<Column>) {
    forall i, j :: 0 <= i < j < |columns| ==> columns[i].sourceIndex != columns[j].sourceIndex
  }

  predicate DistinctKeys(columns: seq<Column>) {
    forall i, j :: 0 <= i < j < |columns| ==> columns[i].selection != columns[j].selection
  }

  predicate DistinctTargets(ms: seq<Mapping>) {
    forall i, j :: 0 <= i < j < |ms| ==> ms[i].metric != ms[j].metric || ms[i].period != ms[j].period
  }

  predicate ToBeWritten(c: Column) {
    !c.IsDate() && c.selection != IGNORE
  }

  lemma {:induction false} ChosenAre(columns: seq<Column>)
    ensures forall c :: c in Chosen(columns) <==> c in columns && ToBeWritten(c)
    ensures DistinctIndexes(columns) ==> DistinctIndexes(Chosen(columns))
    decreases |columns|
  {
    if columns != [] {
      var n := |columns| - 1;
      var front, last := columns[..n], columns[n];
      ChosenAre(front);
      assert columns == front + [last];
      if DistinctIndexes(columns) {
        forall i | 0 <= i < |Chosen(front)| ensures Chosen(front)[i].sourceIndex != last.sourceIndex {
          assert Chosen(front)[i] in front;
          var k :| 0 <= k < n && front[k] == Chosen(front)[i];
          assert columns[k].sourceIndex != columns[n].sourceIndex;
        }
      }
    }
  }

  lemma PlaceOf(columns: seq<Column>, c: Column) returns (i: nat)
    requires c in columns
    ensures i < |columns| && columns[i] == c
  {
    i :| 0 <= i < |columns| && columns[i] == c;
  }

  lemma SharedKeyInChosen(columns: seq<Column>, i: nat, j: nat)
    requires i < j < |columns| && columns[i].Mapped() && columns[j].Mapped() && columns[i].sourceIndex != columns[j].sourceIndex
    requires columns[i].selection == columns[j].selection
    ensures !DistinctKeys(Chosen(columns))
  {
    hide Chosen;
    ChosenAre(columns);
    var x := PlaceOf(Chosen(columns), columns[i]);
    var y := PlaceOf(Chosen(columns), columns[j]);
    assert x < y || y < x;
  }

  lemma SharedKeyOfChosen(columns: seq<Column>, x: nat, y: nat)
    requires DistinctIndexes(columns) && Resolved(columns)
    requires x < y < |Chosen(columns)| && Chosen(columns)[x].selection == Chosen(columns)[y].selection
    ensures !NoSharedKey(columns)
  {
    hide Chosen;
    var chosen := Chosen(columns);
    ChosenAre(columns);
    assert chosen[x].sourceIndex != chosen[y].sourceIndex;
    assert chosen[x] in columns && chosen[y] in columns;
    var i := PlaceOf(columns, chosen[x]);
    var j := PlaceOf(columns, chosen[y]);
    assert columns[i].Mapped() && columns[j].Mapped();
    assert i < j || j < i;
  }

  /** The columns to be written share a key exactly when two mapped columns do. */
  lemma KeysOfChosen(columns: seq<Column>)
    requires DistinctIndexes(columns) && Resolved(columns)
    ensures DistinctKeys(Chosen(columns)) <==> NoSharedKey(columns)
  {
    hide Chosen, Resolved;
    if !NoSharedKey(columns) {
      var i, j :| 0 <= i < j < |columns| && columns[i].Mapped() && columns[j].Mapped()
                  && columns[i].selection == columns[j].selection;
      SharedKeyInChosen(columns, i, j);
    }
    if !DistinctKeys(Chosen(columns)) {
      var x, y :| 0 <= x < y < |Chosen(columns)| && Chosen(columns)[x].selection == Chosen(columns)[y].selection;
      SharedKeyOfChosen(columns, x, y);
    }
  }

  predicate AllResolved(chosen: seq<Column>) {
    forall c :: c in chosen ==> c.selection != ""
  }

  lemma ResolvedChosen(columns: seq<Column>)
    ensures AllResolved(Chosen(columns)) <==> Resolved(columns)
    ensures Resolved(columns) ==> (Chosen(columns) != [] <==> SomeMapped(columns))
  {
    hide Chosen;
    var chosen := Chosen(columns);
    ChosenAre(columns);
    if i :| 0 <= i < |columns| && !columns[i].IsDate() && columns[i].selection == "" {
      assert columns[i] in chosen;
    }
    if c :| c in chosen && c.selection == "" {
      var i := PlaceOf(columns, c);
    }
    if chosen != [] {
      assert chosen[0] in chosen;
      var k := PlaceOf(columns, chosen[0]);
      assert Resolved(columns) ==> columns[k].Mapped();
    }
    if k :| 0 <= k < |columns| && columns[k].Mapped() {
      assert columns[k] in chosen;
    }
  }

  /** On reachable columns, a column to be written is mapped or unresolved, and the materialiser
      throws on exactly the unresolved ones. */
  lemma MappingOfOption(c: Column)
    requires IsOption(c.selection) && ToBeWritten(c)
    ensures MappingOf(c).Some? <==> c.selection != ""
    ensures MappingOf(c).Some? ==>
              var m := MappingOf(c).value;
              m.sourceIndex == c.sourceIndex && Allowed(m.metric, m.period) && MappingKey(m.metric, m.period) == c.selection
  {
    hide Allowed;
    if c.selection == "" {
      SplitPlain("");
    } else {
      var m, p :| Allowed(m, p) && c.selection == MappingKey(m, p);
      KeySplits(m, p);
    }
  }

  lemma {:induction false} MappingsOfEach(chosen: seq<Column>)
    ensures MappingsOf(chosen).Some? <==> forall i :: 0 <= i < |chosen| ==> MappingOf(chosen[i]).Some?
    ensures MappingsOf(chosen).Some? ==>
              && |MappingsOf(chosen).value| == |chosen|
              && forall i :: 0 <= i < |chosen| ==> Some(MappingsOf(chosen).value[i]) == MappingOf(chosen[i])
    decreases |chosen|
  {
    hide MappingOf;
    if chosen != [] {
      MappingsOfEach(chosen[..|chosen| - 1]);
    }
  }

  /** What the materialiser makes of the columns to be written: one mapping each, in order, at
      their source index, whitelisted, and naming the selected key. */
  lemma MaterializedEach(columns: seq<Column>)
    requires Inv(columns)
    ensures var chosen := Chosen(columns);
            && (Materialized(columns).Some? <==> AllResolved(chosen))
            && (Materialized(columns).Some? ==>
                 var ms := Materialized(columns).value;
                 && |ms| == |chosen|
                 && forall i :: 0 <= i < |ms| ==>
                      && ms[i].sourceIndex == chosen[i].sourceIndex && Allowed(ms[i].metric, ms[i].period)
                      && MappingKey(ms[i].metric, ms[i].period) == chosen[i].selection)
  {
    hide MappingOf, Allowed, MappingKey;
    var chosen := Chosen(columns);
    ChosenAre(columns);
    MappingsOfEach(chosen);
    forall i | 0 <= i < |chosen|
      ensures MappingOf(chosen[i]).Some? <==> chosen[i].selection != ""
      ensures MappingOf(chosen[i]).Some? ==>
                var m := MappingOf(chosen[i]).value;
                m.sourceIndex == chosen[i].sourceIndex && Allowed(m.metric, m.period) && MappingKey(m.metric, m.period) == chosen[i].selection
    {
      assert chosen[i] in columns;
      MappingOfOption(chosen[i]);
    }
  }

  /** The validator accepts exactly what can be materialised without throwing into a non-empty
      list in which no metric and period occur twice. */
  lemma AcceptedIffMaterializable(columns: seq<Column>)
    requires Inv(columns)
    ensures Acceptable(columns)
       <==> && Materialized(columns).Some? && Materialized(columns).value != []
            && DistinctTargets(Materialized(columns).value)
  {
    hide Allowed, MappingKey, Materialized, Chosen, Resolved, SomeMapped, NoSharedKey, AllResolved, DistinctKeys, DistinctTargets;
    MaterializedEach(columns);
    ResolvedChosen(columns);
    if Materialized(columns).Some? {
      KeysOfChosen(columns);
      SameDistinctness(Chosen(columns), Materialized(columns).value);
    }
  }

  lemma SameDistinctness(chosen: seq<Column>, ms: seq<Mapping>)
    requires |ms| == |chosen|
    requires forall i :: 0 <= i < |ms| ==> Allowed(ms[i].metric, ms[i].period) && MappingKey(ms[i].metric, ms[i].period) == chosen[i].selection
    ensures DistinctKeys(chosen) <==> DistinctTargets(ms)
  {
    hide Allowed, MappingKey;
    forall i | 0 <= i < |ms| ensures SplitKey(chosen[i].selection) == (ms[i].metric, Some(ms[i].period)) {
      KeySplits(ms[i].metric, ms[i].period);
    }
  }

  predicate Whitelisted(ms: seq<Mapping>) {
    forall i :: 0 <= i < |ms| ==> Allowed(ms[i].metric, ms[i].period)
  }

  predicate DistinctSources(ms: seq<Mapping>) {
    forall i, j :: 0 <= i < j < |ms| ==> ms[i].sourceIndex != ms[j].sourceIndex
  }

  /** Every mapping is some column's, and every column to be written has a mapping. */
  predicate Covers(columns: seq<Column>, ms: seq<Mapping>) {
    && (forall i :: 0 <= i < |ms| ==> MadeOfSome(columns, ms[i]))
    && (forall k :: 0 <= k < |columns| && ToBeWritten(columns[k]) ==> HasMapping(columns[k], ms))
  }

  predicate MadeOfSome(columns: seq<Column>, m: Mapping) {
    exists k :: 0 <= k < |columns| && Writes(columns[k], m)
  }

  predicate HasMapping(c: Column, ms: seq<Mapping>) {
    exists i :: 0 <= i < |ms| && Writes(c, ms[i])
  }

  /** Once accepted, the written mappings are whitelisted, come from distinct columns, and cover
      every column that is neither the date nor ignored, each exactly once. */
  lemma AcceptedCovers(columns: seq<Column>)
    requires Inv(columns) && Acceptable(columns)
    ensures Materialized(columns).Some?
    ensures Whitelisted(Materialized(columns).value)
    ensures DistinctSources(Materialized(columns).value)
    ensures Covers(columns, Materialized(columns).value)
  {
    hide Allowed, MappingKey, Materialized, Chosen, Acceptable, Writes, Column.IsDate;
    var chosen := Chosen(columns);
    ChosenAre(columns);
    assert Materialized(columns).Some? by { AcceptedIffMaterializable(columns); }
    MaterializedEach(columns);
    var ms := Materialized(columns).value;
    assert DistinctIndexes(columns);
    forall i, j | 0 <= i < j < |ms| ensures ms[i].sourceIndex != ms[j].sourceIndex {
      assert chosen[i].sourceIndex != chosen[j].sourceIndex;
    }
    forall i | 0 <= i < |ms| ensures Writes(chosen[i], ms[i]) {
      assert chosen[i] in chosen;
      WritesIts(chosen[i], ms[i]);
    }
    forall i | 0 <= i < |ms| ensures MadeOfSome(columns, ms[i]) {
      assert chosen[i] in chosen;
      var k := PlaceOf(columns, chosen[i]);
      assert Writes(columns[k], ms[i]);
    }
    forall k | 0 <= k < |columns| && ToBeWritten(columns[k]) ensures HasMapping(columns[k], ms) {
      var i := PlaceOf(chosen, columns[k]);
      assert Writes(columns[k], ms[i]);
    }
  }

  lemma WritesIts(c: Column, m: Mapping)
    requires ToBeWritten(c) && m.sourceIndex == c.sourceIndex && MappingKey(m.metric, m.period) == c.selection
    ensures Writes(c, m)
  {
  }

  /** The mapping is the column's: its index and its selected key. */
  predicate Writes(c: Column, m: Mapping) {
    ToBeWritten(c) && m.sourceIndex == c.sourceIndex && MappingKey(m.metric, m.period) == c.selection
  }

  /** The columns are written in the order shown. */
  lemma {:induction false} ChosenInOrder(a: seq<Column>, c: Column, b: seq<Column>)
    ensures Chosen(a + [c] + b) == Chosen(a) + (if ToBeWritten(c) then [c] else []) + Chosen(b)
    decreases |b|
  {
    hide Column.IsDate;
    var all := a + [c] + b;
    if b == [] {
      assert all == a + [c] && all[..|all| - 1] == a;
    } else {
      var front := b[..|b| - 1];
      assert all[..|all| - 1] == a + [c] + front && all[|all| - 1] == b[|b| - 1];
      ChosenInOrder(a, c, front);
    }
  }

  /** The mapping is the service's own proposal for the column. */
  predicate IsProposal(raw: RawColumn, m: Mapping) {
    raw.sourceIndex == Some(m.sourceIndex) && Proposes(raw, m.metric, m.period)
  }

  predicate SomeProposal(raws: seq<RawColumn>, m: Mapping) {
    exists k :: 0 <= k < |raws| && IsProposal(raws[k], m)
  }

  /** Left as rendered, an accepted preview materialises to the service's proposals and nothing
      else. */
  lemma UnchangedKeepsProposals(raws: seq<RawColumn>)
    requires GoodIndexes(raws) && Acceptable(AllShown(raws))
    ensures Materialized(AllShown(raws)).Some?
    ensures var ms := Materialized(AllShown(raws)).value;
            forall i :: 0 <= i < |ms| ==> SomeProposal(raws, ms[i])
  {
    hide Acceptable, Materialized, Shown, Allowed, Inv, Writes, Proposes;
    var columns := AllShown(raws);
    ShownInv(raws);
    AcceptedCovers(columns);
    var ms := Materialized(columns).value;
    forall i | 0 <= i < |ms| ensures SomeProposal(raws, ms[i]) {
      assert MadeOfSome(columns, ms[i]);
      var k :| 0 <= k < |columns| && Writes(columns[k], ms[i]);
      assert columns[k] == Shown(raws[k]);
      ProposalOf(raws[k], ms[i]);
      assert IsProposal(raws[k], ms[i]);
    }
  }

  lemma ProposalOf(raw: RawColumn, m: Mapping)
    requires raw.sourceIndex.Some? && Writes(Shown(raw), m) && Allowed(m.metric, m.period)
    ensures IsProposal(raw, m)
  {
    hide Allowed, Shown, SplitKey;
    ShownIs(raw);
    KeySplits(m.metric, m.period);
    var metric, period :| Proposes(raw, metric, period);
    KeySplits(metric, period);
  }
}

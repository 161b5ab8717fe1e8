/** The undo stack: a byte-budgeted list of inverse edits of the open draft.

    A draft is a tree of named fields and a list of measurement rows.  Entries are clones, so
    values stand for them.
 */
module Undo {
  const MAX_ENTRIES := 50
  const MAX_ENTRY_BYTES := 256 * 1024
  const MAX_STACK_BYTES := 512 * 1024

  // ---------------------------------------------------------------- paths

  datatype Json = Undefined | Null | Atom(text: string) | Obj(props: Props)
  type Props = map<string, Json>

  type Path = p: seq<string> | p != [] witness [""]

  function GetPath(m: Props, path: Path): Json
    decreases |path|
  {
    if path[0] !in m then Undefined
    else if |path| == 1 then m[path[0]]
    else if m[path[0]].Obj? then GetPath(m[path[0]].props, path[1..])
    else Undefined
  }

  /** Missing or non-object parents are replaced by fresh objects. */
  function SetPath(m: Props, path: Path, value: Json): Props
    decreases |path|
  {
    if |path| == 1 then m[path[0] := value]
    else m[path[0] := Obj(SetPath(Child(m, path[0]), path[1..], value))]
  }

  function Child(m: Props, name: string): Props {
    if name in m && m[name].Obj? then m[name].props else map[]
  }

  /** Every name along the path is an own property. */
  predicate Present(m: Props, path: Path)
    decreases |path|
  {
    path[0] in m && (|path| == 1 || (m[path[0]].Obj? && Present(m[path[0]].props, path[1..])))
  }

  /** Neither path is a beginning of the other. */
  predicate Apart(p: seq<string>, q: seq<string>) {
    p != [] && q != [] && (p[0] != q[0] || Apart(p[1..], q[1..]))
  }

  lemma {:induction false} GetAfterSet(m: Props, path: Path, value: Json)
    ensures GetPath(SetPath(m, path, value), path) == value
    ensures Present(SetPath(m, path, value), path)
    decreases |path|
  {
    if |path| > 1 {
      GetAfterSet(Child(m, path[0]), path[1..], value);
    }
  }

  /** Where the parents are objects, a path is followed through own properties. */
  lemma GetFollows(m: Props, name: string, rest: seq<string>)
    ensures GetPath(m, [name]) == if name in m then m[name] else Undefined
    ensures rest != [] && name in m && m[name].Obj? ==> GetPath(m, [name] + rest) == GetPath(m[name].props, rest)
  {
    assert ([name] + rest)[1..] == rest;
  }

  lemma {:induction false} SetTwice(m: Props, path: Path, v: Json, w: Json)
    ensures SetPath(SetPath(m, path, v), path, w) == SetPath(m, path, w)
    decreases |path|
  {
    if |path| > 1 {
      SetTwice(Child(m, path[0]), path[1..], v, w);
    }
  }

  /** Frame: a path apart from the one written keeps its value. */
  lemma {:induction false} SetElsewhere(m: Props, path: Path, value: Json, other: Path)
    requires Apart(path, other)
    ensures GetPath(SetPath(m, path, value), other) == GetPath(m, other)
    decreases |path|
  {
    if path[0] == other[0] {
      SetElsewhere(Child(m, path[0]), path[1..], value, other[1..]);
    }
  }

  /** Writing back what was read changes nothing exactly when the path was there. */
  lemma {:induction false} SetWhatWasThere(m: Props, path: Path)
    ensures SetPath(m, path, GetPath(m, path)) == m <==> Present(m, path)
    decreases |path|
  {
    var s := SetPath(m, path, GetPath(m, path));
    if path[0] !in m {
      assert path[0] in s;
    } else if |path| == 1 {
      assert s == m;
    } else if m[path[0]].Obj? {
      SetWhatWasThere(m[path[0]].props, path[1..]);
      assert s == m[path[0] := s[path[0]]];
      assert s == m <==> s[path[0]] == m[path[0]];
    } else {
      assert s[path[0]].Obj?;
    }
  }

  // ---------------------------------------------------------------- drafts, edits and entries

  /** A row, or the hole JavaScript leaves when an index past the end is written. */
  datatype Row = Measurement(content: string) | Hole

  datatype Draft = Draft(fields: Props, rows: seq<Row>)

  datatype Edit =
    | SetField(path: Path, value: Json)
    | ReplaceRow(index: nat, row: Row)
    | RemoveRow(index: nat)

  datatype Entry =
    | FieldEntry(path: Path, value: Json)
    | MeasurementEntry(index: nat, row: Row, previousLength: nat)
    | InsertEntry(index: nat, row: Row)

  predicate Applicable(d: Draft, e: Edit) {
    match e
    case SetField(_, _) => true
    case ReplaceRow(index, _) => index < |d.rows|
    case RemoveRow(index) => index < |d.rows|
  }

  function Edited(d: Draft, e: Edit): Draft
    requires Applicable(d, e)
  {
    match e
    case SetField(path, value) => d.(fields := SetPath(d.fields, path, value))
    case ReplaceRow(index, row) => d.(rows := d.rows[index := row])
    case RemoveRow(index) => d.(rows := d.rows[..index] + d.rows[index + 1..])
  }

  /** `after` is `before` with this one edit made and nothing else changed. */
  ghost predicate EditTookPlace(before: Draft, e: Edit, after: Draft)
    requires Applicable(before, e)
  {
    match e
    case SetField(path, value) =>
      && after.rows == before.rows && Present(after.fields, path) && GetPath(after.fields, path) == value
      && forall other: Path :: Apart(path, other) ==> GetPath(after.fields, other) == GetPath(before.fields, other)
    case ReplaceRow(index, row) =>
      && after.fields == before.fields && |after.rows| == |before.rows| && after.rows[index] == row
      && forall k :: 0 <= k < |before.rows| && k != index ==> after.rows[k] == before.rows[k]
    case RemoveRow(index) =>
      && after.fields == before.fields && |after.rows| == |before.rows| - 1
      && (forall k :: 0 <= k < index ==> after.rows[k] == before.rows[k])
      && forall k :: index <= k < |after.rows| ==> after.rows[k] == before.rows[k + 1]
  }

  lemma EditedIs(d: Draft, e: Edit)
    requires Applicable(d, e)
    ensures EditTookPlace(d, e, Edited(d, e))
  {
    hide GetPath, SetPath, Present, Apart;
    if e.SetField? {
      GetAfterSet(d.fields, e.path, e.value);
      forall other: Path | Apart(e.path, other)
        ensures GetPath(Edited(d, e).fields, other) == GetPath(d.fields, other)
      {
        SetElsewhere(d.fields, e.path, e.value, other);
      }
    }
  }

  /** The entry recorded before the edit. */
  function EntryFor(d: Draft, e: Edit): Entry
    requires Applicable(d, e)
  {
    match e
    case SetField(path, _) => FieldEntry(path, GetPath(d.fields, path))
    case ReplaceRow(index, _) => MeasurementEntry(index, d.rows[index], |d.rows|)
    case RemoveRow(index) => InsertEntry(index, d.rows[index])
  }

  /** Array assignment past the end leaves holes. */
  function Assigned(rows: seq<Row>, index: nat, row: Row): seq<Row> {
    if index < |rows| then rows[index := row]
    else rows + seq(index - |rows|, _ => Hole) + [row]
  }

  /** `splice(index, 0, row)`: an index past the end appends. */
  function Inserted(rows: seq<Row>, index: nat, row: Row): seq<Row> {
    var at := if index < |rows| then index else |rows|;
    rows[..at] + [row] + rows[at..]
  }

  function Undone(d: Draft, entry: Entry): Draft {
    match entry
    case FieldEntry(path, value) => d.(fields := SetPath(d.fields, path, value))
    case MeasurementEntry(index, row, previousLength) =>
      if index >= previousLength then
        d.(rows := if previousLength < |d.rows| then d.rows[..previousLength] else d.rows)
      else d.(rows := Assigned(d.rows, index, row))
    case InsertEntry(index, row) => d.(rows := Inserted(d.rows, index, row))
  }

  /** A field that was not there cannot be restored, as an entry cannot remove a property. */
  predicate Restorable(d: Draft, e: Edit) {
    e.SetField? ==> Present(d.fields, e.path)
  }

  /** The recorded entry undoes its edit exactly when the edited field was there before. */
  lemma UndoIsInverse(d: Draft, e: Edit)
    requires Applicable(d, e)
    ensures Undone(Edited(d, e), EntryFor(d, e)) == d <==> Restorable(d, e)
  {
    match e
    case SetField(path, value) =>
      SetTwice(d.fields, path, value, GetPath(d.fields, path));
      SetWhatWasThere(d.fields, path);
    case ReplaceRow(index, row) =>
      assert d.rows[index := row][index := d.rows[index]] == d.rows;
    case RemoveRow(index) =>
      var left := d.rows[..index] + d.rows[index + 1..];
      assert left[..index] == d.rows[..index] && left[index..] == d.rows[index + 1..];
      assert Inserted(left, index, d.rows[index]) == d.rows;
  }

  // ---------------------------------------------------------------- what an entry overwrites

  /** Equal except at and below the path, whose missing or non-object parents count as empty. */
  predicate AgreeOff(m: Props, n: Props, path: Path)
    decreases |path|
  {
    && m - {path[0]} == n - {path[0]}
    && (|path| > 1 ==> AgreeOff(Child(m, path[0]), Child(n, path[0]), path[1..]))
  }

  lemma SameOff(m: Props, n: Props, name: string, v: Json, w: Json)
    ensures m[name := v] == n[name := w] <==> m - {name} == n - {name} && v == w
  {
    assert m[name := v] - {name} == m - {name} && n[name := w] - {name} == n - {name};
    assert m[name := v] == (m - {name})[name := v] && n[name := w] == (n - {name})[name := w];
    assert m[name := v][name] == v && n[name := w][name] == w;
  }

  /** Writing a path makes two objects equal exactly when they agree off the path. */
  lemma {:induction false} SetUnifies(m: Props, n: Props, path: Path, value: Json)
    ensures SetPath(m, path, value) == SetPath(n, path, value) <==> AgreeOff(m, n, path)
    decreases |path|
  {
    if |path| == 1 {
      SameOff(m, n, path[0], value, value);
    } else {
      SetUnifies(Child(m, path[0]), Child(n, path[0]), path[1..], value);
      SameOff(m, n, path[0], Obj(SetPath(Child(m, path[0]), path[1..], value)),
              Obj(SetPath(Child(n, path[0]), path[1..], value)));
    }
  }

  function RowAt(rows: seq<Row>, k: nat): Row {
    if k < |rows| then rows[k] else Hole
  }

  /** The drafts differ at most in what undoing the entry overwrites. */
  ghost predicate AgreeOutside(d: Draft, e: Draft, entry: Entry) {
    match entry
    case FieldEntry(path, _) => d.rows == e.rows && AgreeOff(d.fields, e.fields, path)
    case MeasurementEntry(index, _, previousLength) =>
      && d.fields == e.fields
      && if index >= previousLength then Cut(d.rows, previousLength) == Cut(e.rows, previousLength)
         else AgreeOffRow(d.rows, e.rows, index)
    case InsertEntry(_, _) => d == e
  }

  function Cut(rows: seq<Row>, length: nat): seq<Row> {
    if length < |rows| then rows[..length] else rows
  }

  ghost predicate AgreeOffRow(a: seq<Row>, b: seq<Row>, index: nat) {
    && (|a| == |b| || (|a| <= index + 1 && |b| <= index + 1))
    && forall k: nat :: k != index ==> RowAt(a, k) == RowAt(b, k)
  }

  lemma AssignedAt(rows: seq<Row>, index: nat, row: Row)
    ensures |Assigned(rows, index, row)| == if index < |rows| then |rows| else index + 1
    ensures forall k: nat :: RowAt(Assigned(rows, index, row), k) == if k == index then row else RowAt(rows, k)
  {
  }

  lemma AssignedUnifies(a: seq<Row>, b: seq<Row>, index: nat, row: Row)
    ensures Assigned(a, index, row) == Assigned(b, index, row) <==> AgreeOffRow(a, b, index)
  {
    hide Assigned;
    AssignedAt(a, index, row);
    AssignedAt(b, index, row);
    var x, y := Assigned(a, index, row), Assigned(b, index, row);
    if AgreeOffRow(a, b, index) {
      forall k | 0 <= k < |x| ensures x[k] == y[k] {
        assert RowAt(x, k) == RowAt(y, k);
      }
    }
    if x == y {
      forall k: nat | k != index ensures RowAt(a, k) == RowAt(b, k) {
        assert RowAt(x, k) == RowAt(a, k);
        assert RowAt(y, k) == RowAt(b, k);
      }
    }
  }

  lemma InsertedUnifies(a: seq<Row>, b: seq<Row>, index: nat, row: Row)
    ensures Inserted(a, index, row) == Inserted(b, index, row) <==> a == b
  {
    var at := if index < |a| then index else |a|;
    var x, y := Inserted(a, index, row), Inserted(b, index, row);
    if x == y {
      assert |a| == |b|;
      assert x[..at] == a[..at] && y[..at] == b[..at];
      assert x[at + 1..] == a[at..] && y[at + 1..] == b[at..];
      assert a == a[..at] + a[at..] && b == b[..at] + b[at..];
    }
  }

  /** An entry leads from two drafts to the same one exactly when they agree outside it. */
  lemma UndoneUnifies(d: Draft, e: Draft, entry: Entry)
    ensures Undone(d, entry) == Undone(e, entry) <==> AgreeOutside(d, e, entry)
  {
    hide AgreeOff, AgreeOffRow, Assigned, Inserted, SetPath;
    match entry
    case FieldEntry(path, value) => SetUnifies(d.fields, e.fields, path, value);
    case MeasurementEntry(index, row, previousLength) => AssignedUnifies(d.rows, e.rows, index, row);
    case InsertEntry(index, row) => InsertedUnifies(d.rows, e.rows, index, row);
  }

  // ---------------------------------------------------------------- the stack

  datatype Stacked = Stacked(entry: Entry, bytes: nat)

  function TotalBytes(stack: seq<Stacked>): nat {
    if stack == [] then 0 else stack[0].bytes + TotalBytes(stack[1..])
  }

  predicate WithinBudget(stack: seq<Stacked>) {
    |stack| <= MAX_ENTRIES && TotalBytes(stack) <= MAX_STACK_BYTES
  }

  lemma {:induction false} TotalBytesConcat(a: seq<Stacked>, b: seq<Stacked>)
    ensures TotalBytes(a + b) == TotalBytes(a) + TotalBytes(b)
    decreases |a|
  {
    if a == [] {
      assert a + b == b;
    } else {
      TotalBytesConcat(a[1..], b);
      assert (a + b)[1..] == a[1..] + b;
    }
  }

  /** All entries undone, latest first. */
  function UndoneAll(d: Draft, stack: seq<Stacked>): Draft
    decreases |stack|
  {
    if stack == [] then d
    else UndoneAll(Undone(d, stack[|stack| - 1].entry), stack[..|stack| - 1])
  }

  /** `snapshots[i]` is the draft before the edit that `stack[i]` records.  The entries from k on
      are safe when undoing them in turn leads from `draft` to each of their snapshots. */
  predicate Safe(snapshots: seq<Draft>, stack: seq<Stacked>, draft: Draft, k: nat)
    requires |snapshots| == |stack|
  {
    forall j :: k <= j < |stack| ==> UndoneAll(draft, stack[j..]) == snapshots[j]
  }

  /** How many of the oldest entries are not safe. */
  function Unsafe(snapshots: seq<Draft>, stack: seq<Stacked>, draft: Draft): (n: nat)
    requires |snapshots| == |stack|
    ensures n <= |stack|
  {
    if stack == [] then 0
    else
      var last := |stack| - 1;
      if Undone(draft, stack[last].entry) == snapshots[last]
      then Unsafe(snapshots[..last], stack[..last], snapshots[last])
      else |stack|
  }

  lemma {:induction false} UndoneAllLast(draft: Draft, stack: seq<Stacked>, j: nat)
    requires j < |stack|
    ensures var last := |stack| - 1;
            UndoneAll(draft, stack[j..]) == UndoneAll(Undone(draft, stack[last].entry), stack[..last][j..])
  {
    var last := |stack| - 1;
    assert stack[j..][|stack| - j - 1] == stack[last];
    assert stack[j..][..|stack| - j - 1] == stack[..last][j..];
  }

  lemma SafeLast(snapshots: seq<Draft>, stack: seq<Stacked>, draft: Draft, k: nat)
    requires |snapshots| == |stack| && k < |stack|
    ensures var last := |stack| - 1;
            (Safe(snapshots, stack, draft, k) <==>
              && Undone(draft, stack[last].entry) == snapshots[last]
              && Safe(snapshots[..last], stack[..last], snapshots[last], k))
  {
    hide Undone;
    var last := |stack| - 1;
    var before := Undone(draft, stack[last].entry);
    forall j | k <= j < |stack| ensures UndoneAll(draft, stack[j..]) == UndoneAll(before, stack[..last][j..]) {
      UndoneAllLast(draft, stack, j);
    }
    assert stack[..last][last..] == [];
    assert UndoneAll(draft, stack[last..]) == before;
    if Safe(snapshots, stack, draft, k) {
      forall j | k <= j < last ensures UndoneAll(before, stack[..last][j..]) == snapshots[..last][j] {
        assert UndoneAll(draft, stack[j..]) == snapshots[j];
      }
    }
    if before == snapshots[last] && Safe(snapshots[..last], stack[..last], snapshots[last], k) {
      forall j | k <= j < |stack| ensures UndoneAll(draft, stack[j..]) == snapshots[j] {
        if j < last {
          assert UndoneAll(before, stack[..last][j..]) == snapshots[..last][j];
        }
      }
    }
  }

  /** The safe entries are exactly those from `Unsafe` on. */
  lemma {:induction false} SafeFrom(snapshots: seq<Draft>, stack: seq<Stacked>, draft: Draft, k: nat)
    requires |snapshots| == |stack| && k <= |stack|
    ensures Safe(snapshots, stack, draft, k) <==> Unsafe(snapshots, stack, draft) <= k
    decreases |stack|
  {
    hide Undone, Safe;
    if k == |stack| {
      assert Safe(snapshots, stack, draft, k) by { SafeFromNone(snapshots, stack, draft); }
    } else {
      var last := |stack| - 1;
      SafeLast(snapshots, stack, draft, k);
      SafeFrom(snapshots[..last], stack[..last], snapshots[last], k);
    }
  }

  lemma SafeFromNone(snapshots: seq<Draft>, stack: seq<Stacked>, draft: Draft)
    requires |snapshots| == |stack|
    ensures Safe(snapshots, stack, draft, |stack|)
  {
  }

  /** Dropping the n oldest entries drops up to n unsafe ones. */
  lemma {:induction false} UnsafeDrop(snapshots: seq<Draft>, stack: seq<Stacked>, draft: Draft, n: nat)
    requires |snapshots| == |stack| && n <= |stack|
    ensures Unsafe(snapshots[n..], stack[n..], draft)
         == var u := Unsafe(snapshots, stack, draft); if u > n then u - n else 0
    decreases |stack|
  {
    hide Undone;
    if n < |stack| {
      var last := |stack| - 1;
      UnsafeDrop(snapshots[..last], stack[..last], snapshots[last], n);
      assert stack[n..][last - n] == stack[last] && snapshots[n..][last - n] == snapshots[last];
      assert stack[n..][..last - n] == stack[..last][n..];
      assert snapshots[n..][..last - n] == snapshots[..last][n..];
    }
  }

  /** A recorded edit leaves the safe entries safe, its own included, exactly when it can be
      restored; otherwise no entry is safe. */
  lemma UnsafeRecorded(snapshots: seq<Draft>, stack: seq<Stacked>, draft: Draft, e: Edit, bytes: nat)
    requires |snapshots| == |stack| && Applicable(draft, e)
    ensures Unsafe(snapshots + [draft], stack + [Stacked(EntryFor(draft, e), bytes)], Edited(draft, e))
         == if Restorable(draft, e) then Unsafe(snapshots, stack, draft) else |stack| + 1
  {
    hide Undone, Edited, EntryFor, Restorable;
    UndoIsInverse(draft, e);
    var all, states := stack + [Stacked(EntryFor(draft, e), bytes)], snapshots + [draft];
    assert all[..|stack|] == stack && states[..|stack|] == snapshots;
  }

  /** When the draft changes without a record and the latest entry was safe, the safe entries
      stay safe exactly when the change is confined to what the latest entry overwrites;
      otherwise no entry is safe. */
  lemma UnsafeUnrecorded(snapshots: seq<Draft>, stack: seq<Stacked>, draft: Draft, changed: Draft)
    requires |snapshots| == |stack| && Unsafe(snapshots, stack, draft) < |stack|
    ensures Unsafe(snapshots, stack, changed)
         == if AgreeOutside(draft, changed, stack[|stack| - 1].entry) then Unsafe(snapshots, stack, draft) else |stack|
  {
    hide Undone, AgreeOutside;
    UndoneUnifies(draft, changed, stack[|stack| - 1].entry);
  }

  // ---------------------------------------------------------------- states and runs

  /** The entry is one recorded in this draft. */
  predicate RecordedAt(snapshot: Draft, entry: Entry) {
    match entry
    case FieldEntry(path, value) => value == GetPath(snapshot.fields, path)
    case MeasurementEntry(index, row, previousLength) =>
      index < |snapshot.rows| == previousLength && row == snapshot.rows[index]
    case InsertEntry(index, row) => index < |snapshot.rows| && row == snapshot.rows[index]
  }

  /** The draft differs from the snapshot by no more than the entry puts back. */
  ghost predicate Intact(snapshot: Draft, entry: Entry, draft: Draft) {
    match entry
    case FieldEntry(path, _) =>
      Present(snapshot.fields, path) && draft.rows == snapshot.rows && AgreeOff(draft.fields, snapshot.fields, path)
    case MeasurementEntry(index, _, _) =>
      draft.fields == snapshot.fields && AgreeOffRow(draft.rows, snapshot.rows, index)
    case InsertEntry(index, _) =>
      index < |snapshot.rows| && draft == snapshot.(rows := snapshot.rows[..index] + snapshot.rows[index + 1..])
  }

  lemma EntryIsRecorded(d: Draft, e: Edit)
    requires Applicable(d, e)
    ensures RecordedAt(d, EntryFor(d, e))
  {
  }

  /** Undoing an entry restores its snapshot exactly when the draft is intact but for it. */
  lemma UndoneIsSnapshot(snapshot: Draft, entry: Entry, draft: Draft)
    requires RecordedAt(snapshot, entry)
    ensures Undone(draft, entry) == snapshot <==> Intact(snapshot, entry, draft)
  {
    match entry
    case FieldEntry(path, value) => FieldSnapshot(snapshot, path, draft);
    case MeasurementEntry(index, row, previousLength) => RowSnapshot(snapshot, index, draft);
    case InsertEntry(index, row) => InsertSnapshot(snapshot, index, draft);
  }

  lemma FieldSnapshot(snapshot: Draft, path: Path, draft: Draft)
    ensures var entry := FieldEntry(path, GetPath(snapshot.fields, path));
            Undone(draft, entry) == snapshot <==> Intact(snapshot, entry, draft)
  {
    hide AgreeOff, Present, SetPath, GetPath;
    var value := GetPath(snapshot.fields, path);
    SetUnifies(draft.fields, snapshot.fields, path, value);
    SetWhatWasThere(snapshot.fields, path);
    GetAfterSet(draft.fields, path, value);
  }

  lemma RowSnapshot(snapshot: Draft, index: nat, draft: Draft)
    requires index < |snapshot.rows|
    ensures var entry := MeasurementEntry(index, snapshot.rows[index], |snapshot.rows|);
            Undone(draft, entry) == snapshot <==> Intact(snapshot, entry, draft)
  {
    hide AgreeOffRow;
    AssignedUnifies(draft.rows, snapshot.rows, index, snapshot.rows[index]);
    assert Assigned(snapshot.rows, index, snapshot.rows[index]) == snapshot.rows;
    hide Assigned;
  }

  lemma InsertSnapshot(snapshot: Draft, index: nat, draft: Draft)
    requires index < |snapshot.rows|
    ensures var entry := InsertEntry(index, snapshot.rows[index]);
            Undone(draft, entry) == snapshot <==> Intact(snapshot, entry, draft)
  {
    var left := snapshot.rows[..index] + snapshot.rows[index + 1..];
    InsertedUnifies(draft.rows, left, index, snapshot.rows[index]);
    UndoIsInverse(snapshot, RemoveRow(index));
    assert Inserted(left, index, snapshot.rows[index]) == snapshot.rows;
    hide Inserted;
  }

  /** `snapshots[i]` is the draft before the edit that `stack[i]` records. */
  datatype State = State(draft: Draft, stack: seq<Stacked>, snapshots: seq<Draft>)

  predicate Consistent(s: State) {
    && |s.snapshots| == |s.stack|
    && forall i :: 0 <= i < |s.stack| ==> RecordedAt(s.snapshots[i], s.stack[i].entry)
  }

  /** How many of the oldest retained entries do not restore their draft. */
  function DoubtfulIn(s: State): (n: nat)
    requires Consistent(s)
    ensures n <= |s.stack|
  {
    Unsafe(s.snapshots, s.stack, s.draft)
  }

  /** How many there are below the latest, in the draft before it. */
  function DoubtfulBelow(s: State): (n: nat)
    requires Consistent(s) && s.stack != []
    ensures n < |s.stack|
  {
    var last := |s.stack| - 1;
    Unsafe(s.snapshots[..last], s.stack[..last], s.snapshots[last])
  }

  ghost predicate LatestIntact(s: State)
    requires Consistent(s) && s.stack != []
  {
    Intact(s.snapshots[|s.stack| - 1], s.stack[|s.stack| - 1].entry, s.draft)
  }

  /** In every state: the latest entry decides whether those below it count. */
  lemma DoubtfulIs(s: State)
    requires Consistent(s)
    ensures DoubtfulIn(s) == if s.stack == [] then 0 else if LatestIntact(s) then DoubtfulBelow(s) else |s.stack|
  {
    hide Undone, RecordedAt, Intact;
    if s.stack != [] {
      var last := |s.stack| - 1;
      assert RecordedAt(s.snapshots[last], s.stack[last].entry);
      UndoneIsSnapshot(s.snapshots[last], s.stack[last].entry, s.draft);
    }
  }

  /** The draft that the i-th retained edit left to the next recorded one, or to now. */
  function DraftAfter(s: State, i: nat): Draft
    requires Consistent(s) && i < |s.stack|
  {
    if i + 1 < |s.stack| then s.snapshots[i + 1] else s.draft
  }

  /** No entry from k on is doubtful exactly when since each of these edits, and until the next
      recorded one, nothing changed but what its entry puts back. */
  lemma {:induction false} DoubtfulIff(s: State, k: nat)
    requires Consistent(s) && k <= |s.stack|
    ensures DoubtfulIn(s) <= k
       <==> forall i :: k <= i < |s.stack| ==> Intact(s.snapshots[i], s.stack[i].entry, DraftAfter(s, i))
    decreases |s.stack|
  {
    hide Undone, RecordedAt, Intact, Unsafe;
    if k < |s.stack| {
      var last := |s.stack| - 1;
      var below := State(s.snapshots[last], s.stack[..last], s.snapshots[..last]);
      DoubtfulIs(s);
      DoubtfulIff(below, k);
      assert DoubtfulBelow(s) == DoubtfulIn(below);
      forall i | k <= i < last
        ensures Intact(below.snapshots[i], below.stack[i].entry, DraftAfter(below, i))
           <==> Intact(s.snapshots[i], s.stack[i].entry, DraftAfter(s, i))
      {
        assert DraftAfter(below, i) == DraftAfter(s, i);
      }
    }
  }

  /** How many of the oldest entries the budget drops. */
  function Dropped(all: seq<Stacked>): (n: nat)
    ensures n <= |all|
  {
    if WithinBudget(all) then 0 else 1 + Dropped(all[1..])
  }

  predicate SmallEntries(stack: seq<Stacked>) {
    forall i :: 0 <= i < |stack| ==> stack[i].bytes <= MAX_ENTRY_BYTES
  }

  lemma BudgetOf(stack: seq<Stacked>, one: Stacked)
    ensures TotalBytes(stack + [one]) == TotalBytes(stack) + one.bytes
    ensures SmallEntries(stack) && one.bytes <= MAX_ENTRY_BYTES ==> SmallEntries(stack + [one])
  {
    TotalBytesConcat(stack, [one]);
    assert TotalBytes([one]) == one.bytes + TotalBytes([one][1..]);
  }

  /** Over budget there are two entries at least, and the oldest is dropped. */
  lemma OverBudget(stack: seq<Stacked>)
    requires SmallEntries(stack) && (|stack| > MAX_ENTRIES || TotalBytes(stack) > MAX_STACK_BYTES)
    ensures |stack| > 1 && !WithinBudget(stack)
    ensures TotalBytes(stack) == stack[0].bytes + TotalBytes(stack[1..])
    ensures Dropped(stack) == 1 + Dropped(stack[1..]) && SmallEntries(stack[1..])
  {
    OneFits(stack);
  }

  lemma OneFits(stack: seq<Stacked>)
    requires SmallEntries(stack)
    ensures |stack| <= 1 ==> TotalBytes(stack) <= MAX_ENTRY_BYTES
  {
    if |stack| == 1 {
      assert stack[1..] == [];
    }
  }

  /** No fewer would do. */
  lemma {:induction false} DroppedIsLeast(all: seq<Stacked>)
    ensures WithinBudget(all[Dropped(all)..])
    ensures Dropped(all) > 0 ==> !WithinBudget(all[Dropped(all) - 1..])
  {
    hide WithinBudget;
    if WithinBudget(all) {
      assert all[0..] == all;
    } else {
      OnBudget(all);
      var n := Dropped(all[1..]);
      DroppedIsLeast(all[1..]);
      assert all[1..][n..] == all[n + 1..];
      if n == 0 {
        assert all[0..] == all;
      } else {
        assert all[1..][n - 1..] == all[n..];
      }
    }
  }

  lemma OnBudget(stack: seq<Stacked>)
    ensures WithinBudget(stack) <==> |stack| <= MAX_ENTRIES && TotalBytes(stack) <= MAX_STACK_BYTES
    ensures WithinBudget(stack) ==> Dropped(stack) == 0
  {
  }

  function OneFor(d: Draft, e: Edit, textLength: Entry -> nat): Stacked
    requires Applicable(d, e)
  {
    Stacked(EntryFor(d, e), 2 * textLength(EntryFor(d, e)))
  }

  /** An edit, recorded unless its entry is too large. */
  function Changed(s: State, e: Edit, textLength: Entry -> nat): State
    requires Consistent(s) && Applicable(s.draft, e)
  {
    var one := OneFor(s.draft, e, textLength);
    if one.bytes > MAX_ENTRY_BYTES then s.(draft := Edited(s.draft, e))
    else
      var all, states := s.stack + [one], s.snapshots + [s.draft];
      State(Edited(s.draft, e), all[Dropped(all)..], states[Dropped(all)..])
  }

  function UndoneLast(s: State): State
    requires Consistent(s) && s.stack != []
  {
    var last := |s.stack| - 1;
    State(Undone(s.draft, s.stack[last].entry), s.stack[..last], s.snapshots[..last])
  }

  lemma ChangedConsistent(s: State, e: Edit, textLength: Entry -> nat)
    requires Consistent(s) && Applicable(s.draft, e)
    ensures Consistent(Changed(s, e, textLength))
  {
    hide RecordedAt, Edited, EntryFor, WithinBudget, Dropped;
    EntryIsRecorded(s.draft, e);
  }

  /** What an edit does to the doubtful entries. */
  lemma ChangedDoubtful(s: State, e: Edit, textLength: Entry -> nat)
    requires Consistent(s) && Applicable(s.draft, e)
    ensures var one, t := OneFor(s.draft, e, textLength), Changed(s, e, textLength);
            && Consistent(t)
            && (one.bytes <= MAX_ENTRY_BYTES ==>
                 var dropped := Dropped(s.stack + [one]);
                 DoubtfulIn(t) == if !Restorable(s.draft, e) then |t.stack|
                                  else if DoubtfulIn(s) > dropped then DoubtfulIn(s) - dropped else 0)
            && (one.bytes > MAX_ENTRY_BYTES ==>
                 DoubtfulIn(t) == if s.stack == [] then 0 else if LatestIntact(t) then DoubtfulBelow(s) else |s.stack|)
  {
    hide RecordedAt, Edited, EntryFor, WithinBudget, Dropped, Restorable, Undone, Unsafe, Intact;
    ChangedConsistent(s, e, textLength);
    var one := OneFor(s.draft, e, textLength);
    if one.bytes > MAX_ENTRY_BYTES {
      DoubtfulIs(Changed(s, e, textLength));
    } else {
      var all := s.stack + [one];
      UnsafeRecorded(s.snapshots, s.stack, s.draft, e, one.bytes);
      UnsafeDrop(s.snapshots + [s.draft], all, Edited(s.draft, e), Dropped(all));
    }
  }

  /** What undoing the latest entry does to them. */
  lemma UndoneDoubtful(s: State)
    requires Consistent(s) && s.stack != []
    ensures var t, last := UndoneLast(s), |s.stack| - 1;
            && Consistent(t)
            && (t.draft == s.snapshots[last] <==> DoubtfulIn(s) <= last)
            && (DoubtfulIn(s) <= last ==> DoubtfulIn(t) == DoubtfulIn(s))
            && DoubtfulIn(t) == if t.stack == [] then 0 else if LatestIntact(t) then DoubtfulBelow(t) else |t.stack|
  {
    hide RecordedAt, Undone, Intact;
    DoubtfulIs(UndoneLast(s));
  }

  datatype Action = Make(edit: Edit) | Undo

  /** An edit of a row that is not there, and an undo without entries, do nothing. */
  function Step(s: State, a: Action, textLength: Entry -> nat): (t: State)
    requires Consistent(s)
    ensures Consistent(t)
  {
    match a
    case Make(e) =>
      if Applicable(s.draft, e) then
        ChangedConsistent(s, e, textLength);
        Changed(s, e, textLength)
      else s
    case Undo => if s.stack != [] then UndoneLast(s) else s
  }

  /** Every edit of the run restorable and small enough to be recorded. */
  predicate Sound(s: State, actions: seq<Action>, textLength: Entry -> nat)
    requires Consistent(s)
    decreases |actions|
  {
    actions == [] ||
    (var a, t := actions[0], Step(s, actions[0], textLength);
     && (a.Make? && Applicable(s.draft, a.edit) ==>
          Restorable(s.draft, a.edit) && OneFor(s.draft, a.edit, textLength).bytes <= MAX_ENTRY_BYTES)
     && Sound(t, actions[1..], textLength))
  }

  function Final(s: State, actions: seq<Action>, textLength: Entry -> nat): State
    requires Consistent(s) && Sound(s, actions, textLength)
    decreases |actions|
  {
    if actions == [] then s else Final(Step(s, actions[0], textLength), actions[1..], textLength)
  }

  lemma {:induction false} SoundRun(s: State, actions: seq<Action>, textLength: Entry -> nat)
    requires Consistent(s) && Sound(s, actions, textLength)
    ensures Consistent(Final(s, actions, textLength))
    ensures DoubtfulIn(Final(s, actions, textLength)) <= DoubtfulIn(s)
    decreases |actions|
  {
    hide RecordedAt, Edited, EntryFor, Restorable, Undone, Unsafe, Intact, Dropped, Changed, UndoneLast;
    if actions != [] {
      var a := actions[0];
      if a.Make? && Applicable(s.draft, a.edit) {
        ChangedDoubtful(s, a.edit, textLength);
      } else if a.Undo? && s.stack != [] {
        UndoneDoubtful(s);
        assert |UndoneLast(s).stack| < |s.stack| by { UndoneShorter(s); }
      }
      SoundRun(Step(s, a, textLength), actions[1..], textLength);
    }
  }

  lemma UndoneShorter(s: State)
    requires Consistent(s) && s.stack != []
    ensures |UndoneLast(s).stack| == |s.stack| - 1
  {
  }

  /** Over any run of recorded, restorable edits and undos that starts without entries, undoing
      every retained entry leads to the draft before the oldest retained edit. */
  lemma RunRestores(draft: Draft, actions: seq<Action>, textLength: Entry -> nat)
    requires Sound(State(draft, [], []), actions, textLength)
    ensures var s := Final(State(draft, [], []), actions, textLength);
            && Consistent(s) && DoubtfulIn(s) == 0
            && (s.stack != [] ==> UndoneAll(s.draft, s.stack) == s.snapshots[0])
  {
    hide RecordedAt, Sound, Final, Undone, Safe, UndoneAll;
    var start := State(draft, [], []);
    SoundRun(start, actions, textLength);
    var s := Final(start, actions, textLength);
    SafeFrom(s.snapshots, s.stack, s.draft, 0);
    if s.stack != [] {
      SafeFirst(s.snapshots, s.stack, s.draft);
    }
  }

  lemma SafeFirst(snapshots: seq<Draft>, stack: seq<Stacked>, draft: Draft)
    requires |snapshots| == |stack| && stack != [] && Safe(snapshots, stack, draft, 0)
    ensures UndoneAll(draft, stack) == snapshots[0]
  {
    assert stack[0..] == stack;
  }

  class Workspace {
    /** The length of an entry's JSON text. */
    const textLength: Entry -> nat

    var draft: Draft
    var stack: seq<Stacked>
    var undoBytes: nat

    /** The drafts before the edits that the retained entries record. */
    ghost var snapshots: seq<Draft>

    predicate Budget()
      reads this
    {
      undoBytes == TotalBytes(stack) && WithinBudget(stack) && SmallEntries(stack)
    }

    ghost function Current(): State
      reads this
    {
      State(draft, stack, snapshots)
    }

    ghost predicate Valid()
      reads this
    {
      Budget() && Consistent(Current())
    }

    /** How many of the oldest retained entries do not restore their draft. */
    ghost function Doubtful(): (n: nat)
      reads this
      requires Valid()
      ensures n <= |stack|
    {
      DoubtfulIn(Current())
    }

    constructor (draft: Draft, textLength: Entry -> nat)
      ensures Valid() && Current() == State(draft, [], []) && Doubtful() == 0
      ensures this.textLength == textLength
    {
      this.draft, this.textLength := draft, textLength;
      stack, undoBytes, snapshots := [], 0, [];
    }

    /** `pushUndo`: refuses an oversized entry; otherwise keeps the new entry and the longest
        run of entries before it that the budget allows. */
    method PushUndo(entry: Entry) returns (pushed: bool, ghost dropped: nat)
      requires Budget()
      modifies this`stack, this`undoBytes
      ensures Budget()
      ensures pushed <==> 2 * textLength(entry) <= MAX_ENTRY_BYTES
      ensures !pushed ==> stack == old(stack)
      ensures pushed ==>
                var all := old(stack) + [Stacked(entry, 2 * textLength(entry))];
                && dropped == Dropped(all) < |all| && stack == all[dropped..]
                && (dropped > 0 ==> !WithinBudget(all[dropped - 1..]))
    {
      hide TotalBytes, WithinBudget, Dropped, SmallEntries;
      dropped := 0;
      var bytes := textLength(entry) * 2;
      if bytes > MAX_ENTRY_BYTES {
        return false, dropped;
      }
      BudgetOf(stack, Stacked(entry, bytes));
      stack := stack + [Stacked(entry, bytes)];
      undoBytes := undoBytes + bytes;
      dropped := DropOldest();
      pushed := true;
    }

    /** Its loop: drops the fewest oldest entries that brings the stack within its budget. */
    method DropOldest() returns (ghost dropped: nat)
      requires undoBytes == TotalBytes(stack) && SmallEntries(stack) && stack != []
      modifies this`stack, this`undoBytes
      ensures Budget()
      ensures dropped == Dropped(old(stack)) < |old(stack)| && stack == old(stack)[dropped..]
      ensures dropped > 0 ==> !WithinBudget(old(stack)[dropped - 1..])
    {
      hide TotalBytes, WithinBudget, Dropped, SmallEntries;
      dropped := 0;
      ghost var all := stack;
      while |stack| > MAX_ENTRIES || undoBytes > MAX_STACK_BYTES
        invariant dropped < |all| && stack == all[dropped..] && SmallEntries(stack)
        invariant undoBytes == TotalBytes(stack)
        invariant Dropped(all) == dropped + Dropped(stack)
        decreases |stack|
      {
        OverBudget(stack);
        var removed := stack[0];
        stack := stack[1..];
        undoBytes := undoBytes - removed.bytes;
        dropped := dropped + 1;
      }
      OnBudget(stack);
      DroppedIsLeast(all);
    }

    /** Records the edit, then makes it; an edit whose entry is too large is made unrecorded. */
    method Change(e: Edit) returns (recorded: bool, ghost dropped: nat)
      requires Valid() && Applicable(draft, e)
      modifies this
      ensures Valid() && Current() == Changed(old(Current()), e, textLength)
      ensures draft == Edited(old(draft), e)
      ensures EditTookPlace(old(draft), e, draft)
      ensures recorded <==> 2 * textLength(EntryFor(old(draft), e)) <= MAX_ENTRY_BYTES
      ensures recorded ==>
                var all := old(stack) + [OneFor(old(draft), e, textLength)];
                && dropped < |all| && stack == all[dropped..]
                && (dropped > 0 ==> !WithinBudget(all[dropped - 1..]))
                && snapshots == (old(snapshots) + [old(draft)])[dropped..]
      ensures recorded ==>
                Doubtful() == if !Restorable(old(draft), e) then |stack|
                              else if old(Doubtful()) > dropped then old(Doubtful()) - dropped else 0
      ensures !recorded ==> stack == old(stack) && snapshots == old(snapshots)
      ensures !recorded ==>
                Doubtful() == if stack == [] then 0
                              else if LatestIntact(Current()) then DoubtfulBelow(old(Current())) else |stack|
      ensures !recorded && old(Doubtful()) < |stack| ==>
                Doubtful() == if AgreeOutside(old(draft), draft, stack[|stack| - 1].entry)
                              then old(Doubtful()) else |stack|
    {
      hide TotalBytes, WithinBudget, Edited, EntryFor, Restorable, AgreeOutside, Unsafe, Dropped, RecordedAt, Intact,
           EditTookPlace;
      ghost var was := Current();
      EditedIs(draft, e);
      ChangedDoubtful(was, e, textLength);
      recorded, dropped := PushUndo(EntryFor(draft, e));
      draft := Edited(draft, e);
      if recorded {
        snapshots := (snapshots + [was.draft])[dropped..];
      } else if DoubtfulIn(was) < |was.stack| {
        UnsafeUnrecorded(was.snapshots, was.stack, was.draft, draft);
      }
    }

    /** The synchronous part of `undoLastChange`: the draft is again the one before the latest
        recorded edit exactly when that edit's entry is not doubtful. */
    method UndoLast()
      requires Valid() && stack != []
      modifies this
      ensures Valid() && Current() == UndoneLast(old(Current()))
      ensures stack == old(stack)[..|old(stack)| - 1] && snapshots == old(snapshots)[..|old(stack)| - 1]
      ensures draft == Undone(old(draft), old(stack)[|old(stack)| - 1].entry)
      ensures draft == old(snapshots)[|old(stack)| - 1] <==> old(Doubtful()) < |old(stack)|
      ensures old(Doubtful()) < |old(stack)| ==> Doubtful() == old(Doubtful())
      ensures Doubtful() == if stack == [] then 0
                            else if LatestIntact(Current()) then DoubtfulBelow(Current()) else |stack|
    {
      hide Undone, Unsafe, RecordedAt, Intact;
      UndoneDoubtful(Current());
      var n := |stack| - 1;
      var last := stack[n];
      TotalBytesConcat(stack[..n], [last]);
      assert stack[..n] + [last] == stack;
      stack := stack[..n];
      undoBytes := undoBytes - last.bytes;
      draft := Undone(draft, last.entry);
      snapshots := snapshots[..n];
    }
  }

  /** Undoing every retained entry down to the k-th restores, at each, the draft before its edit,
      fields and measurements alike, exactly when no entry from k on is doubtful. */
  lemma UndoingRestores(w: Workspace, k: nat)
    requires w.Valid() && k <= |w.stack|
    ensures (forall j :: k <= j < |w.stack| ==> UndoneAll(w.draft, w.stack[j..]) == w.snapshots[j])
       <==> w.Doubtful() <= k
  {
    hide Unsafe;
    SafeFrom(w.snapshots, w.stack, w.draft, k);
  }

  /** In particular all of them lead back to the draft before the oldest retained edit. */
  lemma UndoingAllRestores(w: Workspace)
    requires w.Valid() && w.stack != [] && w.Doubtful() == 0
    ensures UndoneAll(w.draft, w.stack) == w.snapshots[0]
  {
    hide Unsafe;
    UndoingRestores(w, 0);
    assert w.stack[0..] == w.stack;
  }

  lemma TwoRows(fields: Props, a: Row, b: Row, c: Row)
    ensures var ab, ac := Draft(fields, [a, b]), Draft(fields, [a, c]);
            && EntryFor(ab, ReplaceRow(1, c)) == MeasurementEntry(1, b, 2)
            && Edited(ab, ReplaceRow(1, c)) == ac
            && EntryFor(ac, RemoveRow(0)) == InsertEntry(0, a)
            && Edited(ac, RemoveRow(0)) == Draft(fields, [c])
            && Undone(Draft(fields, [c]), MeasurementEntry(1, b, 2)) == Draft(fields, [c, b])
  {
    assert [a, c][..0] + [a, c][1..] == [c];
    assert Assigned([c], 1, b) == [c, b];
  }

  /** An edit made without an entry can spoil older entries.  With rows a, b: row 1 becomes c,
      row 0 is removed without a record as its text is too long, and undoing the one retained
      entry yields c, b, which the draft never was. */
  method OversizedRemovalSpoilsUndo(fields: Props, a: Row, b: Row, c: Row, textLength: Entry -> nat)
    returns (w: Workspace)
    requires 2 * textLength(MeasurementEntry(1, b, 2)) <= MAX_ENTRY_BYTES < 2 * textLength(InsertEntry(0, a))
    requires a != c
    ensures w.Valid() && w.stack == [] && w.draft == Draft(fields, [c, b])
    ensures w.draft.rows != [a, b] && w.draft.rows != [a, c] && w.draft.rows != [c]
  {
    hide TotalBytes, WithinBudget, Edited, EntryFor, Undone, Restorable, AgreeOutside, Unsafe;
    TwoRows(fields, a, b, c);
    w := new Workspace(Draft(fields, [a, b]), textLength);
    var recorded, dropped := w.Change(ReplaceRow(1, c));
    assert recorded;
    recorded, dropped := w.Change(RemoveRow(0));
    assert !recorded;
    w.UndoLast();
    assert w.draft.rows[0] == c && |w.draft.rows| == 2;
  }
}

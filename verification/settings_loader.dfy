/** Loading machines at start: the scan over the stored rows that fills in missing settings, the grouping of the scanned
    settings into machines, and the settings a machine starts with. */
module SettingsLoader {
  import opened Options
  import opened VmSettings

  /** A row of the settings table. Its setting need not be the one its id promises. */
  datatype Row = Row(vm: nat, id: nat, setting: Setting)

  /** The rows of one machine, by increasing setting id. */
  datatype Group = Group(vm: nat, rows: seq<Row>)

  /** The scan so far. An insertion under a key that exists breaks the primary key: the scan fails and stays failed. */
  datatype Scan = Scan(rows: Rows, expected: nat, previous: Option<nat>, emitted: seq<Row>, failed: bool)

  function Default(schema: Schema, vm: nat, id: nat): Row
    requires id < |schema.defaults|
  {
    Row(vm, id, Setting(id, schema.defaults[id]))
  }

  /** Insert and emit the default of every setting from the expected one on. */
  function GenerateNewSettings(schema: Schema, s: Scan, vm: nat): Scan
    decreases |schema.defaults| - s.expected
  {
    if s.failed || s.expected >= |schema.defaults| then s
    else if (vm, s.expected) in s.rows then s.(failed := true)
    else
      var row := Default(schema, vm, s.expected);
      GenerateNewSettings(schema, s.(rows := s.rows[(vm, row.id) := row.setting], expected := s.expected + 1,
                                     emitted := s.emitted + [row]), vm)
  }

  /** Complete the machine that was being scanned. */
  function Flush(schema: Schema, s: Scan): Scan {
    if s.previous.None? then s else GenerateNewSettings(schema, s, s.previous.value).(expected := 0, previous := None)
  }

  function ScanRow(schema: Schema, s: Scan, row: Row): Scan {
    if s.failed then s else
      var s := if s.previous.Some? && s.previous.value != row.vm then Flush(schema, s) else s;
      if s.failed then s
      else if row.setting.which != row.id then s.(failed := true)   // its default is inserted under the row's own key
      else s.(emitted := s.emitted + [row], expected := s.expected + 1, previous := Some(row.vm))
  }

  function ScanRows(schema: Schema, s: Scan, rows: seq<Row>): Scan
    decreases |rows|
  {
    if rows == [] then s else ScanRows(schema, ScanRow(schema, s, rows[0]), rows[1..])
  }

  function Load(schema: Schema, table: Rows, scan: seq<Row>): Scan {
    Flush(schema, ScanRows(schema, Scan(table, 0, None, [], false), scan))
  }

  /** The scan as the database class runs it: `rows` holds the table's rows in key order. */
  method ReadVmSettings(schema: Schema, table: Rows, rows: seq<Row>)
    returns (after: Rows, emitted: seq<Row>, failed: bool)
    requires forall row :: row in rows ==> (row.vm, row.id) in table
    ensures var end := Load(schema, table, rows);
            failed == end.failed && (!failed ==> after == end.rows && emitted == end.emitted)
  {
    after, emitted, failed := table, [], false;
    var expected, previous := 0, None;
    var i := 0;
    while i < |rows|
      invariant 0 <= i <= |rows| && table.Keys <= after.Keys
      invariant ScanRows(schema, Scan(after, expected, previous, emitted, false), rows[i..])
             == ScanRows(schema, Scan(table, 0, None, [], false), rows)
    {
      var row := rows[i];
      assert rows[i..][0] == row && rows[i..][1..] == rows[i + 1..] && row in rows;
      ghost var before := Scan(after, expected, previous, emitted, false);
      if previous.Some? && previous.value != row.vm {
        after, expected, emitted, failed := Generate(schema, after, expected, previous, emitted);
        if failed {
          FailureStays(schema, ScanRow(schema, before, row), rows[i + 1..]);
          return;
        }
        expected := 0;
      }
      previous := Some(row.vm);
      if row.setting.which != row.id {
        failed := (row.vm, row.id) in after;
        FailureStays(schema, ScanRow(schema, before, row), rows[i + 1..]);
        return;
      }
      emitted := emitted + [row];
      expected := expected + 1;
      assert ScanRow(schema, before, row) == Scan(after, expected, previous, emitted, false);
      i := i + 1;
    }
    if previous.Some? {
      after, expected, emitted, failed := Generate(schema, after, expected, previous, emitted);
    }
  }

  method Generate(schema: Schema, table: Rows, expected0: nat, previous: Option<nat>, emitted0: seq<Row>)
    returns (after: Rows, expected: nat, emitted: seq<Row>, failed: bool)
    requires previous.Some?
    ensures GenerateNewSettings(schema, Scan(table, expected0, previous, emitted0, false), previous.value)
         == Scan(after, expected, previous, emitted, failed)
    ensures table.Keys <= after.Keys
  {
    after, expected, emitted, failed := table, expected0, emitted0, false;
    while expected < |schema.defaults|
      invariant table.Keys <= after.Keys
      invariant GenerateNewSettings(schema, Scan(after, expected, previous, emitted, false), previous.value)
             == GenerateNewSettings(schema, Scan(table, expected0, previous, emitted0, false), previous.value)
    {
      var row := Default(schema, previous.value, expected);
      if (row.vm, row.id) in after {
        failed := true;
        return;
      }
      after := after[(row.vm, row.id) := row.setting];
      emitted := emitted + [row];
      expected := expected + 1;
    }
  }

  lemma {:induction false} FailureStays(schema: Schema, s: Scan, rows: seq<Row>)
    requires s.failed
    ensures ScanRows(schema, s, rows).failed && Flush(schema, ScanRows(schema, s, rows)).failed
  {
    if rows != [] {
      FailureStays(schema, ScanRow(schema, s, rows[0]), rows[1..]);
    }
  }

  // ---------------------------------------------------------------- the scan, machine by machine

  function Flatten(groups: seq<Group>): seq<Row> {
    if groups == [] then [] else groups[0].rows + Flatten(groups[1..])
  }

  /** The table's rows, grouped: what a scan in key order over rows with known setting ids yields. */
  ghost predicate Grouped(schema: Schema, groups: seq<Group>) {
    && (forall g :: g in groups ==> GroupOk(schema, g))
    && forall i, j :: 0 <= i < j < |groups| ==> groups[i].vm < groups[j].vm
  }

  ghost predicate GroupOk(schema: Schema, g: Group) {
    && g.rows != []
    && (forall k :: 0 <= k < |g.rows| ==> g.rows[k].vm == g.vm && g.rows[k].id < |schema.defaults|)
    && forall k, l :: 0 <= k < l < |g.rows| ==> g.rows[k].id < g.rows[l].id
  }

  predicate HasId(g: Group, id: nat) {
    exists k :: 0 <= k < |g.rows| && g.rows[k].id == id
  }

  /** The rows of the group's machine are exactly those of the group. */
  ghost predicate Owns(table: Rows, g: Group) {
    && (forall id: nat :: (g.vm, id) in table <==> HasId(g, id))
    && forall k :: 0 <= k < |g.rows| ==> (g.vm, g.rows[k].id) in table && table[(g.vm, g.rows[k].id)] == g.rows[k].setting
  }

  /** The stored settings are those with the first ids, each holding the field of its id. */
  ghost predicate IsPrefix(g: Group) {
    forall k :: 0 <= k < |g.rows| ==> g.rows[k].id == k && g.rows[k].setting.which == k
  }

  function Defaults(schema: Schema, vm: nat, from: nat): (rows: seq<Row>)
    ensures from <= |schema.defaults| ==> |rows| == |schema.defaults| - from
    ensures forall k :: 0 <= k < |rows| ==> from + k < |schema.defaults| && rows[k] == Default(schema, vm, from + k)
    decreases |schema.defaults| - from
  {
    if from >= |schema.defaults| then [] else [Default(schema, vm, from)] + Defaults(schema, vm, from + 1)
  }

  function Complete(schema: Schema, g: Group): Group {
    Group(g.vm, g.rows + Defaults(schema, g.vm, |g.rows|))
  }

  function CompleteAll(schema: Schema, groups: seq<Group>): (all: seq<Group>)
    ensures |all| == |groups| && forall i :: 0 <= i < |all| ==> all[i] == Complete(schema, groups[i])
  {
    if groups == [] then [] else [Complete(schema, groups[0])] + CompleteAll(schema, groups[1..])
  }

  function Settings(g: Group): seq<Setting> {
    seq(|g.rows|, i requires 0 <= i < |g.rows| => g.rows[i].setting)
  }

  /** The defaults of one machine have been inserted from a setting on, and nothing else has changed. */
  ghost predicate Inserted(schema: Schema, before: Rows, after: Rows, vm: nat, from: nat) {
    && (forall key :: key in after <==> key in before || (key.0 == vm && from <= key.1 < |schema.defaults|))
    && forall key :: key in after ==>
         after[key] == if key in before then before[key] else Default(schema, vm, key.1).setting
  }

  lemma {:induction false} GenerateEmits(schema: Schema, s: Scan, vm: nat)
    requires !s.failed
    ensures var end := GenerateNewSettings(schema, s, vm);
            && (end.failed <==> exists id: nat :: s.expected <= id < |schema.defaults| && (vm, id) in s.rows)
            && (!end.failed ==> end.emitted == s.emitted + Defaults(schema, vm, s.expected))
    decreases |schema.defaults| - s.expected
  {
    if s.expected < |schema.defaults| && (vm, s.expected) !in s.rows {
      var row := Default(schema, vm, s.expected);
      var s' := s.(rows := s.rows[(vm, row.id) := row.setting], expected := s.expected + 1, emitted := s.emitted + [row]);
      GenerateEmits(schema, s', vm);
      assert s.emitted + ([row] + Defaults(schema, vm, s.expected + 1)) == s'.emitted + Defaults(schema, vm, s.expected + 1);
      assert forall id: nat :: s'.expected <= id ==> ((vm, id) in s'.rows <==> (vm, id) in s.rows);
    }
  }

  lemma {:induction false} GenerateInserts(schema: Schema, s: Scan, vm: nat)
    requires !s.failed && !GenerateNewSettings(schema, s, vm).failed
    ensures Inserted(schema, s.rows, GenerateNewSettings(schema, s, vm).rows, vm, s.expected)
    decreases |schema.defaults| - s.expected
  {
    if s.expected < |schema.defaults| && (vm, s.expected) !in s.rows {
      var row := Default(schema, vm, s.expected);
      var rows := s.rows[(vm, row.id) := row.setting];
      GenerateInserts(schema, s.(rows := rows, expected := s.expected + 1, emitted := s.emitted + [row]), vm);
      InsertOneMore(schema, s.rows, rows, GenerateNewSettings(schema, s, vm).rows, vm, s.expected);
    }
  }

  lemma InsertOneMore(schema: Schema, before: Rows, mid: Rows, after: Rows, vm: nat, from: nat)
    requires from < |schema.defaults| && mid == before[(vm, from) := Default(schema, vm, from).setting]
    requires (vm, from) !in before && Inserted(schema, mid, after, vm, from + 1)
    ensures Inserted(schema, before, after, vm, from)
  {
  }

  lemma {:induction false} ScanAppend(schema: Schema, s: Scan, rows: seq<Row>, more: seq<Row>)
    ensures ScanRows(schema, s, rows + more) == ScanRows(schema, ScanRows(schema, s, rows), more)
    decreases |rows|
  {
    if rows == [] {
      assert rows + more == more;
    } else {
      assert (rows + more)[1..] == rows[1..] + more;
      ScanAppend(schema, ScanRow(schema, s, rows[0]), rows[1..], more);
    }
  }

  /** Rows of one machine are emitted as they are, up to the first that holds the wrong field. */
  lemma {:induction false} ScanWithin(schema: Schema, s: Scan, vm: nat, rows: seq<Row>)
    requires !s.failed && s.previous in {None, Some(vm)} && forall row :: row in rows ==> row.vm == vm
    ensures var end := ScanRows(schema, s, rows);
            if forall row :: row in rows ==> row.setting.which == row.id
            then end == Scan(s.rows, s.expected + |rows|, if rows == [] then s.previous else Some(vm), s.emitted + rows, false)
            else end.failed
    decreases |rows|
  {
    if rows != [] {
      var s' := ScanRow(schema, s, rows[0]);
      if s'.failed {
        FailureStays(schema, s', rows[1..]);
      } else {
        ScanWithin(schema, s', vm, rows[1..]);
        assert s.emitted + [rows[0]] + rows[1..] == s.emitted + rows;
        assert forall row :: row in rows <==> row == rows[0] || row in rows[1..];
      }
    }
  }

  lemma {:induction false} IncreasingIdsGrow(g: Group, k: nat)
    requires k < |g.rows| && forall k, l :: 0 <= k < l < |g.rows| ==> g.rows[k].id < g.rows[l].id
    ensures k <= g.rows[k].id && g.rows[|g.rows| - 1].id >= g.rows[k].id + (|g.rows| - 1 - k)
    decreases |g.rows| - k
  {
    if k + 1 < |g.rows| {
      IncreasingIdsGrow(g, k + 1);
    }
    IdsAtLeast(g, k);
  }

  lemma {:induction false} IdsAtLeast(g: Group, k: nat)
    requires k < |g.rows| && forall k, l :: 0 <= k < l < |g.rows| ==> g.rows[k].id < g.rows[l].id
    ensures k <= g.rows[k].id
  {
    if k > 0 {
      IdsAtLeast(g, k - 1);
    }
  }

  /** Ids that are not 0, 1, 2, ... leave one that the defaults would insert again. */
  lemma GapRepeatsAnId(schema: Schema, g: Group)
    requires GroupOk(schema, g)
    ensures (exists id: nat :: |g.rows| <= id < |schema.defaults| && HasId(g, id))
       <==> exists k :: 0 <= k < |g.rows| && g.rows[k].id != k
  {
    var last := |g.rows| - 1;
    if k :| 0 <= k < |g.rows| && g.rows[k].id != k {
      IncreasingIdsGrow(g, k);
      assert HasId(g, g.rows[last].id);
    }
    if id: nat :| |g.rows| <= id < |schema.defaults| && HasId(g, id) {
      var k :| 0 <= k < |g.rows| && g.rows[k].id == id;
      assert g.rows[k].id != k;
    }
  }

  /** Once its rows have been read, the defaults complete a machine exactly when its ids have no gap. */
  lemma FlushGroup(schema: Schema, s: Scan, g: Group, mid: Scan)
    requires GroupOk(schema, g) && Owns(s.rows, g)
    requires mid == Scan(s.rows, |g.rows|, Some(g.vm), s.emitted + g.rows, false)
    ensures var end := Flush(schema, mid);
            && (end.failed <==> exists k :: 0 <= k < |g.rows| && g.rows[k].id != k)
            && (!end.failed ==> && end == Scan(end.rows, 0, None, s.emitted + Complete(schema, g).rows, false)
                                && Inserted(schema, s.rows, end.rows, g.vm, |g.rows|))
  {
    GenerateEmits(schema, mid, g.vm);
    if !GenerateNewSettings(schema, mid, g.vm).failed {
      GenerateInserts(schema, mid, g.vm);
    }
    GapRepeatsAnId(schema, g);
    assert s.emitted + g.rows + Defaults(schema, g.vm, |g.rows|) == s.emitted + Complete(schema, g).rows;
  }

  /** One machine: the scan fails exactly when its rows are no prefix, and else emits and stores the completed list. */
  lemma LoadGroup(schema: Schema, s: Scan, g: Group)
    requires GroupOk(schema, g) && Owns(s.rows, g) && !s.failed && s.previous.None? && s.expected == 0
    ensures var end := Flush(schema, ScanRows(schema, s, g.rows));
            && (end.failed <==> !IsPrefix(g))
            && (IsPrefix(g) ==> && end == Scan(end.rows, 0, None, s.emitted + Complete(schema, g).rows, false)
                                && Inserted(schema, s.rows, end.rows, g.vm, |g.rows|))
  {
    ScanWithin(schema, s, g.vm, g.rows);
    var mid := ScanRows(schema, s, g.rows);
    assert forall k :: 0 <= k < |g.rows| ==> g.rows[k] in g.rows;
    if mid.failed {
      assert Flush(schema, mid).failed by { FailureStays(schema, mid, []); }
    } else {
      FlushGroup(schema, s, g, mid);
    }
  }

  /** A change of machine completes the one before. */
  lemma FlushAtBoundary(schema: Schema, s: Scan, rows: seq<Row>)
    requires !s.failed && s.previous.Some? && rows != [] && rows[0].vm != s.previous.value
    ensures ScanRows(schema, s, rows) == ScanRows(schema, Flush(schema, s), rows)
  {
  }

  /** What holds of the table, of the machines still to be scanned. */
  ghost predicate OwnAll(table: Rows, groups: seq<Group>) {
    forall g :: g in groups ==> Owns(table, g)
  }

  /** Every machine's completed list is canonical and is what the table holds for it. */
  ghost predicate AgreeAll(schema: Schema, groups: seq<Group>, table: Rows) {
    forall g :: g in groups ==> Agree(schema, g.vm, Settings(Complete(schema, g)), table)
  }

  lemma CompletedAgrees(schema: Schema, g: Group, before: Rows, after: Rows)
    requires GroupOk(schema, g) && IsPrefix(g) && Owns(before, g) && Inserted(schema, before, after, g.vm, |g.rows|)
    ensures Agree(schema, g.vm, Settings(Complete(schema, g)), after)
  {
    IdsAtLeast(g, |g.rows| - 1);
    var settings := Settings(Complete(schema, g));
    forall i | 0 <= i < |settings|
      ensures (g.vm, i) in after && after[(g.vm, i)] == settings[i]
    {
      if i < |g.rows| {
        assert (g.vm, g.rows[i].id) in before;
      } else {
        assert (g.vm, i) in after;
        assert !HasId(g, i);
      }
    }
  }

  ghost predicate SameElsewhere(before: Rows, after: Rows, groups: seq<Group>) {
    forall key: Key :: (forall g :: g in groups ==> g.vm != key.0) ==>
      && (key in before <==> key in after)
      && (key in before ==> before[key] == after[key])
  }

  lemma {:induction false} LoadGroups(schema: Schema, s: Scan, groups: seq<Group>)
    requires Grouped(schema, groups) && OwnAll(s.rows, groups) && !s.failed && s.previous.None? && s.expected == 0
    ensures var end := Flush(schema, ScanRows(schema, s, Flatten(groups)));
            && (end.failed <==> exists g :: g in groups && !IsPrefix(g))
            && (!end.failed ==> && end.emitted == s.emitted + Flatten(CompleteAll(schema, groups))
                                && AgreeAll(schema, groups, end.rows)
                                && SameElsewhere(s.rows, end.rows, groups))
    decreases |groups|
  {
    if groups != [] {
      var g, rest := groups[0], groups[1..];
      assert g in groups && forall other :: other in rest ==> other in groups;
      var s' := Flush(schema, ScanRows(schema, s, g.rows));
      LoadGroup(schema, s, g);
      ScanFirstGroup(schema, s, groups);
      if IsPrefix(g) {
        OthersStillOwn(schema, g, rest, s.rows, s'.rows);
        LoadGroups(schema, s', rest);
        var end := Flush(schema, ScanRows(schema, s', Flatten(rest)));
        if !end.failed {
          AssembleEmitted(schema, s.emitted, groups);
          AssembleTable(schema, s.rows, s'.rows, end.rows, groups);
        }
      }
    }
  }

  lemma ScanFirstGroup(schema: Schema, s: Scan, groups: seq<Group>)
    requires groups != [] && Grouped(schema, groups) && !s.failed && s.previous.None?
    ensures var end := Flush(schema, ScanRows(schema, s, Flatten(groups)));
            var s' := Flush(schema, ScanRows(schema, s, groups[0].rows));
            if s'.failed then end.failed else end == Flush(schema, ScanRows(schema, s', Flatten(groups[1..])))
  {
    var g, rest := groups[0], Flatten(groups[1..]);
    var mid := ScanRows(schema, s, g.rows);
    assert GroupOk(schema, g);
    ScanAppend(schema, s, g.rows, rest);
    ScanWithin(schema, s, g.vm, g.rows);
    if mid.failed {
      FailureStays(schema, mid, rest);
    } else if groups[1..] != [] {
      assert GroupOk(schema, groups[1]);
      assert rest[0] == groups[1].rows[0] && groups[0].vm < groups[1].vm;
      FlushAtBoundary(schema, mid, rest);
      if Flush(schema, mid).failed {
        FailureStays(schema, Flush(schema, mid), rest);
      }
    }
  }

  lemma OthersStillOwn(schema: Schema, g: Group, rest: seq<Group>, before: Rows, after: Rows)
    requires OwnAll(before, rest) && Inserted(schema, before, after, g.vm, |g.rows|)
    requires forall other :: other in rest ==> other.vm != g.vm
    ensures OwnAll(after, rest)
  {
    forall other | other in rest
      ensures Owns(after, other)
    {
      assert Owns(before, other);
      assert forall id: nat :: (other.vm, id) in after <==> (other.vm, id) in before;
    }
  }

  lemma AssembleEmitted(schema: Schema, emitted: seq<Row>, groups: seq<Group>)
    requires groups != []
    ensures emitted + Complete(schema, groups[0]).rows + Flatten(CompleteAll(schema, groups[1..]))
         == emitted + Flatten(CompleteAll(schema, groups))
  {
    var all := CompleteAll(schema, groups);
    assert all[0] == Complete(schema, groups[0]) && all[1..] == CompleteAll(schema, groups[1..]);
  }

  lemma AssembleTable(schema: Schema, before: Rows, mid: Rows, after: Rows, groups: seq<Group>)
    requires groups != [] && Grouped(schema, groups) && Owns(before, groups[0]) && IsPrefix(groups[0])
    requires Inserted(schema, before, mid, groups[0].vm, |groups[0].rows|)
    requires AgreeAll(schema, groups[1..], after) && SameElsewhere(mid, after, groups[1..])
    ensures AgreeAll(schema, groups, after) && SameElsewhere(before, after, groups)
  {
    var g, rest := groups[0], groups[1..];
    assert groups == [g] + rest && g in groups && forall other :: other in rest ==> other.vm != g.vm;
    assert GroupOk(schema, g);
    CompletedAgrees(schema, g, before, mid);
    AgreementStays(schema, g, mid, after, rest);
    forall key: Key | forall other :: other in groups ==> other.vm != key.0
      ensures (key in before <==> key in after) && (key in before ==> before[key] == after[key])
    {
      assert forall other :: other in rest ==> other in groups;
    }
  }

  lemma AgreementStays(schema: Schema, g: Group, before: Rows, after: Rows, rest: seq<Group>)
    requires SameElsewhere(before, after, rest) && forall other :: other in rest ==> other.vm != g.vm
    requires Agree(schema, g.vm, Settings(Complete(schema, g)), before)
    ensures Agree(schema, g.vm, Settings(Complete(schema, g)), after)
  {
    forall i | 0 <= i < |Settings(Complete(schema, g))|
      ensures (g.vm, i) in after && after[(g.vm, i)] == Settings(Complete(schema, g))[i]
    {
      assert (g.vm, i) in before;
    }
  }

  // ---------------------------------------------------------------- the scan of the whole table

  /** The order of the scan: by machine, then by setting; the stored ids are those of known settings. */
  ghost predicate InKeyOrder(schema: Schema, rows: seq<Row>) {
    && (forall k :: 0 <= k < |rows| ==> rows[k].id < |schema.defaults|)
    && forall k, l :: 0 <= k < l < |rows| ==>
         rows[k].vm < rows[l].vm || (rows[k].vm == rows[l].vm && rows[k].id < rows[l].id)
  }

  /** The scan yields every row of the table. */
  ghost predicate IsScanOf(table: Rows, rows: seq<Row>) {
    && (forall row :: row in rows ==> (row.vm, row.id) in table && table[(row.vm, row.id)] == row.setting)
    && forall key :: key in table ==> Row(key.0, key.1, table[key]) in rows
  }

  function GroupsOf(rows: seq<Row>): seq<Group> {
    if rows == [] then [] else
      var row, rest := rows[0], GroupsOf(rows[1..]);
      if rest != [] && rest[0].vm == row.vm then [Group(row.vm, [row] + rest[0].rows)] + rest[1..]
      else [Group(row.vm, [row])] + rest
  }

  lemma {:induction false} ScanIsGrouped(schema: Schema, rows: seq<Row>)
    requires InKeyOrder(schema, rows)
    ensures Flatten(GroupsOf(rows)) == rows && Grouped(schema, GroupsOf(rows))
    ensures rows != [] ==> GroupsOf(rows) != [] && GroupsOf(rows)[0].vm == rows[0].vm && rows[0] == GroupsOf(rows)[0].rows[0]
  {
    if rows != [] {
      ScanIsGrouped(schema, rows[1..]);
      FlattenPrepended(rows);
      PrependKeepsGrouped(schema, rows);
    }
  }

  lemma FlattenPrepended(rows: seq<Row>)
    requires rows != [] && Flatten(GroupsOf(rows[1..])) == rows[1..]
    ensures Flatten(GroupsOf(rows)) == rows
  {
    var row, rest, groups := rows[0], GroupsOf(rows[1..]), GroupsOf(rows);
    if rest != [] && rest[0].vm == row.vm {
      assert groups[1..] == rest[1..];
      assert [row] + (rest[0].rows + Flatten(rest[1..])) == groups[0].rows + Flatten(rest[1..]);
    } else {
      assert groups[1..] == rest;
    }
  }

  lemma {:induction false} PrependKeepsGrouped(schema: Schema, rows: seq<Row>)
    requires rows != [] && InKeyOrder(schema, rows)
    requires Grouped(schema, GroupsOf(rows[1..])) && Flatten(GroupsOf(rows[1..])) == rows[1..]
    ensures Grouped(schema, GroupsOf(rows))
  {
    var row, rest := rows[0], GroupsOf(rows[1..]);
    if rest == [] {
      assert GroupsOf(rows) == [Group(row.vm, [row])];
    } else {
      assert GroupOk(schema, rest[0]);
      assert rest[0].rows[0] == rows[1];
      assert row.vm < rest[0].vm || (row.vm == rest[0].vm && row.id < rest[0].rows[0].id);
      if rest[0].vm == row.vm {
        PrependRow(schema, row, rest);
      } else {
        PrependGroup(schema, row, rest);
      }
    }
  }

  lemma PrependRow(schema: Schema, row: Row, rest: seq<Group>)
    requires Grouped(schema, rest) && rest != [] && rest[0].vm == row.vm
    requires rest[0].rows != [] && row.id < rest[0].rows[0].id && row.id < |schema.defaults|
    ensures Grouped(schema, [Group(row.vm, [row] + rest[0].rows)] + rest[1..])
  {
    assert GroupOk(schema, rest[0]);
    assert GroupOk(schema, Group(row.vm, [row] + rest[0].rows));
  }

  lemma PrependGroup(schema: Schema, row: Row, rest: seq<Group>)
    requires Grouped(schema, rest) && rest != [] && row.vm < rest[0].vm && row.id < |schema.defaults|
    ensures Grouped(schema, [Group(row.vm, [row])] + rest)
  {
    assert GroupOk(schema, Group(row.vm, [row]));
  }

  lemma {:induction false} InFlatten(groups: seq<Group>, row: Row)
    ensures row in Flatten(groups) <==> exists g :: g in groups && row in g.rows
  {
    if groups != [] {
      InFlatten(groups[1..], row);
      assert groups == [groups[0]] + groups[1..];
    }
  }

  lemma GroupsOwnTheirRows(schema: Schema, table: Rows, rows: seq<Row>)
    requires InKeyOrder(schema, rows) && IsScanOf(table, rows)
    ensures OwnAll(table, GroupsOf(rows))
  {
    var groups := GroupsOf(rows);
    ScanIsGrouped(schema, rows);
    forall g | g in groups
      ensures Owns(table, g)
    {
      assert GroupOk(schema, g);
      forall k | 0 <= k < |g.rows|
        ensures (g.vm, g.rows[k].id) in table && table[(g.vm, g.rows[k].id)] == g.rows[k].setting
      {
        InFlatten(groups, g.rows[k]);
      }
      forall id: nat | (g.vm, id) in table
        ensures HasId(g, id)
      {
        var row := Row(g.vm, id, table[(g.vm, id)]);
        InFlatten(groups, row);
        var other :| other in groups && row in other.rows;
        assert GroupOk(schema, other) && other.vm == g.vm;
        assert other == g;
        var k :| 0 <= k < |g.rows| && g.rows[k] == row;
      }
    }
  }

  /** Loading succeeds exactly when every machine has stored its first settings and no others, each under its own id.
      It then emits, machine by machine and in order, the stored settings followed by the defaults of the others, and
      leaves that very list in the table. */
  lemma LoadingSucceedsIff(schema: Schema, table: Rows, rows: seq<Row>)
    requires InKeyOrder(schema, rows) && IsScanOf(table, rows)
    ensures var end, groups := Load(schema, table, rows), GroupsOf(rows);
            && (end.failed <==> exists g :: g in groups && !IsPrefix(g))
            && (!end.failed ==> && end.emitted == Flatten(CompleteAll(schema, groups))
                                && AgreeAll(schema, groups, end.rows))
  {
    ScanIsGrouped(schema, rows);
    GroupsOwnTheirRows(schema, table, rows);
    LoadGroups(schema, Scan(table, 0, None, [], false), GroupsOf(rows));
  }

  // ---------------------------------------------------------------- one machine from each group

  datatype Machine = Machine(vm: nat, settings: seq<Setting>)

  /** The constructor's walk over the emitted settings. All machines are built in one list, the one that is reused: it is cut
      to the settings of the machine that is created and never grows again. Writing past its end fails. */
  datatype Builder = Builder(machines: seq<Machine>, slots: seq<Setting>, index: nat, previous: Option<nat>, failed: bool)

  function CreateVm(b: Builder): Builder {
    if b.previous.None? || b.index > |b.slots| then b
    else
      var slots := b.slots[..b.index];
      Builder(b.machines + [Machine(b.previous.value, slots)], slots, 0, None, b.failed)
  }

  function AddRow(b: Builder, row: Row): Builder {
    if b.failed then b else
      var b := if b.previous.Some? && b.previous.value != row.vm then CreateVm(b) else b;
      if b.index >= |b.slots| then b.(failed := true)
      else b.(slots := b.slots[b.index := row.setting], index := b.index + 1, previous := Some(row.vm))
  }

  function AddRows(b: Builder, rows: seq<Row>): Builder
    decreases |rows|
  {
    if rows == [] then b else AddRows(AddRow(b, rows[0]), rows[1..])
  }

  function EmptyBuilder(schema: Schema): Builder
    requires ValidSchema(schema)
  {
    Builder([], seq(|schema.defaults|, _ => Setting(0, schema.defaults[0])), 0, None, false)
  }

  method BuildMachines(schema: Schema, emitted: seq<Row>) returns (machines: seq<Machine>, failed: bool)
    requires ValidSchema(schema)
    ensures var end := AddRows(EmptyBuilder(schema), emitted);
            failed == end.failed && (!failed ==> machines == CreateVm(end).machines)
  {
    machines, failed := [], false;
    var slots := seq(|schema.defaults|, _ => Setting(0, schema.defaults[0]));
    var index, previous := 0, None;
    var i := 0;
    assert emitted[0..] == emitted;
    while i < |emitted|
      invariant 0 <= i <= |emitted| && index <= |slots|
      invariant AddRows(Builder(machines, slots, index, previous, false), emitted[i..])
             == AddRows(EmptyBuilder(schema), emitted)
    {
      var row := emitted[i];
      assert emitted[i..][0] == row && emitted[i..][1..] == emitted[i + 1..];
      ghost var before := Builder(machines, slots, index, previous, false);
      if previous.Some? && previous.value != row.vm {
        machines, slots, index, previous := TakeList(machines, slots, index, previous.value);
      }
      if index >= |slots| {
        failed := true;
        BuildingStaysFailed(AddRow(before, row), emitted[i + 1..]);
        return;
      }
      slots := slots[index := row.setting];
      index, previous := index + 1, Some(row.vm);
      assert AddRow(before, row) == Builder(machines, slots, index, previous, false);
      i := i + 1;
    }
    if previous.Some? {
      machines, slots, index, previous := TakeList(machines, slots, index, previous.value);
    }
  }

  /** Create a machine from the list so far; the list stays cut. */
  method TakeList(machines: seq<Machine>, slots: seq<Setting>, index: nat, vm: nat)
    returns (more: seq<Machine>, cut: seq<Setting>, next: nat, previous: Option<nat>)
    requires index <= |slots|
    ensures CreateVm(Builder(machines, slots, index, Some(vm), false)) == Builder(more, cut, next, previous, false)
    ensures next <= |cut|
  {
    cut := slots[..index];
    more, next, previous := machines + [Machine(vm, cut)], 0, None;
  }

  lemma {:induction false} BuildingStaysFailed(b: Builder, rows: seq<Row>)
    requires b.failed
    ensures AddRows(b, rows) == b
    decreases |rows|
  {
    if rows != [] {
      BuildingStaysFailed(b, rows[1..]);
    }
  }

  function MachinesOf(groups: seq<Group>): (machines: seq<Machine>)
    ensures |machines| == |groups|
    ensures forall i :: 0 <= i < |groups| ==> machines[i] == Machine(groups[i].vm, Settings(groups[i]))
  {
    if groups == [] then [] else [Machine(groups[0].vm, Settings(groups[0]))] + MachinesOf(groups[1..])
  }

  /** Groups as the loader emits them: none empty, none of two machines, no two of one machine. */
  ghost predicate Separate(groups: seq<Group>) {
    && (forall g :: g in groups ==> g.rows != [] && forall row :: row in g.rows ==> row.vm == g.vm)
    && forall i, j :: 0 <= i < j < |groups| ==> groups[i].vm != groups[j].vm
  }

  lemma {:induction false} AddRowsAppend(b: Builder, rows: seq<Row>, more: seq<Row>)
    ensures AddRows(b, rows + more) == AddRows(AddRows(b, rows), more)
    decreases |rows|
  {
    if rows == [] {
      assert rows + more == more;
    } else {
      assert (rows + more)[1..] == rows[1..] + more;
      AddRowsAppend(AddRow(b, rows[0]), rows[1..], more);
    }
  }

  /** Every machine's settings fit into what the one before has left of the list. */
  ghost predicate Fits(groups: seq<Group>, size: nat)
    decreases |groups|
  {
    groups != [] ==> |groups[0].rows| <= size && Fits(groups[1..], |groups[0].rows|)
  }

  lemma {:induction false} EquallyLongFit(groups: seq<Group>, size: nat)
    requires forall g :: g in groups ==> |g.rows| == size
    ensures Fits(groups, size)
    decreases |groups|
  {
    if groups != [] {
      assert groups[0] in groups && forall g :: g in groups[1..] ==> g in groups;
      EquallyLongFit(groups[1..], size);
    }
  }

  lemma SettingsOfRest(g: Group)
    requires g.rows != []
    ensures Settings(g) == [g.rows[0].setting] + Settings(Group(g.vm, g.rows[1..]))
  {
  }

  /** A list with some settings written into it from a place on. */
  function WrittenAt(slots: seq<Setting>, index: nat, settings: seq<Setting>): seq<Setting>
    requires index + |settings| <= |slots|
  {
    slots[..index] + settings + slots[index + |settings|..]
  }

  lemma OverwriteOne(slots: seq<Setting>, index: nat, s: Setting, rest: seq<Setting>)
    requires index + 1 + |rest| <= |slots|
    ensures WrittenAt(slots[index := s], index + 1, rest) == WrittenAt(slots, index, [s] + rest)
  {
  }

  lemma OverwriteNone(slots: seq<Setting>, index: nat)
    requires index <= |slots|
    ensures WrittenAt(slots, index, []) == slots
  {
  }

  /** One more setting of the machine that is being read. */
  function AddOne(b: Builder, row: Row): Builder
    requires b.index < |b.slots|
  {
    Builder(b.machines, b.slots[b.index := row.setting], b.index + 1, Some(row.vm), false)
  }

  ghost predicate Reading(b: Builder, vm: nat) {
    !b.failed && b.index <= |b.slots| && b.previous in {None, Some(vm)}
  }

  /** One machine's settings overwrite the list from the front... */
  lemma {:induction false} AddWithin(b: Builder, g: Group)
    requires Reading(b, g.vm) && g.rows != [] && b.index + |g.rows| <= |b.slots|
    requires forall row :: row in g.rows ==> row.vm == g.vm
    ensures AddRows(b, g.rows)
         == Builder(b.machines, WrittenAt(b.slots, b.index, Settings(g)), b.index + |g.rows|, Some(g.vm), false)
    decreases |g.rows|
  {
    var rest, next := Group(g.vm, g.rows[1..]), AddOne(b, g.rows[0]);
    assert AddRow(b, g.rows[0]) == next;
    SettingsOfRest(g);
    OverwriteOne(b.slots, b.index, g.rows[0].setting, Settings(rest));
    if rest.rows == [] {
      OverwriteNone(next.slots, next.index);
      assert Settings(rest) == [] && AddRows(next, rest.rows) == next;
    } else {
      AddWithin(next, rest);
    }
  }

  /** ... as far as it goes. */
  lemma {:induction false} AddBeyond(b: Builder, g: Group)
    requires Reading(b, g.vm) && b.index + |g.rows| > |b.slots|
    requires forall row :: row in g.rows ==> row.vm == g.vm
    ensures AddRows(b, g.rows).failed
    decreases |g.rows|
  {
    if b.index == |b.slots| {
      BuildingStaysFailed(AddRow(b, g.rows[0]), g.rows[1..]);
    } else {
      assert AddRow(b, g.rows[0]) == AddOne(b, g.rows[0]);
      AddBeyond(AddOne(b, g.rows[0]), Group(g.vm, g.rows[1..]));
    }
  }

  lemma OtherMachineNext(b: Builder, groups: seq<Group>)
    requires Separate(groups) && b.previous.Some? && !b.failed && forall g :: g in groups ==> g.vm != b.previous.value
    ensures groups != [] ==> AddRows(b, Flatten(groups)) == AddRows(CreateVm(b), Flatten(groups))
    ensures groups == [] ==> AddRows(b, Flatten(groups)) == b
  {
    if groups != [] {
      var rows := Flatten(groups);
      assert groups[0] in groups && rows[0] == groups[0].rows[0] && rows[0] in groups[0].rows;
    }
  }

  /** The walk stays inside the list exactly when no machine has more settings than the one before it; then exactly one
      machine is built from each group, in order, from the group's own full list. */
  lemma {:induction false} OneMachineForEachGroup(b: Builder, groups: seq<Group>)
    requires Separate(groups) && b.previous.None? && b.index == 0 && !b.failed
    ensures var end := AddRows(b, Flatten(groups));
            && (!end.failed <==> Fits(groups, |b.slots|))
            && (!end.failed ==> CreateVm(end).machines == b.machines + MachinesOf(groups))
    decreases |groups|
  {
    if groups != [] {
      var g, rest := groups[0], groups[1..];
      assert g in groups && forall other :: other in rest ==> other in groups;
      AddRowsAppend(b, g.rows, Flatten(rest));
      var mid := AddRows(b, g.rows);
      if |g.rows| > |b.slots| {
        AddBeyond(b, g);
        BuildingStaysFailed(mid, Flatten(rest));
      } else {
        AddWithin(b, g);
        BuiltFirst(b, g, mid);
        OtherMachineNext(mid, rest);
        OneMachineForEachGroup(CreateVm(mid), rest);
        Regroup(b.machines, Machine(g.vm, Settings(g)), MachinesOf(rest));
      }
    }
  }

  lemma BuiltFirst(b: Builder, g: Group, mid: Builder)
    requires |g.rows| <= |b.slots|
    requires mid == Builder(b.machines, WrittenAt(b.slots, 0, Settings(g)), |g.rows|, Some(g.vm), false)
    ensures CreateVm(mid) == Builder(b.machines + [Machine(g.vm, Settings(g))], Settings(g), 0, None, false)
  {
    assert mid.slots[..|g.rows|] == Settings(g);
  }

  lemma Regroup(built: seq<Machine>, next: Machine, rest: seq<Machine>)
    ensures built + [next] + rest == built + ([next] + rest)
  {
  }

  // ---------------------------------------------------------------- the settings a machine starts with

  ghost predicate Increasing(schema: Schema, settings: seq<Setting>) {
    && Known(schema, settings)
    && forall k, l :: 0 <= k < l < |settings| ==> settings[k].which < settings[l].which
  }

  /** Every setting once, in order: the given value or the default. */
  function Filled(schema: Schema, initial: seq<Setting>): seq<Setting> {
    seq(|schema.defaults|, i requires 0 <= i < |schema.defaults| =>
      if Mentions(initial, i) then First(initial, i) else Setting(i, schema.defaults[i]))
  }

  /** A list as long as the list of all settings is taken as it is, any other is filled up. */
  method GetInitialSettings(schema: Schema, initial: seq<Setting>) returns (settings: seq<Setting>)
    requires ValidSchema(schema)
    ensures Canonical(schema, settings) <==> (|initial| == |schema.defaults| ==> Canonical(schema, initial))
    ensures Increasing(schema, initial) ==> Canonical(schema, settings) && settings == Filled(schema, initial)
  {
    if |initial| == |schema.defaults| {
      if Increasing(schema, initial) {
        FullListIsCanonical(schema, initial);
      }
      return initial;
    }
    settings := seq(|schema.defaults|, _ => Setting(0, schema.defaults[0]));
    var current := 0;
    for i := 0 to |schema.defaults|
      invariant 0 <= current <= |initial| && |settings| == |schema.defaults|
      invariant forall j :: 0 <= j < i ==> settings[j].which == j
      invariant forall k :: 0 <= k < current ==> initial[k].which < i
      invariant Increasing(schema, initial) ==> forall j :: 0 <= j < i ==> settings[j] == Filled(schema, initial)[j]
    {
      while current < |initial| && initial[current].which < i
        invariant 0 <= current <= |initial|
        invariant forall k :: 0 <= k < current ==> initial[k].which < i
      {
        current := current + 1;
      }
      if current < |initial| && initial[current].which == i {
        settings := settings[i := initial[current]];
      } else {
        settings := settings[i := Setting(i, schema.defaults[i])];
      }
      if Increasing(schema, initial) {
        CursorFinds(schema, initial, current, i);
      }
    }
  }

  lemma CursorFinds(schema: Schema, initial: seq<Setting>, current: nat, i: nat)
    requires Increasing(schema, initial) && current <= |initial|
    requires forall k :: 0 <= k < current ==> initial[k].which < i
    requires current < |initial| ==> initial[current].which >= i
    ensures Mentions(initial, i) <==> current < |initial| && initial[current].which == i
    ensures Mentions(initial, i) ==> First(initial, i) == initial[current]
  {
    if Mentions(initial, i) {
      var k :| 0 <= k < |initial| && initial[k].which == i;
      assert k == current;
      FirstAt(initial, k);
    }
  }

  /** As many increasing ids as there are ids are all of them. */
  lemma FullListIsCanonical(schema: Schema, settings: seq<Setting>)
    requires Increasing(schema, settings) && |settings| == |schema.defaults|
    ensures Canonical(schema, settings) && settings == Filled(schema, settings)
  {
    var g := Group(0, seq(|settings|, k requires 0 <= k < |settings| => Row(0, settings[k].which, settings[k])));
    forall k | 0 <= k < |settings|
      ensures settings[k].which == k && Filled(schema, settings)[k] == settings[k]
    {
      IncreasingIdsGrow(g, k);
      assert settings[|settings| - 1] in settings;
      FirstAt(settings, k);
    }
  }

  /** One machine for each group, in order, whose canonical settings are what the table holds for it. */
  ghost predicate BuiltFrom(schema: Schema, groups: seq<Group>, machines: seq<Machine>, table: Rows) {
    && |machines| == |groups|
    && forall i :: 0 <= i < |machines| ==>
         machines[i].vm == groups[i].vm && Agree(schema, groups[i].vm, machines[i].settings, table)
  }

  /** Nothing stored is changed, and what is added are defaults. */
  ghost predicate OnlyDefaultsAdded(schema: Schema, before: Rows, after: Rows) {
    && (forall key :: key in before ==> key in after && after[key] == before[key])
    && forall key :: key in after && key !in before ==>
         key.1 < |schema.defaults| && after[key] == Setting(key.1, schema.defaults[key.1])
  }

  lemma {:induction false} GenerateAddsDefaults(schema: Schema, s: Scan, vm: nat)
    ensures OnlyDefaultsAdded(schema, s.rows, GenerateNewSettings(schema, s, vm).rows)
    decreases |schema.defaults| - s.expected
  {
    if !s.failed && s.expected < |schema.defaults| && (vm, s.expected) !in s.rows {
      var row := Default(schema, vm, s.expected);
      GenerateAddsDefaults(schema, s.(rows := s.rows[(vm, row.id) := row.setting], expected := s.expected + 1,
                                      emitted := s.emitted + [row]), vm);
    }
  }

  lemma {:induction false} ScanAddsDefaults(schema: Schema, s: Scan, rows: seq<Row>)
    ensures OnlyDefaultsAdded(schema, s.rows, ScanRows(schema, s, rows).rows)
    decreases |rows|
  {
    if rows != [] {
      if s.previous.Some? {
        GenerateAddsDefaults(schema, s, s.previous.value);
      }
      ScanAddsDefaults(schema, ScanRow(schema, s, rows[0]), rows[1..]);
    }
  }

  lemma LoadAddsDefaults(schema: Schema, table: Rows, scan: seq<Row>)
    ensures OnlyDefaultsAdded(schema, table, Load(schema, table, scan).rows)
  {
    var s := Scan(table, 0, None, [], false);
    var end := ScanRows(schema, s, scan);
    ScanAddsDefaults(schema, s, scan);
    if end.previous.Some? {
      GenerateAddsDefaults(schema, end, end.previous.value);
    }
  }

  /** Each setting of the machine is the one stored for it, or its default when none is stored. */
  ghost predicate StoredOrDefault(schema: Schema, table: Rows, m: Machine) {
    && |m.settings| == |schema.defaults|
    && forall i :: 0 <= i < |m.settings| ==>
         m.settings[i] == if (m.vm, i) in table then table[(m.vm, i)] else Setting(i, schema.defaults[i])
  }

  lemma BuiltHoldStoredOrDefault(schema: Schema, groups: seq<Group>, machines: seq<Machine>, table: Rows, after: Rows)
    requires BuiltFrom(schema, groups, machines, after) && OnlyDefaultsAdded(schema, table, after)
    ensures forall m :: m in machines ==> StoredOrDefault(schema, table, m)
  {
    forall i | 0 <= i < |machines|
      ensures StoredOrDefault(schema, table, machines[i])
    {
      assert Agree(schema, groups[i].vm, machines[i].settings, after);
    }
  }

  /** Scan the table and walk over what the scan emits. */
  method ReadMachines(schema: Schema, table: Rows, rows: seq<Row>)
    returns (failed: bool, after: Rows, lists: seq<Machine>)
    requires ValidSchema(schema) && InKeyOrder(schema, rows) && IsScanOf(table, rows)
    ensures failed <==> exists g :: g in GroupsOf(rows) && !IsPrefix(g)
    ensures !failed ==> BuiltFrom(schema, GroupsOf(rows), lists, after)
    ensures !failed ==> OnlyDefaultsAdded(schema, table, after)
  {
    var emitted;
    after, emitted, failed := ReadVmSettings(schema, table, rows);
    LoadingSucceedsIff(schema, table, rows);
    LoadAddsDefaults(schema, table, rows);
    lists := [];
    if !failed {
      var outOfRange;
      lists, outOfRange := BuildMachines(schema, emitted);
      BuiltListsAgree(schema, GroupsOf(rows), after, rows);
    }
  }

  /** Start-up: when loading succeeds there is exactly one machine for each stored id, in order, and each starts with
      canonical settings: those stored for it, and the defaults of all others, which the table then holds too. */
  method LoadMachines(schema: Schema, table: Rows, rows: seq<Row>)
    returns (failed: bool, after: Rows, machines: seq<Machine>)
    requires ValidSchema(schema) && InKeyOrder(schema, rows) && IsScanOf(table, rows)
    ensures failed <==> exists g :: g in GroupsOf(rows) && !IsPrefix(g)
    ensures !failed ==> BuiltFrom(schema, GroupsOf(rows), machines, after)
    ensures !failed ==> forall m :: m in machines ==> StoredOrDefault(schema, table, m)
    ensures !failed ==> OnlyDefaultsAdded(schema, table, after)
  {
    var lists;
    failed, after, lists := ReadMachines(schema, table, rows);
    machines := [];
    if !failed {
      machines := InitMachines(schema, lists);
      BuiltHoldStoredOrDefault(schema, GroupsOf(rows), machines, table, after);
    }
  }

  /** Full lists become the settings of their machines as they are. */
  method InitMachines(schema: Schema, lists: seq<Machine>) returns (machines: seq<Machine>)
    requires ValidSchema(schema) && forall i :: 0 <= i < |lists| ==> Canonical(schema, lists[i].settings)
    ensures machines == lists
  {
    machines := [];
    for i := 0 to |lists|
      invariant machines == lists[..i]
    {
      var settings := GetInitialSettings(schema, lists[i].settings);
      CanonicalIsIncreasing(schema, lists[i].settings);
      machines := machines + [Machine(lists[i].vm, settings)];
    }
  }

  /** The completed lists are equally long, so that the reused list never runs short. */
  lemma BuiltListsAgree(schema: Schema, groups: seq<Group>, after: Rows, rows: seq<Row>)
    requires ValidSchema(schema) && InKeyOrder(schema, rows) && groups == GroupsOf(rows) && AgreeAll(schema, groups, after)
    ensures var end := AddRows(EmptyBuilder(schema), Flatten(CompleteAll(schema, groups)));
            !end.failed && BuiltFrom(schema, groups, CreateVm(end).machines, after)
  {
    var all := CompleteAll(schema, groups);
    ScanIsGrouped(schema, rows);
    CompletedIsSeparate(schema, groups);
    CompletedIsFull(schema, groups, after);
    EquallyLongFit(all, |schema.defaults|);
    OneMachineForEachGroup(EmptyBuilder(schema), all);
    MachinesAgree(schema, groups, after);
    assert [] + MachinesOf(all) == MachinesOf(all);
  }

  lemma MachinesAgree(schema: Schema, groups: seq<Group>, after: Rows)
    requires AgreeAll(schema, groups, after)
    ensures BuiltFrom(schema, groups, MachinesOf(CompleteAll(schema, groups)), after)
  {
    var machines := MachinesOf(CompleteAll(schema, groups));
    forall i | 0 <= i < |groups|
      ensures machines[i].vm == groups[i].vm && Agree(schema, groups[i].vm, machines[i].settings, after)
    {
      assert groups[i] in groups;
    }
  }

  lemma CompletedIsFull(schema: Schema, groups: seq<Group>, after: Rows)
    requires AgreeAll(schema, groups, after)
    ensures forall g :: g in CompleteAll(schema, groups) ==> |g.rows| == |schema.defaults|
  {
    var all := CompleteAll(schema, groups);
    forall i | 0 <= i < |all|
      ensures |all[i].rows| == |schema.defaults|
    {
      assert groups[i] in groups;
      assert |Settings(all[i])| == |schema.defaults|;
    }
  }

  lemma CanonicalIsIncreasing(schema: Schema, settings: seq<Setting>)
    requires Canonical(schema, settings)
    ensures Increasing(schema, settings) && settings == Filled(schema, settings)
  {
    FullListIsCanonical(schema, settings);
  }

  lemma CompleteIsOfOneMachine(schema: Schema, g: Group)
    requires GroupOk(schema, g)
    ensures Complete(schema, g).rows != [] && forall row :: row in Complete(schema, g).rows ==> row.vm == g.vm
  {
    var defaults := Defaults(schema, g.vm, |g.rows|);
    assert forall row :: row in Complete(schema, g).rows ==> row in g.rows || row in defaults;
  }

  lemma CompletedIsSeparate(schema: Schema, groups: seq<Group>)
    requires Grouped(schema, groups)
    ensures Separate(CompleteAll(schema, groups))
  {
    var all := CompleteAll(schema, groups);
    forall i | 0 <= i < |all|
      ensures all[i].rows != [] && forall row :: row in all[i].rows ==> row.vm == all[i].vm
    {
      assert groups[i] in groups;
      CompleteIsOfOneMachine(schema, groups[i]);
    }
  }
}

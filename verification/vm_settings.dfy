/** The settings of a machine in memory and in the database, and how one update changes both. */
module VmSettings {

  datatype Value = Flag(on: bool) | Number(n: nat) | Text(text: string)

  /** A setting is a union: which of its fields is set, and the value of that field. */
  datatype Setting = Setting(which: nat, value: Value)

  /** The fields of the union in order, by their defaults, and the places of the fields the server looks at. */
  datatype Schema = Schema(defaults: seq<Value>, turnsEnabled: nat, turnTime: nat, votesEnabled: nat, voteTime: nat)

  predicate ValidSchema(schema: Schema) {
    && |schema.defaults| <= 256      // setting ids are stored in one byte
    && schema.turnsEnabled < |schema.defaults| && schema.turnTime < |schema.defaults|
    && schema.votesEnabled < |schema.defaults| && schema.voteTime < |schema.defaults|
  }

  type Key = (nat, nat)              // machine id and setting id

  type Rows = map<Key, Setting>

  /** Entry i holds setting i, for every setting. */
  ghost predicate Canonical(schema: Schema, settings: seq<Setting>) {
    |settings| == |schema.defaults| && forall i :: 0 <= i < |settings| ==> settings[i].which == i
  }

  ghost predicate Known(schema: Schema, updates: seq<Setting>) {
    forall u :: u in updates ==> u.which < |schema.defaults|
  }

  predicate Mentions(updates: seq<Setting>, id: nat) {
    exists i :: 0 <= i < |updates| && updates[i].which == id
  }

  function First(updates: seq<Setting>, id: nat): (s: Setting)
    requires Mentions(updates, id)
    ensures s.which == id && s in updates
  {
    if updates[0].which == id then updates[0] else First(updates[1..], id)
  }

  function Last(updates: seq<Setting>, id: nat): (s: Setting)
    requires Mentions(updates, id)
    ensures s.which == id && s in updates
  {
    var n := |updates| - 1;
    if updates[n].which == id then updates[n] else Last(updates[..n], id)
  }

  ghost predicate NoRepeats(updates: seq<Setting>) {
    forall i, j :: 0 <= i < j < |updates| ==> updates[i].which != updates[j].which
  }

  /** What the memory becomes: the first update of each setting wins. */
  function Merged(settings: seq<Setting>, updates: seq<Setting>): seq<Setting> {
    seq(|settings|, i requires 0 <= i < |settings| =>
      if Mentions(updates, settings[i].which) then First(updates, settings[i].which) else settings[i])
  }

  function Holds(s: Setting): bool {
    s.value.Flag? && s.value.on
  }

  function Amount(s: Setting): nat {
    if s.value.Number? then s.value.n else 0
  }

  predicate Valid(schema: Schema, settings: seq<Setting>)
    requires ValidSchema(schema) && |settings| == |schema.defaults|
  {
    && (!Holds(settings[schema.turnsEnabled]) || Amount(settings[schema.turnTime]) > 0)
    && (!Holds(settings[schema.votesEnabled]) || Amount(settings[schema.voteTime]) > 0)
  }

  /** The flag at `flag` is on while the setting at `time` is not a number above zero. */
  ghost predicate EnabledWithoutTime(settings: seq<Setting>, flag: nat, time: nat)
    requires flag < |settings| && time < |settings|
  {
    settings[flag].value == Flag(true) && forall n: nat :: settings[time].value == Number(n) ==> n == 0
  }

  ghost predicate ClockedRight(schema: Schema, settings: seq<Setting>) {
    && ValidSchema(schema) && |settings| == |schema.defaults|
    && !EnabledWithoutTime(settings, schema.turnsEnabled, schema.turnTime)
    && !EnabledWithoutTime(settings, schema.votesEnabled, schema.voteTime)
  }

  /** Settings are refused exactly when they enable turns or votes without a time above zero for them. */
  lemma RefusedIff(schema: Schema, settings: seq<Setting>)
    requires ValidSchema(schema) && |settings| == |schema.defaults|
    ensures !Valid(schema, settings) <==>
            || EnabledWithoutTime(settings, schema.turnsEnabled, schema.turnTime)
            || EnabledWithoutTime(settings, schema.votesEnabled, schema.voteTime)
  {
    var turnTime, voteTime := settings[schema.turnTime].value, settings[schema.voteTime].value;
    assert turnTime.Number? ==> turnTime == Number(turnTime.n);
    assert voteTime.Number? ==> voteTime == Number(voteTime.n);
  }

  /** The database holds for machine `vm` exactly what the memory holds. */
  ghost predicate Agree(schema: Schema, vm: nat, settings: seq<Setting>, rows: Rows) {
    && Canonical(schema, settings)
    && forall i :: 0 <= i < |settings| ==> (vm, i) in rows && rows[(vm, i)] == settings[i]
  }

  /** What the rows become: the last update of each setting wins, and no row is added. */
  ghost predicate Overwritten(before: Rows, after: Rows, vm: nat, updates: seq<Setting>) {
    && after.Keys == before.Keys
    && forall key :: key in before ==>
         after[key] == if key.0 == vm && Mentions(updates, key.1) then Last(updates, key.1) else before[key]
  }

  class Database {
    var rows: Rows

    constructor ()
      ensures rows == map[]
    {
      rows := map[];
    }

    method UpdateVmSettings(vm: nat, updates: seq<Setting>)
      modifies this
      ensures Overwritten(old(rows), rows, vm, updates)
    {
      var i := 0;
      while i < |updates|
        invariant 0 <= i <= |updates| && Overwritten(old(rows), rows, vm, updates[..i])
      {
        ghost var now := rows;
        if (vm, updates[i].which) in rows {
          rows := rows[(vm, updates[i].which) := updates[i]];
        }
        OverwriteStep(old(rows), now, rows, vm, updates, i);
        i := i + 1;
      }
      assert updates[..i] == updates;
    }

    method CreateVm(schema: Schema, vm: nat, settings: seq<Setting>)
      requires Canonical(schema, settings) && forall key :: key in rows ==> key.0 != vm
      modifies this
      ensures Agree(schema, vm, settings, rows)
      ensures forall key :: key in old(rows) ==> key in rows && rows[key] == old(rows)[key]
    {
      var i := 0;
      while i < |settings|
        invariant 0 <= i <= |settings|
        invariant forall key :: key in old(rows) ==> key in rows && rows[key] == old(rows)[key]
        invariant forall j :: 0 <= j < i ==> (vm, j) in rows && rows[(vm, j)] == settings[j]
      {
        rows := rows[(vm, settings[i].which) := settings[i]];
        i := i + 1;
      }
    }
  }

  lemma LastAppends(updates: seq<Setting>, i: nat, id: nat)
    requires i < |updates|
    ensures Mentions(updates[..i + 1], id) <==> Mentions(updates[..i], id) || id == updates[i].which
    ensures Mentions(updates[..i + 1], id) ==>
              Last(updates[..i + 1], id) == if id == updates[i].which then updates[i] else Last(updates[..i], id)
  {
    var longer := updates[..i + 1];
    assert longer[..i] == updates[..i] && longer[i] == updates[i];
    if Mentions(updates[..i], id) {
      var j :| 0 <= j < i && updates[..i][j].which == id;
      assert longer[j].which == id;
    }
  }

  /** One more update is applied to the row it names, when there is one. */
  lemma OverwriteStep(before: Rows, now: Rows, after: Rows, vm: nat, updates: seq<Setting>, i: nat)
    requires i < |updates| && Overwritten(before, now, vm, updates[..i])
    requires var key := (vm, updates[i].which); after == if key in now then now[key := updates[i]] else now
    ensures Overwritten(before, after, vm, updates[..i + 1])
  {
    forall key | key in before
      ensures after[key] == if key.0 == vm && Mentions(updates[..i + 1], key.1) then Last(updates[..i + 1], key.1)
                            else before[key]
    {
      LastAppends(updates, i, key.1);
    }
  }

  method FindUpdate(updates: seq<Setting>, id: nat) returns (found: bool, update: Setting)
    ensures found == Mentions(updates, id)
    ensures found ==> update == First(updates, id)
  {
    update := Setting(0, Flag(false));
    var i := 0;
    while i < |updates|
      invariant 0 <= i <= |updates|
      invariant Mentions(updates, id) == Mentions(updates[i..], id)
      invariant Mentions(updates, id) ==> First(updates, id) == First(updates[i..], id)
    {
      FirstOfRest(updates[i..], id);
      if updates[i].which == id {
        return true, updates[i];
      }
      assert updates[i..][1..] == updates[i + 1..];
      i := i + 1;
    }
    return false, update;
  }

  lemma FirstOfRest(updates: seq<Setting>, id: nat)
    requires updates != []
    ensures Mentions(updates, id) <==> updates[0].which == id || Mentions(updates[1..], id)
  {
    if Mentions(updates, id) && updates[0].which != id {
      var i :| 0 <= i < |updates| && updates[i].which == id;
      assert updates[1..][i - 1].which == id;
    }
    if Mentions(updates[1..], id) {
      var i :| 0 <= i < |updates| - 1 && updates[1..][i].which == id;
      assert updates[i + 1].which == id;
    }
  }

  /** Build the new list in a fresh message whose entries are all still unset. */
  method UpdateList(schema: Schema, settings: seq<Setting>, updates: seq<Setting>) returns (merged: seq<Setting>)
    requires ValidSchema(schema) && Canonical(schema, settings)
    ensures merged == Merged(settings, updates)
  {
    merged := seq(|settings|, _ => Setting(0, schema.defaults[0]));
    var i := 0;
    while i < |settings|
      invariant 0 <= i <= |settings| == |merged|
      invariant forall j :: 0 <= j < i ==> merged[j] == Merged(settings, updates)[j]
    {
      var settingType := settings[i].which;
      var found, update := FindUpdate(updates, settingType);
      merged := merged[settingType := if found then update else settings[i]];
      i := i + 1;
    }
  }

  class VirtualMachine {
    const schema: Schema
    const id: nat
    var settings: seq<Setting>

    ghost predicate Stored(db: Database)
      reads this, db
    {
      ValidSchema(schema) && Agree(schema, id, settings, db.rows)
    }

    /** A machine is created with canonical settings, which are written to the database. */
    constructor (schema: Schema, id: nat, settings: seq<Setting>, db: Database)
      requires ValidSchema(schema) && Canonical(schema, settings) && forall key :: key in db.rows ==> key.0 != id
      modifies db
      ensures Stored(db) && this.schema == schema && this.id == id && this.settings == settings
    {
      this.schema, this.id, this.settings := schema, id, settings;
      new;
      db.CreateVm(schema, id, settings);
    }

    method UpdateSettings(db: Database, updates: seq<Setting>) returns (valid: bool)
      requires ValidSchema(schema) && Canonical(schema, settings)
      modifies this, db
      ensures Canonical(schema, settings)
      ensures valid == Valid(schema, Merged(old(settings), updates))
      ensures valid ==> settings == Merged(old(settings), updates) && Overwritten(old(db.rows), db.rows, id, updates)
      ensures !valid ==> settings == old(settings) && db.rows == old(db.rows)
    {
      var newSettings := UpdateList(schema, settings, updates);
      valid := Valid(schema, newSettings);
      if valid {
        db.UpdateVmSettings(id, updates);
        settings := newSettings;
      }
    }

    /** After any sequence of updates that repeat no setting within one update, memory and database agree, whichever of
        the updates were accepted, and turns and votes that are enabled have a time. */
    method UpdateManyTimes(db: Database, updates: seq<seq<Setting>>)
      requires Stored(db) && forall u :: u in updates ==> NoRepeats(u)
      modifies this, db
      ensures Stored(db)
      ensures old(ClockedRight(schema, settings)) ==> ClockedRight(schema, settings)
    {
      var i := 0;
      while i < |updates|
        invariant 0 <= i <= |updates| && Stored(db)
        invariant old(ClockedRight(schema, settings)) ==> ClockedRight(schema, settings)
      {
        ghost var settings0, rows0 := settings, db.rows;
        var valid := UpdateSettings(db, updates[i]);
        assert updates[i] in updates;
        if valid {
          RefusedIff(schema, settings);
          NoRepeatsKeepAgreement(schema, id, settings0, rows0, db.rows, updates[i]);
        }
        i := i + 1;
      }
    }
  }

  // ---------------------------------------------------------------- when memory and storage agree

  /** An accepted update keeps memory and database in agreement exactly when no setting is given two different values in
      it, first and last. */
  lemma AgreementIsKeptIff(schema: Schema, vm: nat, settings: seq<Setting>, rows: Rows, after: Rows, updates: seq<Setting>)
    requires Agree(schema, vm, settings, rows) && Known(schema, updates) && Overwritten(rows, after, vm, updates)
    ensures Agree(schema, vm, Merged(settings, updates), after) <==>
            forall id: nat :: Mentions(updates, id) ==> First(updates, id) == Last(updates, id)
  {
    var merged := Merged(settings, updates);
    if forall id: nat :: Mentions(updates, id) ==> First(updates, id) == Last(updates, id) {
      assert Agree(schema, vm, merged, after);
    }
    if Agree(schema, vm, merged, after) {
      forall id: nat | Mentions(updates, id)
        ensures First(updates, id) == Last(updates, id)
      {
        assert First(updates, id) in updates && id < |merged|;
        assert after[(vm, id)] == merged[id];
      }
    }
  }

  lemma {:induction false} FirstAt(updates: seq<Setting>, i: nat)
    requires NoRepeats(updates) && i < |updates|
    ensures Mentions(updates, updates[i].which) && First(updates, updates[i].which) == updates[i]
  {
    if i > 0 {
      FirstAt(updates[1..], i - 1);
    }
  }

  lemma NoRepeatsKeepAgreement(schema: Schema, vm: nat, settings: seq<Setting>, rows: Rows, after: Rows,
                               updates: seq<Setting>)
    requires Agree(schema, vm, settings, rows) && NoRepeats(updates) && Overwritten(rows, after, vm, updates)
    ensures Agree(schema, vm, Merged(settings, updates), after)
  {
    forall id: nat | Mentions(updates, id)
      ensures First(updates, id) == Last(updates, id)
    {
      var i :| 0 <= i < |updates| && updates[i] == Last(updates, id);
      FirstAt(updates, i);
    }
  }

  /** A machine's update never touches another machine's rows. */
  lemma OtherMachinesAreKept(schema: Schema, other: nat, settings: seq<Setting>, rows: Rows, after: Rows, vm: nat,
                             updates: seq<Setting>)
    requires Agree(schema, other, settings, rows) && Overwritten(rows, after, vm, updates) && other != vm
    ensures Agree(schema, other, settings, after)
  {
  }
}

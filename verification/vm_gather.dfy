/** The round in which every machine is asked for its information, and the two lists that are sent to viewers: a model by
    values, with the messages on their way as part of the state. */
module VmGather {
  import opened Counting
  import opened Options

  /** An entry of a list: which machine, and what it told about itself. */
  datatype Info = Info(id: nat, data: nat)

  const BLANK := Info(0, 0)

  /** A machine and what it told in the round under way. */
  datatype AdminVm = AdminVm(id: nat, hasVmInfo: bool, pendingAdmin: Option<Info>, pendingInfo: Option<Info>)

  /** `machines` is in the order in which the server's table is walked; `asked` are the machines whose answer to the round
      is on its way, and `gone` is the number of answers on their way from machines deleted since they were asked. */
  datatype State = State(machines: seq<AdminVm>, requests: nat, updates: nat, adminList: seq<Info>, vmList: seq<Info>,
                         asked: set<nat>, gone: nat)

  predicate HasMachine(machines: seq<AdminVm>, id: nat) {
    exists i :: 0 <= i < |machines| && machines[i].id == id
  }

  predicate Listed(list: seq<Info>, id: nat) {
    exists i :: 0 <= i < |list| && list[i].id == id
  }

  function Ids(machines: seq<AdminVm>): (ids: set<nat>)
    ensures forall id :: id in ids <==> HasMachine(machines, id)
  {
    set i | 0 <= i < |machines| :: machines[i].id
  }

  // ---------------------------------------------------------------- the lists

  function Replaced(list: seq<Info>, id: nat, entry: Info): (l: seq<Info>)
    ensures |l| == |list| && forall i :: 0 <= i < |l| ==> l[i] == if list[i].id == id then entry else list[i]
  {
    seq(|list|, i requires 0 <= i < |list| => if list[i].id == id then entry else list[i])
  }

  function Without(list: seq<Info>, id: nat): seq<Info> {
    if list == [] then [] else (if list[0].id == id then [] else [list[0]]) + Without(list[1..], id)
  }

  /** The entries written from the front into a list of the given size whose entries are blank. */
  function Fill(entries: seq<Info>, size: nat): (l: seq<Info>)
    ensures |l| == size && forall i :: 0 <= i < size ==> l[i] == if i < |entries| then entries[i] else BLANK
  {
    seq(size, i requires 0 <= i < size => if i < |entries| then entries[i] else BLANK)
  }

  // ---------------------------------------------------------------- the machines

  function SetPending(machines: seq<AdminVm>, id: nat, admin: Option<Info>, info: Option<Info>): (ms: seq<AdminVm>)
    ensures |ms| == |machines|
    ensures forall i :: 0 <= i < |ms| ==>
              ms[i] == if machines[i].id == id then machines[i].(pendingAdmin := admin, pendingInfo := info) else machines[i]
  {
    seq(|machines|, i requires 0 <= i < |machines| =>
      if machines[i].id == id then machines[i].(pendingAdmin := admin, pendingInfo := info) else machines[i])
  }

  function Mark(machines: seq<AdminVm>, id: nat, has: bool): (ms: seq<AdminVm>)
    ensures |ms| == |machines|
    ensures forall i :: 0 <= i < |ms| ==>
              ms[i] == if machines[i].id == id then machines[i].(hasVmInfo := has) else machines[i]
  {
    seq(|machines|, i requires 0 <= i < |machines| =>
      if machines[i].id == id then machines[i].(hasVmInfo := has) else machines[i])
  }

  function Freed(machines: seq<AdminVm>): (ms: seq<AdminVm>)
    ensures |ms| == |machines|
    ensures forall i :: 0 <= i < |ms| ==> ms[i] == AdminVm(machines[i].id, machines[i].pendingInfo.Some?, None, None)
  {
    seq(|machines|, i requires 0 <= i < |machines| =>
      AdminVm(machines[i].id, machines[i].pendingInfo.Some?, None, None))
  }

  function Entry(info: Option<Info>): seq<Info> {
    if info.Some? then [info.value] else []
  }

  function GatheredAdmin(machines: seq<AdminVm>): seq<Info> {
    if machines == [] then [] else Entry(machines[0].pendingAdmin) + GatheredAdmin(machines[1..])
  }

  function GatheredInfo(machines: seq<AdminVm>): seq<Info> {
    if machines == [] then [] else Entry(machines[0].pendingInfo) + GatheredInfo(machines[1..])
  }

  function Find(machines: seq<AdminVm>, id: nat): (i: nat)
    requires HasMachine(machines, id)
    ensures i < |machines| && machines[i].id == id && forall j :: 0 <= j < i ==> machines[j].id != id
  {
    if machines[0].id == id then 0 else
      assert HasMachine(machines[1..], id) by {
        var i :| 0 <= i < |machines| && machines[i].id == id;
        assert machines[1..][i - 1].id == id;
      }
      1 + Find(machines[1..], id)
  }

  // ---------------------------------------------------------------- the handlers

  /** What a machine answers: always its entry for administrators, and one for viewers while it is active. */
  datatype Answer = Answer(adminData: nat, vmData: Option<nat>)

  function AdminInfo(id: nat, a: Answer): Info {
    Info(id, a.adminData)
  }

  function VmInfo(id: nat, a: Answer): Option<Info> {
    if a.vmData.Some? then Some(Info(id, a.vmData.value)) else None
  }

  function StartRound(s: State): State {
    if s.requests > 0 then s else s.(requests := |s.machines|, updates := 0, asked := Ids(s.machines))
  }

  /** An answer has been counted and what it told is in `machines`; the last one rebuilds the lists. */
  function Heard(s: State, machines: seq<AdminVm>, a: Answer): State
    requires s.requests > 0
  {
    var updates := s.updates + Bit(a.vmData.Some?);
    if s.requests > 1 then s.(machines := machines, updates := updates, requests := s.requests - 1)
    else
      s.(machines := Freed(machines), updates := updates, requests := 0,
         adminList := Fill(GatheredAdmin(machines), |machines|), vmList := Fill(GatheredInfo(machines), updates))
  }

  /** What the machines have told once machine `id` has answered. */
  function Told(s: State, id: nat, a: Answer): (machines: seq<AdminVm>)
    ensures machines == SetPending(s.machines, id, Some(AdminInfo(id, a)), VmInfo(id, a))
  {
    SetPending(s.machines, id, Some(AdminInfo(id, a)), VmInfo(id, a))
  }

  function Reply(s: State, id: nat, a: Answer): State
    requires s.requests > 0
  {
    Heard(s.(asked := s.asked - {id}), Told(s, id, a), a)
  }

  /** The answer of a machine that has been deleted is counted, but kept with the deleted machine. */
  function ReplyOfGone(s: State, a: Answer): State
    requires s.requests > 0 && s.gone > 0
  {
    Heard(s.(gone := s.gone - 1), s.machines, a)
  }

  /** A single machine's update: kept for the round when the machine has already answered, applied at once otherwise. */
  function Update(s: State, id: nat, a: Answer): State
    requires HasMachine(s.machines, id)
  {
    var m, info := s.machines[Find(s.machines, id)], VmInfo(id, a);
    if m.pendingAdmin.Some? then s.(machines := SetPending(s.machines, id, Some(AdminInfo(id, a)), info))
    else
      var s := s.(adminList := Replaced(s.adminList, id, AdminInfo(id, a)));
      if m.hasVmInfo then
        if info.None? then s.(vmList := Without(s.vmList, id), machines := Mark(s.machines, id, false))
        else s.(vmList := Replaced(s.vmList, id, info.value))
      else if info.None? then s
      else s.(vmList := s.vmList + [info.value], machines := Mark(s.machines, id, true))
  }

  /** A new machine gets an entry in the administrators' list; the table may walk it at any place. */
  function Create(s: State, id: nat, data: nat, at: nat): State
    requires at <= |s.machines|
  {
    s.(machines := s.machines[..at] + [AdminVm(id, false, None, None)] + s.machines[at..],
       adminList := s.adminList + [Info(id, data)])
  }

  /** The table without one machine. */
  function Erased(machines: seq<AdminVm>, id: nat): (rest: seq<AdminVm>)
    requires HasMachine(machines, id)
    ensures |rest| == |machines| - 1
    ensures forall i :: 0 <= i < |rest| ==> rest[i] == machines[if i < Find(machines, id) then i else i + 1]
  {
    machines[..Find(machines, id)] + machines[Find(machines, id) + 1..]
  }

  function Delete(s: State, id: nat): State
    requires HasMachine(s.machines, id)
  {
    s.(machines := Erased(s.machines, id), adminList := Without(s.adminList, id),
       asked := s.asked - {id}, gone := s.gone + Bit(id in s.asked))
  }

  datatype Event =
    | Round
    | Answered(id: nat, answer: Answer)
    | AnsweredGone(answer: Answer)
    | Updated(id: nat, answer: Answer)
    | Created(id: nat, data: nat, at: nat)
    | Deleted(id: nat)

  /** Machines answer a round once, an update concerns a machine that is there, and a new machine has a new id. */
  predicate Enabled(s: State, e: Event) {
    match e
    case Round => true
    case Answered(id, _) => id in s.asked
    case AnsweredGone(_) => s.gone > 0
    case Updated(id, _) => HasMachine(s.machines, id)
    case Created(id, _, at) => !HasMachine(s.machines, id) && at <= |s.machines|
    case Deleted(id) => HasMachine(s.machines, id)
  }

  function Step(s: State, e: Event): State {
    if !Enabled(s, e) then s else
      match e
      case Round => StartRound(s)
      case Answered(id, answer) => if s.requests == 0 then s else Reply(s, id, answer)
      case AnsweredGone(answer) => if s.requests == 0 then s else ReplyOfGone(s, answer)
      case Updated(id, answer) => Update(s, id, answer)
      case Created(id, data, at) => Create(s, id, data, at)
      case Deleted(id) => Delete(s, id)
  }

  function Run(s: State, events: seq<Event>): State
    decreases |events|
  {
    if events == [] then s else Run(Step(s, events[0]), events[1..])
  }

  // ---------------------------------------------------------------- the invariant

  ghost predicate Distinct(machines: seq<AdminVm>) {
    forall i, j :: 0 <= i < j < |machines| ==> machines[i].id != machines[j].id
  }

  ghost predicate DistinctEntries(list: seq<Info>) {
    forall i, j :: 0 <= i < j < |list| ==> list[i].id != list[j].id
  }

  /** The round: machines still asked have told nothing, all others have, and the counters are exact. */
  ghost predicate RoundInv(s: State) {
    AskedInv(s) && (s.requests > 0 ==> s.updates == |GatheredInfo(s.machines)|)
  }

  ghost predicate AskedInv(s: State) {
    && Distinct(s.machines) && s.asked <= Ids(s.machines)
    && s.requests == |s.asked| && s.gone == 0
    && forall i :: 0 <= i < |s.machines| ==> PendingInv(s, s.machines[i])
  }

  ghost predicate PendingInv(s: State, m: AdminVm) {
    && (m.pendingAdmin.Some? <==> s.requests > 0 && m.id !in s.asked)
    && (m.pendingAdmin.Some? ==> m.pendingAdmin.value.id == m.id)
    && (m.pendingInfo.Some? ==> m.pendingAdmin.Some? && m.pendingInfo.value.id == m.id)
  }

  /** The lists: the administrators' has one entry for each machine, the viewers' one for each machine marked as having
      information, and for no other machine that still exists. */
  ghost predicate ListInv(s: State) {
    && DistinctEntries(s.adminList) && (forall id: nat :: Listed(s.adminList, id) <==> HasMachine(s.machines, id))
    && DistinctEntries(s.vmList)
    && forall i :: 0 <= i < |s.machines| ==> (s.machines[i].hasVmInfo <==> Listed(s.vmList, s.machines[i].id))
  }

  ghost predicate Inv(s: State) {
    RoundInv(s) && ListInv(s)
  }

  /** No machine is created or deleted during a round, none changes whether it has information after answering, and no
      machine is given the id of a deleted one that viewers still see. */
  ghost predicate Quiet(s: State, e: Event) {
    match e
    case Updated(id, answer) =>
      HasMachine(s.machines, id) && s.machines[Find(s.machines, id)].pendingAdmin.Some? ==>
        s.machines[Find(s.machines, id)].pendingInfo.Some? == answer.vmData.Some?
    case Created(id, _, _) => s.requests == 0 && !Listed(s.vmList, id)
    case Deleted(_) => s.requests == 0
    case _ => true
  }

  /** The viewers' list names only machines that exist. */
  ghost predicate NoneStale(s: State) {
    forall id: nat :: Listed(s.vmList, id) ==> HasMachine(s.machines, id)
  }

  // ---------------------------------------------------------------- lists and gathering

  lemma {:induction false} WithoutRemoves(list: seq<Info>, id: nat)
    requires DistinctEntries(list)
    ensures DistinctEntries(Without(list, id))
    ensures forall other :: Listed(Without(list, id), other) <==> Listed(list, other) && other != id
    ensures |Without(list, id)| == if Listed(list, id) then |list| - 1 else |list|
  {
    if list != [] {
      var rest := list[1..];
      WithoutRemoves(rest, id);
      ListedCons(list);
      if list[0].id != id {
        var kept := Without(list, id);
        assert kept[0] == list[0] && kept[1..] == Without(rest, id) && !Listed(rest, list[0].id);
        forall j | 0 < j < |kept|
          ensures kept[j].id != kept[0].id
        {
          assert kept[1..][j - 1].id == kept[j].id;
          assert Listed(kept[1..], kept[j].id);
        }
        ListedCons(kept);
      } else {
        assert Without(list, id) == Without(rest, id) && !Listed(rest, id);
      }
    }
  }

  lemma ListedCons(list: seq<Info>)
    requires list != []
    ensures forall id :: Listed(list, id) <==> list[0].id == id || Listed(list[1..], id)
  {
    forall id
      ensures Listed(list, id) <==> list[0].id == id || Listed(list[1..], id)
    {
      if Listed(list, id) && list[0].id != id {
        var i :| 0 <= i < |list| && list[i].id == id;
        assert list[1..][i - 1].id == id;
      }
      if Listed(list[1..], id) {
        var i :| 0 <= i < |list| - 1 && list[1..][i].id == id;
        assert list[i + 1].id == id;
      }
    }
  }

  lemma ListedAppend(list: seq<Info>, entry: Info)
    ensures forall id :: Listed(list + [entry], id) <==> Listed(list, id) || entry.id == id
  {
    var longer := list + [entry];
    assert longer[|list|] == entry;
    forall id | Listed(list, id)
      ensures Listed(longer, id)
    {
      var i :| 0 <= i < |list| && list[i].id == id;
      assert longer[i].id == id;
    }
  }

  lemma ListedReplaced(list: seq<Info>, id: nat, entry: Info)
    requires entry.id == id
    ensures forall other :: Listed(Replaced(list, id, entry), other) <==> Listed(list, other)
    ensures DistinctEntries(list) ==> DistinctEntries(Replaced(list, id, entry))
  {
    var l := Replaced(list, id, entry);
    assert forall i :: 0 <= i < |l| ==> l[i].id == list[i].id;
  }

  /** When every machine has answered, the gathered entries are theirs, one each. */
  lemma {:induction false} GatheredFromAll(machines: seq<AdminVm>)
    requires forall i :: 0 <= i < |machines| ==> machines[i].pendingAdmin.Some?
    ensures |GatheredAdmin(machines)| == |machines|
    ensures forall i :: 0 <= i < |machines| ==> GatheredAdmin(machines)[i] == machines[i].pendingAdmin.value
  {
    if machines != [] {
      GatheredFromAll(machines[1..]);
      assert GatheredAdmin(machines) == [machines[0].pendingAdmin.value] + GatheredAdmin(machines[1..]);
    }
  }

  ghost predicate OwnInfo(machines: seq<AdminVm>) {
    forall i :: 0 <= i < |machines| ==> machines[i].pendingInfo.Some? ==> machines[i].pendingInfo.value.id == machines[i].id
  }

  predicate Tells(machines: seq<AdminVm>, id: nat) {
    exists i :: 0 <= i < |machines| && machines[i].id == id && machines[i].pendingInfo.Some?
  }

  lemma TellsCons(machines: seq<AdminVm>)
    requires machines != []
    ensures forall id :: Tells(machines, id) <==>
              (machines[0].id == id && machines[0].pendingInfo.Some?) || Tells(machines[1..], id)
  {
    forall id
      ensures Tells(machines, id) <==> (machines[0].id == id && machines[0].pendingInfo.Some?) || Tells(machines[1..], id)
    {
      if i :| 0 <= i < |machines| && machines[i].id == id && machines[i].pendingInfo.Some? {
        assert i > 0 ==> machines[1..][i - 1].id == id;
      }
      if Tells(machines[1..], id) {
        var i :| 0 <= i < |machines| - 1 && machines[1..][i].id == id && machines[1..][i].pendingInfo.Some?;
        assert machines[i + 1].id == id;
      }
    }
  }

  /** The gathered information names exactly the machines that told something, each once. */
  lemma {:induction false} GatheredListsTellers(machines: seq<AdminVm>)
    requires Distinct(machines) && OwnInfo(machines)
    ensures DistinctEntries(GatheredInfo(machines))
    ensures forall id :: Listed(GatheredInfo(machines), id) <==> Tells(machines, id)
  {
    if machines != [] {
      var rest := machines[1..];
      GatheredListsTellers(rest);
      TellsCons(machines);
      if machines[0].pendingInfo.Some? {
        var gathered := GatheredInfo(machines);
        assert gathered[0] == machines[0].pendingInfo.value && gathered[1..] == GatheredInfo(rest);
        ListedCons(gathered);
        assert !Tells(rest, machines[0].id);
      } else {
        assert GatheredInfo(machines) == GatheredInfo(rest);
      }
    }
  }

  lemma {:induction false} SetPendingAbsent(machines: seq<AdminVm>, id: nat, admin: Option<Info>, info: Option<Info>)
    requires !HasMachine(machines, id)
    ensures SetPending(machines, id, admin, info) == machines
  {
    assert forall i :: 0 <= i < |machines| ==> machines[i].id != id;
  }

  /** One machine's answer changes the number of gathered entries by its own. */
  lemma {:induction false} SetPendingCounts(machines: seq<AdminVm>, id: nat, admin: Option<Info>, info: Option<Info>)
    requires Distinct(machines) && HasMachine(machines, id)
    ensures |GatheredInfo(SetPending(machines, id, admin, info))| + Bit(machines[Find(machines, id)].pendingInfo.Some?)
         == |GatheredInfo(machines)| + Bit(info.Some?)
  {
    var after, rest := SetPending(machines, id, admin, info), machines[1..];
    assert after[1..] == SetPending(rest, id, admin, info);
    if machines[0].id == id {
      assert !HasMachine(rest, id);
      SetPendingAbsent(rest, id, admin, info);
    } else {
      var i := Find(machines, id);
      assert rest[i - 1].id == id;
      SetPendingCounts(rest, id, admin, info);
    }
  }

  // ---------------------------------------------------------------- every step keeps the invariant

  lemma StartKeepsInv(s: State)
    requires Inv(s)
    ensures Inv(StartRound(s))
  {
    if s.requests == 0 {
      IdsCount(s.machines);
      assert s.asked == {};
      NothingGathered(s.machines);
    }
  }

  lemma {:induction false} IdsCount(machines: seq<AdminVm>)
    requires Distinct(machines)
    ensures |Ids(machines)| == |machines|
  {
    if machines == [] {
      assert Ids(machines) == {};
    } else {
      IdsCount(machines[1..]);
      var rest := Ids(machines[1..]);
      forall id
        ensures id in Ids(machines) <==> id in rest + {machines[0].id}
      {
        if HasMachine(machines, id) && id != machines[0].id {
          var i :| 0 <= i < |machines| && machines[i].id == id;
          assert machines[1..][i - 1].id == id;
        }
        if HasMachine(machines[1..], id) {
          var i :| 0 <= i < |machines| - 1 && machines[1..][i].id == id;
          assert machines[i + 1].id == id;
        }
      }
      assert Ids(machines) == rest + {machines[0].id} && machines[0].id !in rest;
    }
  }

  lemma {:induction false} NothingGathered(machines: seq<AdminVm>)
    requires forall i :: 0 <= i < |machines| ==> machines[i].pendingInfo.None?
    ensures GatheredInfo(machines) == []
  {
    if machines != [] {
      NothingGathered(machines[1..]);
    }
  }

  lemma SetPendingKeepsIds(machines: seq<AdminVm>, id: nat, admin: Option<Info>, info: Option<Info>)
    ensures forall other :: HasMachine(SetPending(machines, id, admin, info), other) <==> HasMachine(machines, other)
    ensures Distinct(machines) ==> Distinct(SetPending(machines, id, admin, info))
  {
    var ms := SetPending(machines, id, admin, info);
    assert forall i :: 0 <= i < |ms| ==> ms[i].id == machines[i].id;
  }

  /** What a machine tells is kept for the round, and the machine is heard. */
  lemma ToldKeepsAsked(s: State, end: State, id: nat, a: Answer)
    requires AskedInv(s) && s.requests > 0 && HasMachine(s.machines, id)
    requires end.machines == SetPending(s.machines, id, Some(AdminInfo(id, a)), VmInfo(id, a))
    requires end.asked == s.asked - {id} && end.requests == |end.asked| > 0 && end.gone == 0
    ensures AskedInv(end)
  {
    SetPendingKeepsIds(s.machines, id, Some(AdminInfo(id, a)), VmInfo(id, a));
    forall i | 0 <= i < |s.machines|
      ensures PendingInv(end, end.machines[i])
    {
      assert PendingInv(s, s.machines[i]);
    }
  }

  /** The marks of the machines and the lists do not matter to the round. */
  lemma MarksDoNotMatter(s: State, end: State)
    requires AskedInv(s) && end.requests == s.requests && end.asked == s.asked && end.gone == s.gone && |end.machines| == |s.machines|
    requires forall i :: 0 <= i < |s.machines| ==>
               end.machines[i] == s.machines[i] || end.machines[i] == s.machines[i].(hasVmInfo := !s.machines[i].hasVmInfo)
    ensures AskedInv(end) && GatheredInfo(end.machines) == GatheredInfo(s.machines)
  {
    SameGathered(s.machines, end.machines);
    forall i | 0 <= i < |s.machines|
      ensures PendingInv(end, end.machines[i])
    {
      assert PendingInv(s, s.machines[i]);
    }
    forall id | HasMachine(s.machines, id)
      ensures HasMachine(end.machines, id)
    {
      var i :| 0 <= i < |s.machines| && s.machines[i].id == id;
      assert end.machines[i].id == id;
    }
  }

  lemma AnswerKeepsRound(s: State, id: nat, a: Answer)
    requires RoundInv(s) && s.requests > 1 && id in s.asked
    ensures RoundInv(Reply(s, id, a))
  {
    assert PendingInv(s, s.machines[Find(s.machines, id)]);
    LastOneAsked(s, id);
    SetPendingCounts(s.machines, id, Some(AdminInfo(id, a)), VmInfo(id, a));
    ToldKeepsAsked(s, Reply(s, id, a), id, a);
  }

  lemma LateUpdateKeepsRound(s: State, id: nat, a: Answer)
    requires RoundInv(s) && HasMachine(s.machines, id) && s.machines[Find(s.machines, id)].pendingAdmin.Some?
    requires s.machines[Find(s.machines, id)].pendingInfo.Some? == a.vmData.Some?
    ensures RoundInv(Update(s, id, a))
  {
    assert PendingInv(s, s.machines[Find(s.machines, id)]);
    assert s.asked - {id} == s.asked;
    var end := s.(machines := Told(s, id, a));
    HeardUpdateIsTold(s, id, a);
    SetPendingCounts(s.machines, id, Some(AdminInfo(id, a)), VmInfo(id, a));
    ToldKeepsAsked(s, end, id, a);
  }

  lemma HeardUpdateIsTold(s: State, id: nat, a: Answer)
    requires HasMachine(s.machines, id) && s.machines[Find(s.machines, id)].pendingAdmin.Some?
    ensures Update(s, id, a) == s.(machines := Told(s, id, a))
  {
  }

  lemma DirectUpdateKeepsRound(s: State, id: nat, a: Answer)
    requires RoundInv(s) && HasMachine(s.machines, id) && s.machines[Find(s.machines, id)].pendingAdmin.None?
    ensures RoundInv(Update(s, id, a))
  {
    MarkedMachine(s.machines, id, VmInfo(id, a).Some?);
    MarksDoNotMatter(s, Update(s, id, a));
  }

  /** An answer that is not the last only adds to what has been gathered. */
  lemma EarlyReplyKeepsInv(s: State, id: nat, a: Answer)
    requires Inv(s) && s.requests > 1 && id in s.asked
    ensures Inv(Reply(s, id, a))
  {
    AnswerKeepsRound(s, id, a);
    SetPendingKeepsIds(s.machines, id, Some(AdminInfo(id, a)), VmInfo(id, a));
    SetPendingKeepsMarks(s.machines, id, Some(AdminInfo(id, a)), VmInfo(id, a));
  }

  lemma SetPendingKeepsMarks(machines: seq<AdminVm>, id: nat, admin: Option<Info>, info: Option<Info>)
    ensures forall i :: 0 <= i < |machines| ==>
              SetPending(machines, id, admin, info)[i].hasVmInfo == machines[i].hasVmInfo &&
              SetPending(machines, id, admin, info)[i].id == machines[i].id
  {
  }

  /** The round ends with the answer of the last machine asked. The lists are then as long as they were reserved, every
      machine has one entry for administrators, and those with information have one for viewers. */
  lemma RoundEndsAtLastReply(s: State, id: nat, a: Answer)
    requires Inv(s) && s.requests > 0 && id in s.asked
    ensures var end, machines := Reply(s, id, a), SetPending(s.machines, id, Some(AdminInfo(id, a)), VmInfo(id, a));
            && (end.requests == 0 <==> s.asked == {id})
            && (end.requests == 0 ==>
                 && |end.adminList| == |machines|
                 && (forall i :: 0 <= i < |machines| ==>
                      && machines[i].pendingAdmin == Some(end.adminList[i]) && end.adminList[i].id == machines[i].id)
                 && end.vmList == GatheredInfo(machines)
                 && (forall other: nat :: Listed(end.vmList, other) <==> Tells(machines, other)))
  {
    var machines := SetPending(s.machines, id, Some(AdminInfo(id, a)), VmInfo(id, a));
    LastOneAsked(s, id);
    if s.requests == 1 {
      SetPendingKeepsIds(s.machines, id, Some(AdminInfo(id, a)), VmInfo(id, a));
      SetPendingCounts(s.machines, id, Some(AdminInfo(id, a)), VmInfo(id, a));
      assert PendingInv(s, s.machines[Find(s.machines, id)]);
      forall i | 0 <= i < |machines|
        ensures machines[i].pendingAdmin.Some? && machines[i].pendingAdmin.value.id == machines[i].id
        ensures machines[i].pendingInfo.Some? ==> machines[i].pendingInfo.value.id == machines[i].id
      {
        assert PendingInv(s, s.machines[i]);
      }
      GatheredFromAll(machines);
      GatheredListsTellers(machines);
      assert Fill(GatheredInfo(machines), |GatheredInfo(machines)|) == GatheredInfo(machines);
    }
  }

  lemma LastOneAsked(s: State, id: nat)
    requires s.requests == |s.asked| && id in s.asked
    ensures s.requests == 1 <==> s.asked == {id}
    ensures |s.asked - {id}| == s.requests - 1
  {
    if s.requests == 1 {
      assert |s.asked - {id}| == 0;
    }
  }

  lemma LastReplyKeepsInv(s: State, id: nat, a: Answer)
    requires Inv(s) && s.requests == 1 && id in s.asked
    ensures Inv(Reply(s, id, a)) && NoneStale(Reply(s, id, a))
  {
    var end, machines := Reply(s, id, a), SetPending(s.machines, id, Some(AdminInfo(id, a)), VmInfo(id, a));
    LastOneAsked(s, id);
    RoundEndsAtLastReply(s, id, a);
    SetPendingKeepsIds(s.machines, id, Some(AdminInfo(id, a)), VmInfo(id, a));
    assert forall i :: 0 <= i < |machines| ==> end.machines[i].id == machines[i].id;
    forall i | 0 <= i < |machines|
      ensures PendingInv(s, s.machines[i])
    {
    }
    GatheredListsTellers(machines);
    forall other
      ensures HasMachine(end.machines, other) <==> HasMachine(machines, other)
      ensures Listed(end.adminList, other) <==> HasMachine(end.machines, other)
    {
      if i :| 0 <= i < |machines| && machines[i].id == other {
        assert end.adminList[i].id == other && end.machines[i].id == other;
      }
    }
    TellersAreMarked(machines, end.machines);
  }

  lemma TellersAreMarked(machines: seq<AdminVm>, freed: seq<AdminVm>)
    requires Distinct(machines) && freed == Freed(machines)
    ensures forall i :: 0 <= i < |freed| ==> (freed[i].hasVmInfo <==> Tells(machines, freed[i].id))
    ensures forall id :: Tells(machines, id) ==> HasMachine(freed, id)
  {
    forall id | Tells(machines, id)
      ensures HasMachine(freed, id)
    {
      var i :| 0 <= i < |machines| && machines[i].id == id && machines[i].pendingInfo.Some?;
      assert freed[i].id == id;
    }
  }

  /** An update of a machine that has answered replaces its answer and changes no list. */
  lemma LateUpdateKeepsInv(s: State, id: nat, a: Answer)
    requires Inv(s) && HasMachine(s.machines, id) && Quiet(s, Updated(id, a))
    requires s.machines[Find(s.machines, id)].pendingAdmin.Some?
    ensures Inv(Update(s, id, a)) && (NoneStale(s) ==> NoneStale(Update(s, id, a)))
  {
    LateUpdateKeepsRound(s, id, a);
    SetPendingKeepsIds(s.machines, id, Some(AdminInfo(id, a)), VmInfo(id, a));
    SetPendingKeepsMarks(s.machines, id, Some(AdminInfo(id, a)), VmInfo(id, a));
  }

  lemma MarkKeeps(machines: seq<AdminVm>, id: nat, has: bool)
    ensures forall other :: HasMachine(Mark(machines, id, has), other) <==> HasMachine(machines, other)
    ensures Distinct(machines) ==> Distinct(Mark(machines, id, has))
    ensures GatheredInfo(Mark(machines, id, has)) == GatheredInfo(machines)
  {
    var ms := Mark(machines, id, has);
    assert forall i :: 0 <= i < |ms| ==> ms[i].id == machines[i].id;
    SameGathered(machines, ms);
  }

  lemma {:induction false} SameGathered(machines: seq<AdminVm>, others: seq<AdminVm>)
    requires |machines| == |others|
    requires forall i :: 0 <= i < |machines| ==> machines[i].pendingInfo == others[i].pendingInfo
    ensures GatheredInfo(machines) == GatheredInfo(others)
  {
    if machines != [] {
      SameGathered(machines[1..], others[1..]);
    }
  }

  /** Any other update is applied to the lists at once. */
  lemma DirectUpdateKeepsInv(s: State, id: nat, a: Answer)
    requires Inv(s) && HasMachine(s.machines, id) && s.machines[Find(s.machines, id)].pendingAdmin.None?
    ensures Inv(Update(s, id, a)) && (NoneStale(s) ==> NoneStale(Update(s, id, a)))
  {
    DirectUpdateKeepsRound(s, id, a);
    DirectUpdateKeepsLists(s, id, a);
  }

  lemma DirectUpdateKeepsLists(s: State, id: nat, a: Answer)
    requires Distinct(s.machines) && ListInv(s) && HasMachine(s.machines, id)
    requires s.machines[Find(s.machines, id)].pendingAdmin.None?
    ensures ListInv(Update(s, id, a)) && (NoneStale(s) ==> NoneStale(Update(s, id, a)))
  {
    var info := VmInfo(id, a);
    ListedReplaced(s.adminList, id, AdminInfo(id, a));
    WithoutRemoves(s.vmList, id);
    if info.Some? {
      ListedReplaced(s.vmList, id, info.value);
      ListedAppend(s.vmList, info.value);
    }
    MarkKeeps(s.machines, id, info.Some?);
    MarkedMachine(s.machines, id, info.Some?);
  }

  lemma MarkedMachine(machines: seq<AdminVm>, id: nat, has: bool)
    requires Distinct(machines) && HasMachine(machines, id)
    ensures var ms := Mark(machines, id, has);
            && ms[Find(machines, id)].hasVmInfo == has
            && forall i :: 0 <= i < |ms| ==> (i == Find(machines, id) <==> ms[i].id == id)
  {
  }

  lemma CreateKeepsInv(s: State, id: nat, data: nat, at: nat)
    requires Inv(s) && !HasMachine(s.machines, id) && at <= |s.machines| && Quiet(s, Created(id, data, at))
    ensures Inv(Create(s, id, data, at)) && (NoneStale(s) ==> NoneStale(Create(s, id, data, at)))
  {
    var end := Create(s, id, data, at);
    assert end.machines[at].id == id;
    ListedAppend(s.adminList, Info(id, data));
    forall other
      ensures HasMachine(end.machines, other) <==> HasMachine(s.machines, other) || other == id
    {
      if i :| 0 <= i < |s.machines| && s.machines[i].id == other {
        assert end.machines[if i < at then i else i + 1].id == other;
      }
    }
    assert s.asked == {};
    forall i | 0 <= i < |end.machines|
      ensures PendingInv(end, end.machines[i])
      ensures end.machines[i].hasVmInfo <==> Listed(end.vmList, end.machines[i].id)
    {
      if i != at {
        var j := if i < at then i else i - 1;
        assert PendingInv(s, s.machines[j]) && end.machines[i] == s.machines[j];
      }
    }
  }

  lemma RemovalKeepsMachines(machines: seq<AdminVm>, id: nat)
    requires Distinct(machines) && HasMachine(machines, id)
    ensures var rest := Erased(machines, id);
            && Distinct(rest)
            && forall other :: HasMachine(rest, other) <==> HasMachine(machines, other) && other != id
  {
    var at, rest := Find(machines, id), Erased(machines, id);
    forall other | HasMachine(machines, other) && other != id
      ensures HasMachine(rest, other)
    {
      var i :| 0 <= i < |machines| && machines[i].id == other;
      assert rest[if i < at then i else i - 1].id == other;
    }
  }

  lemma DeleteKeepsInv(s: State, id: nat)
    requires Inv(s) && HasMachine(s.machines, id) && s.requests == 0
    ensures Inv(Delete(s, id))
  {
    var end, at := Delete(s, id), Find(s.machines, id);
    WithoutRemoves(s.adminList, id);
    forall other
      ensures HasMachine(end.machines, other) <==> HasMachine(s.machines, other) && other != id
    {
      if i :| 0 <= i < |s.machines| && s.machines[i].id == other && other != id {
        assert end.machines[if i < at then i else i - 1].id == other;
      }
    }
    assert s.asked == {};
    forall i | 0 <= i < |end.machines|
      ensures PendingInv(end, end.machines[i])
      ensures end.machines[i].hasVmInfo <==> Listed(end.vmList, end.machines[i].id)
    {
      var j := if i < at then i else i + 1;
      assert PendingInv(s, s.machines[j]) && end.machines[i] == s.machines[j];
    }
  }

  lemma StepKeepsInv(s: State, e: Event)
    requires Inv(s) && Quiet(s, e)
    ensures Inv(Step(s, e))
    ensures NoneStale(s) && !e.Deleted? ==> NoneStale(Step(s, e))
  {
    if Enabled(s, e) {
      match e
      case Round => StartKeepsInv(s);
      case Answered(id, answer) =>
        if s.requests == 1 {
          LastReplyKeepsInv(s, id, answer);
        } else if s.requests > 1 {
          EarlyReplyKeepsInv(s, id, answer);
          SetPendingKeepsIds(s.machines, id, Some(AdminInfo(id, answer)), VmInfo(id, answer));
        }
      case Updated(id, answer) =>
        if s.machines[Find(s.machines, id)].pendingAdmin.Some? {
          LateUpdateKeepsInv(s, id, answer);
        } else {
          DirectUpdateKeepsInv(s, id, answer);
        }
      case Created(id, data, at) => CreateKeepsInv(s, id, data, at);
      case Deleted(id) => DeleteKeepsInv(s, id);
    }
  }

  ghost predicate QuietRun(s: State, events: seq<Event>)
    decreases |events|
  {
    events == [] || (Quiet(s, events[0]) && QuietRun(Step(s, events[0]), events[1..]))
  }

  /** Over any quiet run, whatever the order of the answers, both lists stay exact and every round's counters do. */
  lemma {:induction false} RunKeepsInv(s: State, events: seq<Event>)
    requires Inv(s) && QuietRun(s, events)
    ensures Inv(Run(s, events))
    ensures NoneStale(s) && (forall e :: e in events ==> !e.Deleted?) ==> NoneStale(Run(s, events))
    decreases |events|
  {
    if events != [] {
      assert events[0] in events && forall e :: e in events[1..] ==> e in events;
      StepKeepsInv(s, events[0]);
      RunKeepsInv(Step(s, events[0]), events[1..]);
    }
  }

  function Answers(s: State, events: seq<Event>): nat
    decreases |events|
  {
    if events == [] then 0 else Bit(events[0].Answered? && Enabled(s, events[0])) + Answers(Step(s, events[0]), events[1..])
  }

  /** A round that has begun ends after exactly as many answers as were still due, and not before. */
  lemma {:induction false} RoundTakesEveryAnswer(s: State, events: seq<Event>)
    requires Inv(s) && QuietRun(s, events) && !(Round in events) && Answers(s, events) <= s.requests
    ensures Run(s, events).requests == s.requests - Answers(s, events)
    decreases |events|
  {
    if events != [] {
      assert events[0] in events && forall e :: e in events[1..] ==> e in events;
      StepKeepsInv(s, events[0]);
      assert Enabled(s, events[0]) && events[0].Answered? ==> s.requests > 0;
      RoundTakesEveryAnswer(Step(s, events[0]), events[1..]);
    }
  }

  lemma {:induction false} GatheredAtMost(machines: seq<AdminVm>)
    ensures |GatheredAdmin(machines)| <= |machines|
    ensures (exists i :: 0 <= i < |machines| && machines[i].pendingAdmin.None?) ==> |GatheredAdmin(machines)| < |machines|
  {
    if machines != [] {
      GatheredAtMost(machines[1..]);
    }
  }
}

/** What the two lists say: every entry is what its machine told last, whether in answer to a round or by an update of its
    own. */
module GatherContents {
  import opened Options
  import opened VmGather

  /** The list says of `id` what `data` says: that one thing, or nothing. */
  ghost predicate Shows(list: seq<Info>, id: nat, data: Option<nat>) {
    && (forall entry :: entry in list && entry.id == id ==> data == Some(entry.data))
    && (data.Some? ==> Info(id, data.value) in list)
  }

  /** Entries of other machines are the same in both lists. */
  ghost predicate SameOthers(before: seq<Info>, after: seq<Info>, id: nat) {
    forall entry: Info :: entry.id != id ==> (entry in after <==> entry in before)
  }

  lemma SameOthersShow(before: seq<Info>, after: seq<Info>, id: nat, other: nat, data: Option<nat>)
    requires SameOthers(before, after, id) && other != id
    ensures Shows(after, other, data) <==> Shows(before, other, data)
  {
  }

  // ---------------------------------------------------------------- the lists

  lemma ReplacedShows(list: seq<Info>, id: nat, data: nat)
    requires Listed(list, id)
    ensures Shows(Replaced(list, id, Info(id, data)), id, Some(data))
    ensures SameOthers(list, Replaced(list, id, Info(id, data)), id)
  {
    var l := Replaced(list, id, Info(id, data));
    var k :| 0 <= k < |list| && list[k].id == id;
    assert l[k] == Info(id, data);
    forall entry: Info | entry.id != id
      ensures entry in l <==> entry in list
    {
      if j :| 0 <= j < |list| && list[j] == entry {
        assert l[j] == entry;
      }
    }
  }

  lemma {:induction false} WithoutShows(list: seq<Info>, id: nat)
    ensures Shows(Without(list, id), id, None)
    ensures SameOthers(list, Without(list, id), id)
  {
    if list != [] {
      WithoutShows(list[1..], id);
      assert list == [list[0]] + list[1..];
    }
  }

  lemma AppendedShows(list: seq<Info>, entry: Info)
    requires !Listed(list, entry.id)
    ensures Shows(list + [entry], entry.id, Some(entry.data))
    ensures SameOthers(list, list + [entry], entry.id)
  {
    forall e | e in list + [entry] && e.id == entry.id
      ensures e == entry
    {
      assert e in list ==> Listed(list, entry.id);
    }
    assert (list + [entry])[|list|] == entry;
  }

  lemma {:induction false} GatheredInfoHolds(machines: seq<AdminVm>)
    ensures forall info: Info :: info in GatheredInfo(machines) <==>
              exists i :: 0 <= i < |machines| && machines[i].pendingInfo == Some(info)
  {
    if machines != [] {
      var rest := machines[1..];
      GatheredInfoHolds(rest);
      forall info: Info
        ensures info in GatheredInfo(machines) <==>
                exists i :: 0 <= i < |machines| && machines[i].pendingInfo == Some(info)
      {
        if i :| 0 <= i < |machines| && machines[i].pendingInfo == Some(info) {
          assert i > 0 ==> rest[i - 1].pendingInfo == Some(info);
        }
        if i :| 0 <= i < |rest| && rest[i].pendingInfo == Some(info) {
          assert machines[i + 1].pendingInfo == Some(info);
        }
      }
    }
  }

  // ---------------------------------------------------------------- one update

  lemma UnlistedShowsNothing(list: seq<Info>, id: nat)
    requires !Listed(list, id)
    ensures Shows(list, id, None)
  {
    forall entry | entry in list
      ensures entry.id != id
    {
      var i :| 0 <= i < |list| && list[i] == entry;
    }
  }

  /** An update outside a round, or of a machine still asked, is shown at once: administrators see what the machine told
      them, viewers see it while the machine is active and nothing of it otherwise, and no other entry changes. */
  lemma DirectUpdateIsShown(s: State, id: nat, a: Answer)
    requires Inv(s) && HasMachine(s.machines, id) && s.machines[Find(s.machines, id)].pendingAdmin.None?
    ensures var after := Update(s, id, a);
            && Shows(after.adminList, id, Some(a.adminData)) && Shows(after.vmList, id, a.vmData)
            && SameOthers(s.adminList, after.adminList, id) && SameOthers(s.vmList, after.vmList, id)
  {
    var m := s.machines[Find(s.machines, id)];
    ReplacedShows(s.adminList, id, a.adminData);
    WithoutShows(s.vmList, id);
    assert m.hasVmInfo <==> Listed(s.vmList, id);
    if a.vmData.Some? {
      if m.hasVmInfo {
        ReplacedShows(s.vmList, id, a.vmData.value);
      } else {
        AppendedShows(s.vmList, Info(id, a.vmData.value));
      }
    } else if !m.hasVmInfo {
      UnlistedShowsNothing(s.vmList, id);
    }
  }

  /** A round that is asked for while none is under way asks every machine once; otherwise nothing happens. */
  lemma RoundAsksEveryMachine(s: State, id: nat)
    requires Inv(s)
    ensures s.requests == 0 ==>
              var after := Step(s, Round);
              && (id in after.asked <==> HasMachine(s.machines, id))
              && after.requests == |after.asked| == |s.machines| && after.updates == 0
              && after.machines == s.machines && after.adminList == s.adminList && after.vmList == s.vmList
    ensures s.requests > 0 ==> Step(s, Round) == s
  {
    IdsCount(s.machines);
  }

  // ---------------------------------------------------------------- what the machines told last

  /** What is known to have been told by each machine, after one more event. */
  ghost function Heard(told: map<nat, Answer>, s: State, e: Event): map<nat, Answer> {
    if !Enabled(s, e) then told
    else match e
      case Answered(id, answer) => told[id := answer]
      case Updated(id, answer) => told[id := answer]
      case Created(id, data, _) => told[id := Answer(data, None)]
      case Deleted(id) => told - {id}
      case _ => told
  }

  ghost function HeardAll(told: map<nat, Answer>, s: State, events: seq<Event>): map<nat, Answer>
    decreases |events|
  {
    if events == [] then told else HeardAll(Heard(told, s, events[0]), Step(s, events[0]), events[1..])
  }

  /** What the machine told last is kept for the end of the round if it has answered, and shown in the lists otherwise. */
  ghost predicate KeptOrShown(s: State, m: AdminVm, told: map<nat, Answer>) {
    && m.id in told
    && if m.pendingAdmin.Some? then
         m.pendingAdmin == Some(AdminInfo(m.id, told[m.id])) && m.pendingInfo == VmInfo(m.id, told[m.id])
       else Shows(s.adminList, m.id, Some(told[m.id].adminData)) && Shows(s.vmList, m.id, told[m.id].vmData)
  }

  ghost predicate Exact(s: State, told: map<nat, Answer>) {
    forall i :: 0 <= i < |s.machines| ==> KeptOrShown(s, s.machines[i], told)
  }

  lemma PendingIsKept(s: State, after: State, id: nat, a: Answer, told: map<nat, Answer>)
    requires Inv(s) && Exact(s, told) && after.adminList == s.adminList && after.vmList == s.vmList
    requires after.machines == Told(s, id, a)
    ensures Exact(after, told[id := a])
  {
    forall i | 0 <= i < |after.machines|
      ensures KeptOrShown(after, after.machines[i], told[id := a])
    {
      assert KeptOrShown(s, s.machines[i], told);
    }
  }

  lemma OthersStayShown(s: State, after: State, id: nat, a: Answer, told: map<nat, Answer>, m: AdminVm, marked: AdminVm)
    requires KeptOrShown(s, m, told) && m.id != id && marked == m.(hasVmInfo := marked.hasVmInfo)
    requires SameOthers(s.adminList, after.adminList, id) && SameOthers(s.vmList, after.vmList, id)
    ensures KeptOrShown(after, marked, told[id := a])
  {
    SameOthersShow(s.adminList, after.adminList, id, m.id, Some(told[m.id].adminData));
    SameOthersShow(s.vmList, after.vmList, id, m.id, told[m.id].vmData);
  }

  lemma UpdateMarks(s: State, id: nat, a: Answer, i: nat)
    requires HasMachine(s.machines, id) && i < |s.machines|
    requires s.machines[Find(s.machines, id)].pendingAdmin.None?
    ensures |Update(s, id, a).machines| == |s.machines|
    ensures Update(s, id, a).machines[i] == s.machines[i].(hasVmInfo := Update(s, id, a).machines[i].hasVmInfo)
  {
  }

  lemma DirectUpdateKeepsExact(s: State, id: nat, a: Answer, told: map<nat, Answer>)
    requires Inv(s) && Exact(s, told) && HasMachine(s.machines, id)
    requires s.machines[Find(s.machines, id)].pendingAdmin.None?
    ensures Exact(Update(s, id, a), told[id := a])
  {
    var after := Update(s, id, a);
    UpdateMarks(s, id, a, 0);
    DirectUpdateIsShown(s, id, a);
    forall i | 0 <= i < |s.machines|
      ensures KeptOrShown(after, after.machines[i], told[id := a])
    {
      UpdateMarks(s, id, a, i);
      if s.machines[i].id != id {
        OthersStayShown(s, after, id, a, told, s.machines[i], after.machines[i]);
      } else {
        assert i == Find(s.machines, id);
      }
    }
  }

  lemma UpdateKeepsExact(s: State, id: nat, a: Answer, told: map<nat, Answer>)
    requires Inv(s) && Exact(s, told) && HasMachine(s.machines, id)
    ensures Exact(Update(s, id, a), told[id := a])
  {
    if s.machines[Find(s.machines, id)].pendingAdmin.Some? {
      HeardUpdateIsTold(s, id, a);
      PendingIsKept(s, Update(s, id, a), id, a, told);
    } else {
      DirectUpdateKeepsExact(s, id, a, told);
    }
  }

  /** Lists rebuilt from what distinct machines hold show of each what it holds. */
  lemma {:induction false} RebuiltListsShow(machines: seq<AdminVm>, adminList: seq<Info>, i: nat, a: Answer)
    requires Distinct(machines) && OwnInfo(machines) && |adminList| == |machines| && i < |machines|
    requires forall j :: 0 <= j < |machines| ==> adminList[j].id == machines[j].id
    requires adminList[i] == AdminInfo(machines[i].id, a) && machines[i].pendingInfo == VmInfo(machines[i].id, a)
    ensures Shows(adminList, machines[i].id, Some(a.adminData))
    ensures Shows(GatheredInfo(machines), machines[i].id, a.vmData)
  {
    var m := machines[i];
    forall entry | entry in adminList && entry.id == m.id
      ensures entry == adminList[i]
    {
      var j :| 0 <= j < |adminList| && adminList[j] == entry;
      assert machines[j].id == m.id;
    }
    GatheredInfoHolds(machines);
    forall entry | entry in GatheredInfo(machines) && entry.id == m.id
      ensures m.pendingInfo == Some(entry)
    {
      var j :| 0 <= j < |machines| && machines[j].pendingInfo == Some(entry);
      assert machines[j].id == m.id;
    }
  }

  /** With the last answer every machine holds what it told last. */
  lemma AllHoldWhatTheyTold(s: State, id: nat, a: Answer, told: map<nat, Answer>)
    requires Inv(s) && s.requests == 1 && s.asked == {id} && Exact(s, told)
    ensures var machines, now := Told(s, id, a), told[id := a];
            forall i :: 0 <= i < |machines| ==>
              && machines[i].id in now && machines[i].pendingAdmin == Some(AdminInfo(machines[i].id, now[machines[i].id]))
              && machines[i].pendingInfo == VmInfo(machines[i].id, now[machines[i].id])
  {
    forall i | 0 <= i < |s.machines|
      ensures KeptOrShown(s, s.machines[i], told) && PendingInv(s, s.machines[i])
    {
    }
  }

  lemma LastReplyKeepsExact(s: State, id: nat, a: Answer, told: map<nat, Answer>)
    requires Inv(s) && s.requests == 1 && id in s.asked && Exact(s, told)
    ensures Exact(Reply(s, id, a), told[id := a])
  {
    var end, machines, now := Reply(s, id, a), Told(s, id, a), told[id := a];
    LastOneAsked(s, id);
    RoundEndsAtLastReply(s, id, a);
    AllHoldWhatTheyTold(s, id, a, told);
    SetPendingKeepsIds(s.machines, id, Some(AdminInfo(id, a)), VmInfo(id, a));
    forall i | 0 <= i < |machines|
      ensures KeptOrShown(end, end.machines[i], now)
    {
      RebuiltListsShow(machines, end.adminList, i, now[machines[i].id]);
    }
  }

  lemma CreateKeepsExact(s: State, id: nat, data: nat, at: nat, told: map<nat, Answer>)
    requires Inv(s) && Exact(s, told) && !HasMachine(s.machines, id) && at <= |s.machines|
    requires Quiet(s, Created(id, data, at))
    ensures Exact(Create(s, id, data, at), told[id := Answer(data, None)])
  {
    var end := Create(s, id, data, at);
    AppendedShows(s.adminList, Info(id, data));
    UnlistedShowsNothing(s.vmList, id);
    forall i | 0 <= i < |end.machines|
      ensures KeptOrShown(end, end.machines[i], told[id := Answer(data, None)])
    {
      if i != at {
        var m := s.machines[if i < at then i else i - 1];
        assert end.machines[i] == m && KeptOrShown(s, m, told) && m.id != id;
        SameOthersShow(s.adminList, end.adminList, id, m.id, Some(told[m.id].adminData));
      }
    }
  }

  lemma DeleteKeepsExact(s: State, id: nat, told: map<nat, Answer>)
    requires Inv(s) && Exact(s, told) && HasMachine(s.machines, id)
    ensures Exact(Delete(s, id), told - {id})
  {
    var end := Delete(s, id);
    WithoutShows(s.adminList, id);
    forall i | 0 <= i < |end.machines|
      ensures KeptOrShown(end, end.machines[i], told - {id})
    {
      var j := if i < Find(s.machines, id) then i else i + 1;
      var m := s.machines[j];
      assert end.machines[i] == m && KeptOrShown(s, m, told);
      assert m.id != s.machines[Find(s.machines, id)].id;
      SameOthersShow(s.adminList, end.adminList, id, m.id, Some(told[m.id].adminData));
    }
  }

  lemma StepKeepsExact(s: State, e: Event, told: map<nat, Answer>)
    requires Inv(s) && Quiet(s, e) && Exact(s, told)
    ensures Exact(Step(s, e), Heard(told, s, e))
  {
    if Enabled(s, e) {
      match e
      case Round =>
        forall i | 0 <= i < |s.machines|
          ensures KeptOrShown(StartRound(s), s.machines[i], told)
        {
          assert KeptOrShown(s, s.machines[i], told);
        }
      case Answered(id, answer) =>
        if s.requests == 1 {
          LastReplyKeepsExact(s, id, answer, told);
        } else {
          assert s.requests > 1;
          PendingIsKept(s, Reply(s, id, answer), id, answer, told);
        }
      case Updated(id, answer) => UpdateKeepsExact(s, id, answer, told);
      case Created(id, data, at) => CreateKeepsExact(s, id, data, at, told);
      case Deleted(id) => DeleteKeepsExact(s, id, told);
    }
  }

  /** In every quiet run, what each machine told last is kept for the end of the round or shown in the lists. */
  lemma {:induction false} RunKeepsExact(s: State, events: seq<Event>, told: map<nat, Answer>)
    requires Inv(s) && QuietRun(s, events) && Exact(s, told)
    ensures Exact(Run(s, events), HeardAll(told, s, events))
    decreases |events|
  {
    if events != [] {
      StepKeepsInv(s, events[0]);
      StepKeepsExact(s, events[0], told);
      RunKeepsExact(Step(s, events[0]), events[1..], Heard(told, s, events[0]));
    }
  }

  /** So after any quiet run, whenever no round is under way, administrators see of every machine what it told last, and
      viewers see it of the machines that were active then and see nothing of the others. */
  lemma ListsSayWhatWasToldLast(s: State, events: seq<Event>, told: map<nat, Answer>, id: nat)
    requires Inv(s) && QuietRun(s, events) && Exact(s, told)
    requires Run(s, events).requests == 0 && HasMachine(Run(s, events).machines, id)
    ensures var end, last := Run(s, events), HeardAll(told, s, events);
            id in last && Shows(end.adminList, id, Some(last[id].adminData)) && Shows(end.vmList, id, last[id].vmData)
  {
    var end := Run(s, events);
    RunKeepsInv(s, events);
    RunKeepsExact(s, events, told);
    var m := end.machines[Find(end.machines, id)];
    assert PendingInv(end, m) && KeptOrShown(end, m, HeardAll(told, s, events));
  }
}

/** The server's list of machines as it runs: resizable lists that are copied on every change, and the handlers of the
    gather round. Every handler's effect is the step of the model in VmGather. */
module VmLists {
  import opened Counting
  import opened Options
  import opened VmGather

  /** A list in a message. A message cannot grow, so that every change builds another one. */
  class ResizableList {
    var list: seq<Info>

    constructor ()
      ensures list == []
    {
      list := [];
    }

    method Add(entry: Info)
      modifies this
      ensures list == old(list) + [entry]
    {
      var smaller, larger := list, seq(|list| + 1, _ => BLANK);
      for i := 0 to |smaller|
        invariant |larger| == |smaller| + 1 && larger[..i] == smaller[..i]
      {
        larger := larger[i := smaller[i]];
      }
      list := larger[|larger| - 1 := entry];
    }

    /** The new list has room for all but one entry: exactly one must match. */
    method RemoveFirst(id: nat)
      requires |Without(list, id)| + 1 == |list|
      modifies this
      ensures list == Without(old(list), id)
    {
      var larger, smaller := list, seq(|list| - 1, _ => BLANK);
      var j := 0;
      WithoutPrefix(larger, 0, id);
      for i := 0 to |larger|
        invariant |smaller| == |larger| - 1 && 0 <= j <= |smaller|
        invariant smaller[..j] + Without(larger[i..], id) == Without(larger, id)
      {
        WithoutPrefix(larger, i, id);
        if larger[i].id != id {
          KeepOne(smaller, j, larger[i], Without(larger[i + 1..], id), Without(larger, id));
          smaller := smaller[j := larger[i]];
          j := j + 1;
        }
      }
      assert j == |smaller|;    // the assertion in the program
      list := smaller;
    }

    method UpdateElement(id: nat, entry: Info)
      modifies this
      ensures list == Replaced(old(list), id, entry)
    {
      var current, updated := list, seq(|list|, _ => BLANK);
      for i := 0 to |current|
        invariant |updated| == |current|
        invariant updated[..i] == Replaced(current, id, entry)[..i]
      {
        updated := updated[i := if current[i].id == id then entry else current[i]];
      }
      list := updated;
    }

    method Reset(capacity: nat)
      modifies this
      ensures list == Fill([], capacity)
    {
      list := seq(capacity, _ => BLANK);
    }

    method Put(index: nat, entry: Info)
      requires index < |list|
      modifies this
      ensures list == old(list)[index := entry]
    {
      list := list[index := entry];
    }
  }

  /** There is room for the next entry that is kept. */
  lemma KeepOne(kept: seq<Info>, j: nat, next: Info, rest: seq<Info>, all: seq<Info>)
    requires j <= |kept| == |all| && kept[..j] + ([next] + rest) == all
    ensures j < |kept| && kept[j := next][..j + 1] + rest == all
  {
    assert |kept[..j] + ([next] + rest)| == j + 1 + |rest|;
    assert kept[j := next][..j + 1] == kept[..j] + [next];
    assert kept[..j] + [next] + rest == kept[..j] + ([next] + rest);
  }

  lemma WithoutPrefix(list: seq<Info>, i: nat, id: nat)
    requires i <= |list|
    ensures i == 0 ==> list[i..] == list
    ensures i < |list| ==> Without(list[i..], id) == (if list[i].id == id then [] else [list[i]]) + Without(list[i + 1..], id)
    ensures i == |list| ==> Without(list[i..], id) == []
  {
    if i < |list| {
      assert list[i..][1..] == list[i + 1..];
    }
  }

  lemma FillOneMore(entries: seq<Info>, size: nat, next: Info)
    requires |entries| < size
    ensures Fill(entries, size)[|entries| := next] == Fill(entries + [next], size)
  {
  }

  /** The first entries gathered, one machine after the other. */
  lemma {:induction false} GatherOneMore(machines: seq<AdminVm>, i: nat)
    requires i < |machines|
    ensures GatheredAdmin(machines[..i + 1]) == GatheredAdmin(machines[..i]) + Entry(machines[i].pendingAdmin)
    ensures GatheredInfo(machines[..i + 1]) == GatheredInfo(machines[..i]) + Entry(machines[i].pendingInfo)
  {
    if i > 0 {
      GatherOneMore(machines[1..], i - 1);
      assert machines[1..][..i] == machines[..i + 1][1..] && machines[1..][..i - 1] == machines[..i][1..];
      assert machines[..i + 1][0] == machines[..i][0] == machines[0];
    } else {
      assert machines[..1][1..] == [];
    }
  }

  lemma {:induction false} GatheredPrefix(machines: seq<AdminVm>, i: nat)
    requires i <= |machines|
    ensures |GatheredAdmin(machines[..i])| <= |GatheredAdmin(machines)| && |GatheredAdmin(machines[..i])| <= i
    ensures |GatheredInfo(machines[..i])| <= |GatheredInfo(machines)|
    decreases |machines| - i
  {
    GatheredAtMost(machines[..i]);
    if i < |machines| {
      GatherOneMore(machines, i);
      GatheredPrefix(machines, i + 1);
    } else {
      assert machines[..i] == machines;
    }
  }

  class VirtualMachinesList {
    var machines: seq<AdminVm>
    var pendingVmInfoRequests: nat
    var pendingVmInfoUpdates: nat
    const adminVmInfoList: ResizableList
    const vmInfoList: ResizableList
    ghost var asked: set<nat>
    ghost var gone: nat

    ghost function View(): State
      reads this, adminVmInfoList, vmInfoList
    {
      State(machines, pendingVmInfoRequests, pendingVmInfoUpdates, adminVmInfoList.list, vmInfoList.list, asked, gone)
    }

    ghost predicate Valid()
      reads this
    {
      adminVmInfoList != vmInfoList && Distinct(machines)
    }

    /** What holds as long as the run is quiet. */
    ghost predicate Exact()
      reads this, adminVmInfoList, vmInfoList
    {
      Inv(View())
    }

    constructor ()
      ensures Valid() && Exact() && View() == State([], 0, 0, [], [], {}, 0)
      ensures fresh(adminVmInfoList) && fresh(vmInfoList)
    {
      machines, pendingVmInfoRequests, pendingVmInfoUpdates, asked, gone := [], 0, 0, {}, 0;
      adminVmInfoList := new ResizableList();
      vmInfoList := new ResizableList();
    }

    /** Ask every machine, unless a round is under way. */
    method UpdateVirtualMachineInfoList()
      requires Valid()
      modifies this`pendingVmInfoRequests, this`pendingVmInfoUpdates, this`asked
      ensures Valid() && View() == StartRound(old(View()))
      ensures old(Exact()) ==> Exact()
    {
      if Exact() {
        StartKeepsInv(View());
      }
      if pendingVmInfoRequests != 0 {
        return;
      }
      pendingVmInfoRequests := |machines|;
      pendingVmInfoUpdates := 0;
      asked := Ids(machines);
    }

    /** A machine's answer; `id` is none for a machine that has been deleted since it was asked. The last one rebuilds both
        lists; no more machines may hold information than have been counted, or the walk would write past the end of the
        list. `sizeCheck` is the program's check that it has been filled. */
    method OnAnswer(id: Option<nat>, answer: Answer) returns (sizeCheck: bool)
      requires Valid() && pendingVmInfoRequests > 0 && (id.None? ==> gone > 0)
      requires pendingVmInfoRequests == 1 ==>
                 |GatheredInfo(ToldBy(id, answer))| <= pendingVmInfoUpdates + Bit(answer.vmData.Some?)
      modifies this, adminVmInfoList, vmInfoList
      ensures Valid()
      ensures View() == if id.Some? then Reply(old(View()), id.value, answer) else ReplyOfGone(old(View()), answer)
      ensures pendingVmInfoRequests == 0 ==> (sizeCheck <==> |GatheredInfo(old(ToldBy(id, answer)))| == |vmInfoList.list|)
      ensures old(Exact()) && id.Some? && id.value in old(asked) ==> Exact() && sizeCheck
    {
      AnswerKeepsExact(View(), id, answer);
      if answer.vmData.Some? {
        pendingVmInfoUpdates := pendingVmInfoUpdates + 1;
      }
      if id.Some? {
        SetPendingVmInfo(id.value, answer);
        asked := asked - {id.value};
      } else {
        gone := gone - 1;
      }
      pendingVmInfoRequests := pendingVmInfoRequests - 1;
      if pendingVmInfoRequests != 0 {
        return true;
      }
      sizeCheck := FinishRound();
    }

    /** What the machines have told once the answer has been heard. */
    ghost function ToldBy(id: Option<nat>, answer: Answer): seq<AdminVm>
      reads this, adminVmInfoList, vmInfoList
    {
      if id.Some? then Told(View(), id.value, answer) else machines
    }

    method SetPendingVmInfo(id: nat, answer: Answer)
      requires Distinct(machines)
      modifies this`machines
      ensures machines == SetPending(old(machines), id, Some(AdminInfo(id, answer)), VmInfo(id, answer))
      ensures Distinct(machines)
    {
      SetPendingKeepsIds(machines, id, Some(AdminInfo(id, answer)), VmInfo(id, answer));
      if HasMachine(machines, id) {
        var i := Find(machines, id);
        machines := machines[i := machines[i].(pendingAdmin := Some(AdminInfo(id, answer)),
                                               pendingInfo := VmInfo(id, answer))];
      } else {
        SetPendingAbsent(machines, id, Some(AdminInfo(id, answer)), VmInfo(id, answer));
      }
    }

    ghost predicate Collected(all: seq<AdminVm>, i: nat, adminIndex: nat, infoIndex: nat)
      requires i <= |all|
      reads this`pendingVmInfoUpdates, adminVmInfoList, vmInfoList
    {
      && adminIndex == |GatheredAdmin(all[..i])| && infoIndex == |GatheredInfo(all[..i])|
      && adminVmInfoList.list == Fill(GatheredAdmin(all[..i]), |all|)
      && vmInfoList.list == Fill(GatheredInfo(all[..i]), pendingVmInfoUpdates)
    }

    /** Write what one machine has told into the lists. */
    method Collect(ghost all: seq<AdminVm>, ghost i: nat, m: AdminVm, adminIndex: nat, infoIndex: nat)
      returns (nextAdmin: nat, nextInfo: nat)
      requires adminVmInfoList != vmInfoList && i < |all| && m == all[i] && Collected(all, i, adminIndex, infoIndex)
      requires |GatheredInfo(all)| <= pendingVmInfoUpdates
      modifies adminVmInfoList, vmInfoList
      ensures Collected(all, i + 1, nextAdmin, nextInfo)
    {
      GatherOneMore(all, i);
      GatheredPrefix(all, i + 1);
      nextAdmin, nextInfo := adminIndex, infoIndex;
      if m.pendingAdmin.Some? {
        FillOneMore(GatheredAdmin(all[..i]), |all|, m.pendingAdmin.value);
        adminVmInfoList.Put(adminIndex, m.pendingAdmin.value);
        nextAdmin := adminIndex + 1;
      }
      if m.pendingInfo.Some? {
        FillOneMore(GatheredInfo(all[..i]), pendingVmInfoUpdates, m.pendingInfo.value);
        vmInfoList.Put(infoIndex, m.pendingInfo.value);
        nextInfo := infoIndex + 1;
      }
    }

    method FinishRound() returns (sizeCheck: bool)
      requires Valid() && |GatheredInfo(machines)| <= pendingVmInfoUpdates
      modifies this`machines, adminVmInfoList, vmInfoList
      ensures Valid() && machines == Freed(old(machines))
      ensures adminVmInfoList.list == Fill(GatheredAdmin(old(machines)), |old(machines)|)
      ensures vmInfoList.list == Fill(GatheredInfo(old(machines)), pendingVmInfoUpdates)
      ensures sizeCheck <==> |GatheredInfo(old(machines))| == |vmInfoList.list|
    {
      ghost var all := machines;
      FreedKeepsDistinct(all);
      adminVmInfoList.Reset(|machines|);
      vmInfoList.Reset(pendingVmInfoUpdates);
      assert all[..0] == [];
      var adminIndex, infoIndex, i := 0, 0, 0;
      while i < |machines|
        invariant 0 <= i <= |machines| == |all|
        invariant machines[..i] == Freed(all)[..i] && machines[i..] == all[i..]
        invariant Collected(all, i, adminIndex, infoIndex)
      {
        var m := machines[i];
        FreeOneMore(machines, all, i);
        adminIndex, infoIndex := Collect(all, i, m, adminIndex, infoIndex);
        machines := machines[i := AdminVm(m.id, m.pendingInfo.Some?, None, None)];
        i := i + 1;
      }
      assert all[..i] == all && Freed(all)[..i] == Freed(all) && machines[..i] == machines;
      sizeCheck := infoIndex == |vmInfoList.list|;
    }

    /** A single machine's update. When a machine that viewers see goes idle, the removal needs exactly one entry of its id,
        as the program checks. */
    method OnUpdate(id: nat, answer: Answer)
      requires Valid() && HasMachine(machines, id)
      requires var m := machines[Find(machines, id)];
               m.pendingAdmin.None? && m.hasVmInfo && answer.vmData.None? ==>
                 |Without(vmInfoList.list, id)| + 1 == |vmInfoList.list|
      modifies this`machines, adminVmInfoList, vmInfoList
      ensures Valid() && View() == Update(old(View()), id, answer)
      ensures old(Exact() && Quiet(View(), Updated(id, answer))) ==> Exact()
    {
      if Exact() && Quiet(View(), Updated(id, answer)) {
        StepKeepsInv(View(), Updated(id, answer));
      }
      var i := Find(machines, id);
      if machines[i].pendingAdmin.Some? {
        SetPendingVmInfo(id, answer);
        return;
      }
      adminVmInfoList.UpdateElement(id, AdminInfo(id, answer));
      UpdateViewers(id, machines[i].hasVmInfo, VmInfo(id, answer));
    }

    /** Bring the viewers' list up to date with one machine. */
    method UpdateViewers(id: nat, has: bool, info: Option<Info>)
      requires Distinct(machines) && HasMachine(machines, id) && machines[Find(machines, id)].hasVmInfo == has
      requires has && info.None? ==> |Without(vmInfoList.list, id)| + 1 == |vmInfoList.list|
      modifies this`machines, vmInfoList
      ensures machines == (if has == info.Some? then old(machines) else Mark(old(machines), id, info.Some?))
      ensures Distinct(machines)
      ensures vmInfoList.list == if has then
                if info.None? then Without(old(vmInfoList.list), id) else Replaced(old(vmInfoList.list), id, info.value)
                else if info.None? then old(vmInfoList.list) else old(vmInfoList.list) + [info.value]
    {
      if has {
        if info.None? {
          vmInfoList.RemoveFirst(id);
          SetHasVmInfo(id, false);
        } else {
          vmInfoList.UpdateElement(id, info.value);
        }
      } else if info.Some? {
        vmInfoList.Add(info.value);
        SetHasVmInfo(id, true);
      }
    }

    method SetHasVmInfo(id: nat, has: bool)
      requires Distinct(machines) && HasMachine(machines, id)
      modifies this`machines
      ensures machines == Mark(old(machines), id, has) && Distinct(machines)
    {
      MarkKeeps(machines, id, has);
      var i := Find(machines, id);
      machines := machines[i := machines[i].(hasVmInfo := has)];
    }

    /** A new machine; a machine of its id must not be there, as the program checks. */
    method AddAdminVirtualMachine(id: nat, data: nat, at: nat)
      requires Valid() && !HasMachine(machines, id) && at <= |machines|
      modifies this`machines, adminVmInfoList
      ensures Valid() && View() == Create(old(View()), id, data, at)
      ensures old(Exact() && Quiet(View(), Created(id, data, at))) ==> Exact()
    {
      if Exact() && Quiet(View(), Created(id, data, at)) {
        CreateKeepsInv(View(), id, data, at);
      }
      InsertKeepsDistinct(machines, id, at);
      adminVmInfoList.Add(Info(id, data));
      machines := machines[..at] + [AdminVm(id, false, None, None)] + machines[at..];
    }

    /** Delete a machine; exactly one entry for administrators must have its id, as the program checks. */
    method RemoveAdminVirtualMachine(id: nat) returns (removed: bool)
      requires Valid()
      requires HasMachine(machines, id) ==> |Without(adminVmInfoList.list, id)| + 1 == |adminVmInfoList.list|
      modifies this`machines, this`asked, this`gone, adminVmInfoList
      ensures Valid() && removed == HasMachine(old(machines), id)
      ensures View() == if removed then Delete(old(View()), id) else old(View())
      ensures old(Exact()) && pendingVmInfoRequests == 0 ==> Exact()
    {
      if !HasMachine(machines, id) {
        return false;
      }
      DeletionKeepsExact(View(), id);
      EraseWithEntry(id);
      return true;
    }

    method EraseWithEntry(id: nat)
      requires Valid() && HasMachine(machines, id) && |Without(adminVmInfoList.list, id)| + 1 == |adminVmInfoList.list|
      modifies this`machines, this`asked, this`gone, adminVmInfoList
      ensures Valid() && View() == Delete(old(View()), id)
    {
      EraseMachine(id);
      adminVmInfoList.RemoveFirst(id);
    }

    /** Take a machine out of the table; an answer that is on its way is then one of a deleted machine. */
    method EraseMachine(id: nat)
      requires Distinct(machines) && HasMachine(machines, id)
      modifies this`machines, this`asked, this`gone
      ensures Distinct(machines) && machines == Erased(old(machines), id)
      ensures asked == old(asked) - {id} && gone == old(gone) + Bit(id in old(asked))
    {
      RemovalKeepsMachines(machines, id);
      var i := Find(machines, id);
      machines := machines[..i] + machines[i + 1..];
      gone := gone + Bit(id in asked);
      asked := asked - {id};
    }
  }

  lemma FreeOneMore(machines: seq<AdminVm>, all: seq<AdminVm>, i: nat)
    requires i < |machines| == |all| && machines[..i] == Freed(all)[..i] && machines[i..] == all[i..]
    ensures machines[i] == all[i]
    ensures var m := machines[i];
            var next := machines[i := AdminVm(m.id, m.pendingInfo.Some?, None, None)];
            next[..i + 1] == Freed(all)[..i + 1] && next[i + 1..] == all[i + 1..]
  {
    assert machines[i] == machines[i..][0] == all[i..][0];
    var next := machines[i := Freed(all)[i]];
    assert next[..i + 1] == machines[..i] + [Freed(all)[i]] == Freed(all)[..i + 1];
    assert next[i + 1..] == machines[i..][1..] == all[i..][1..] == all[i + 1..];
  }

  lemma FreedKeepsDistinct(machines: seq<AdminVm>)
    requires Distinct(machines)
    ensures Distinct(Freed(machines))
  {
  }

  lemma InsertKeepsDistinct(machines: seq<AdminVm>, id: nat, at: nat)
    requires Distinct(machines) && !HasMachine(machines, id) && at <= |machines|
    ensures Distinct(machines[..at] + [AdminVm(id, false, None, None)] + machines[at..])
  {
    assert forall i :: 0 <= i < |machines| ==> machines[i].id != id;
  }

  lemma ReplyKeepsInv(s: State, id: nat, a: Answer)
    requires s.requests > 0 && s.requests == |s.asked| && id in s.asked
    ensures Inv(s) ==>
              var machines := SetPending(s.machines, id, Some(AdminInfo(id, a)), VmInfo(id, a));
              && Inv(Reply(s, id, a))
              && (s.requests == 1 ==> |GatheredInfo(machines)| == |Reply(s, id, a).vmList|)
  {
    if Inv(s) {
      if s.requests == 1 {
        LastReplyKeepsInv(s, id, a);
        LastOneAsked(s, id);
        RoundEndsAtLastReply(s, id, a);
      } else {
        EarlyReplyKeepsInv(s, id, a);
      }
    }
  }

  lemma DeletionKeepsExact(s: State, id: nat)
    requires HasMachine(s.machines, id)
    ensures Inv(s) && s.requests == 0 ==> Inv(Delete(s, id))
  {
    if Inv(s) && s.requests == 0 {
      DeleteKeepsInv(s, id);
    }
  }

  lemma AnswerKeepsExact(s: State, id: Option<nat>, a: Answer)
    ensures Inv(s) && id.Some? && id.value in s.asked ==>
              && s.requests > 0 && Inv(Reply(s, id.value, a))
              && (s.requests == 1 ==> |GatheredInfo(Told(s, id.value, a))| == |Reply(s, id.value, a).vmList|)
  {
    if Inv(s) && id.Some? && id.value in s.asked {
      IsAsked(s, id.value);
      ReplyKeepsInv(s, id.value, a);
    }
  }

  lemma IsAsked(s: State, id: nat)
    requires s.requests == |s.asked| && id in s.asked
    ensures s.requests > 0
  {
    assert s.asked == s.asked - {id} + {id};
  }

  /** In quiet runs the conditions of the handlers are met: the counted machines are those with information, and the lists
      have one entry to remove. */
  lemma QuietRunsMeetTheChecks(s: State, id: nat, a: Answer)
    requires Inv(s) && HasMachine(s.machines, id)
    ensures |Without(s.adminList, id)| + 1 == |s.adminList|
    ensures s.machines[Find(s.machines, id)].hasVmInfo ==> |Without(s.vmList, id)| + 1 == |s.vmList|
    ensures id in s.asked && s.requests == 1 ==>
              |GatheredInfo(SetPending(s.machines, id, Some(AdminInfo(id, a)), VmInfo(id, a)))|
              == s.updates + Bit(a.vmData.Some?)
  {
    WithoutRemoves(s.adminList, id);
    WithoutRemoves(s.vmList, id);
    SetPendingCounts(s.machines, id, Some(AdminInfo(id, a)), VmInfo(id, a));
    assert PendingInv(s, s.machines[Find(s.machines, id)]);
  }
}

/** The end of a gather round in runs of any kind: machines may be created, deleted, and may change whether they have
    information at any time. */
module GatherCheck {
  import opened Counting
  import opened Options
  import opened VmGather

  // ---------------------------------------------------------------- what every run keeps

  /** Machines that are still asked have told nothing, and outside a round no machine has. */
  ghost predicate WeakPending(s: State, m: AdminVm) {
    && (m.pendingAdmin.Some? ==> s.requests > 0 && m.id !in s.asked)
    && (m.pendingInfo.Some? ==> m.pendingAdmin.Some?)
  }

  ghost predicate WeakInv(s: State) {
    && Distinct(s.machines) && s.asked <= Ids(s.machines) && s.requests == |s.asked| + s.gone
    && forall i :: 0 <= i < |s.machines| ==> WeakPending(s, s.machines[i])
  }

  /** How far the count of machines with information is ahead of those that hold some. */
  function Drift(s: State): int {
    s.updates - |GatheredInfo(s.machines)|
  }

  /** Whether a machine holds information that has been counted. */
  function Holds(s: State, id: nat): bool
    requires HasMachine(s.machines, id)
  {
    s.machines[Find(s.machines, id)].pendingInfo.Some?
  }

  /** A machine that loses its counted information, by going idle or by being deleted, adds one, and so does the answer of
      a deleted machine that had some; a machine that becomes active after its answer takes one away. */
  function Shift(s: State, e: Event): int
    requires Enabled(s, e)
  {
    match e
    case Updated(id, a) =>
      if s.machines[Find(s.machines, id)].pendingAdmin.Some? then Bit(Holds(s, id)) - Bit(a.vmData.Some?) else 0
    case Deleted(id) => Bit(Holds(s, id))
    case AnsweredGone(a) => Bit(a.vmData.Some?)
    case _ => 0
  }

  lemma {:induction false} GatheredAppend(a: seq<AdminVm>, b: seq<AdminVm>)
    ensures GatheredInfo(a + b) == GatheredInfo(a) + GatheredInfo(b)
  {
    if a == [] {
      assert a + b == b;
    } else {
      assert (a + b)[1..] == a[1..] + b;
      GatheredAppend(a[1..], b);
    }
  }

  /** One machine among others counts for what it holds. */
  lemma GatheredAround(before: seq<AdminVm>, m: AdminVm, after: seq<AdminVm>)
    ensures |GatheredInfo(before + [m] + after)| == |GatheredInfo(before + after)| + Bit(m.pendingInfo.Some?)
  {
    GatheredAppend(before, [m]);
    GatheredAppend(before + [m], after);
    GatheredAppend(before, after);
    assert [m][1..] == [];
    assert GatheredInfo([m]) == Entry(m.pendingInfo) + GatheredInfo([m][1..]);
  }

  lemma SetPendingKeepsWeak(s: State, end: State, id: nat, a: Answer)
    requires WeakInv(s) && s.requests > 0 && HasMachine(s.machines, id) && end.machines == Told(s, id, a)
    requires end.asked == s.asked - {id} && end.requests == |end.asked| + end.gone > 0
    ensures WeakInv(end)
    ensures |GatheredInfo(end.machines)| + Bit(Holds(s, id)) == |GatheredInfo(s.machines)| + Bit(a.vmData.Some?)
  {
    SetPendingKeepsIds(s.machines, id, Some(AdminInfo(id, a)), VmInfo(id, a));
    SetPendingCounts(s.machines, id, Some(AdminInfo(id, a)), VmInfo(id, a));
    forall i | 0 <= i < |s.machines|
      ensures WeakPending(end, end.machines[i])
    {
      assert WeakPending(s, s.machines[i]);
    }
  }

  lemma AnswerShifts(s: State, id: nat, a: Answer)
    requires WeakInv(s) && s.requests > 1 && id in s.asked
    ensures WeakInv(Reply(s, id, a)) && Drift(Reply(s, id, a)) == Drift(s)
  {
    assert WeakPending(s, s.machines[Find(s.machines, id)]);
    assert s.asked == s.asked - {id} + {id};
    SetPendingKeepsWeak(s, Reply(s, id, a), id, a);
  }

  lemma AnswerOfGoneShifts(s: State, a: Answer)
    requires WeakInv(s) && s.requests > 1 && s.gone > 0
    ensures WeakInv(ReplyOfGone(s, a)) && Drift(ReplyOfGone(s, a)) == Drift(s) + Bit(a.vmData.Some?)
  {
    var end := ReplyOfGone(s, a);
    forall i | 0 <= i < |s.machines|
      ensures WeakPending(end, end.machines[i])
    {
      assert WeakPending(s, s.machines[i]);
    }
  }

  lemma LateUpdateShifts(s: State, id: nat, a: Answer)
    requires WeakInv(s) && HasMachine(s.machines, id) && s.machines[Find(s.machines, id)].pendingAdmin.Some?
    ensures WeakInv(Update(s, id, a)) && Drift(Update(s, id, a)) == Drift(s) + Bit(Holds(s, id)) - Bit(a.vmData.Some?)
  {
    var end := s.(machines := Told(s, id, a));
    assert WeakPending(s, s.machines[Find(s.machines, id)]);
    assert s.asked - {id} == s.asked;
    HeardUpdateIsTold(s, id, a);
    SetPendingKeepsWeak(s, end, id, a);
  }

  lemma DirectUpdateShifts(s: State, id: nat, a: Answer)
    requires WeakInv(s) && HasMachine(s.machines, id) && s.machines[Find(s.machines, id)].pendingAdmin.None?
    ensures WeakInv(Update(s, id, a)) && Drift(Update(s, id, a)) == Drift(s)
  {
    var end := Update(s, id, a);
    MarkKeeps(s.machines, id, true);
    MarkKeeps(s.machines, id, false);
    assert end.machines == s.machines || end.machines == Mark(s.machines, id, true) || end.machines == Mark(s.machines, id, false);
    forall i | 0 <= i < |s.machines|
      ensures WeakPending(end, end.machines[i])
    {
      assert WeakPending(s, s.machines[i]);
    }
  }

  lemma InsertKeepsMachines(machines: seq<AdminVm>, id: nat, at: nat)
    requires Distinct(machines) && !HasMachine(machines, id) && at <= |machines|
    ensures var all := machines[..at] + [AdminVm(id, false, None, None)] + machines[at..];
            && Distinct(all)
            && forall other :: HasMachine(machines, other) ==> HasMachine(all, other)
  {
    var all := machines[..at] + [AdminVm(id, false, None, None)] + machines[at..];
    assert forall i :: 0 <= i < |machines| ==> machines[i].id != id;
    forall other | HasMachine(machines, other)
      ensures HasMachine(all, other)
    {
      var i :| 0 <= i < |machines| && machines[i].id == other;
      assert all[if i < at then i else i + 1].id == other;
    }
  }

  lemma CreateShifts(s: State, id: nat, data: nat, at: nat)
    requires WeakInv(s) && !HasMachine(s.machines, id) && at <= |s.machines|
    ensures WeakInv(Create(s, id, data, at)) && Drift(Create(s, id, data, at)) == Drift(s)
  {
    var end := Create(s, id, data, at);
    InsertKeepsMachines(s.machines, id, at);
    GatheredAround(s.machines[..at], AdminVm(id, false, None, None), s.machines[at..]);
    assert s.machines[..at] + s.machines[at..] == s.machines;
    forall i | 0 <= i < |end.machines|
      ensures WeakPending(end, end.machines[i])
    {
      if i != at {
        assert WeakPending(s, s.machines[if i < at then i else i - 1]);
      }
    }
  }

  lemma DeleteShifts(s: State, id: nat)
    requires WeakInv(s) && HasMachine(s.machines, id)
    ensures WeakInv(Delete(s, id)) && Drift(Delete(s, id)) == Drift(s) + Bit(Holds(s, id))
  {
    var end, at := Delete(s, id), Find(s.machines, id);
    GatheredAround(s.machines[..at], s.machines[at], s.machines[at + 1..]);
    assert s.machines[..at] + [s.machines[at]] + s.machines[at + 1..] == s.machines;
    DeleteKeepsWeak(s, id);
  }

  lemma DeleteKeepsWeak(s: State, id: nat)
    requires WeakInv(s) && HasMachine(s.machines, id)
    ensures WeakInv(Delete(s, id))
  {
    var end, at := Delete(s, id), Find(s.machines, id);
    RemovalKeepsMachines(s.machines, id);
    DeleteKeepsRequests(s.asked, id);
    forall other | other in end.asked
      ensures other in Ids(end.machines)
    {
      assert other in Ids(s.machines) && other != id;
    }
    forall i | 0 <= i < |end.machines|
      ensures WeakPending(end, end.machines[i])
    {
      assert end.machines[i] == s.machines[if i < at then i else i + 1];
      assert WeakPending(s, s.machines[if i < at then i else i + 1]);
    }
  }

  lemma DeleteKeepsRequests(asked: set<nat>, id: nat)
    ensures |asked - {id}| + Bit(id in asked) == |asked|
  {
    if id in asked {
      assert asked == asked - {id} + {id};
    } else {
      assert asked - {id} == asked;
    }
  }

  /** When the last answer has been heard nobody is asked any more and nothing is held. */
  lemma EndKeepsWeak(s: State, e: Event)
    requires WeakInv(s) && s.requests == 1 && (e.Answered? || e.AnsweredGone?) && Enabled(s, e)
    ensures WeakInv(Step(s, e)) && Step(s, e).requests == 0
  {
    var end := Step(s, e);
    if e.Answered? {
      assert s.asked == s.asked - {e.id} + {e.id};
      SetPendingKeepsIds(s.machines, e.id, Some(AdminInfo(e.id, e.answer)), VmInfo(e.id, e.answer));
    }
    assert end.asked == {} && end.gone == 0;
  }

  lemma StartKeepsWeak(s: State)
    requires WeakInv(s)
    ensures WeakInv(StartRound(s)) && (s.requests == 0 ==> Drift(StartRound(s)) == 0)
  {
    if s.requests == 0 {
      IdsCount(s.machines);
      forall i | 0 <= i < |s.machines|
        ensures s.machines[i].pendingInfo.None? && WeakPending(StartRound(s), s.machines[i])
      {
        assert WeakPending(s, s.machines[i]);
      }
      NothingGathered(s.machines);
    }
  }

  /** Every step keeps the invariant, and a step that does not end the round shifts the count by what it says. */
  lemma StepShifts(s: State, e: Event)
    requires WeakInv(s) && Enabled(s, e)
    ensures WeakInv(Step(s, e))
    ensures s.requests > 0 && Step(s, e).requests > 0 ==> Drift(Step(s, e)) == Drift(s) + Shift(s, e)
  {
    match e
    case Round => StartKeepsWeak(s);
    case Answered(id, a) =>
      assert s.asked == s.asked - {id} + {id};
      if s.requests > 1 { AnswerShifts(s, id, a); } else { EndKeepsWeak(s, e); }
    case AnsweredGone(a) =>
      if s.requests > 1 { AnswerOfGoneShifts(s, a); } else { EndKeepsWeak(s, e); }
    case Updated(id, a) =>
      if s.machines[Find(s.machines, id)].pendingAdmin.Some? {
        LateUpdateShifts(s, id, a);
      } else {
        DirectUpdateShifts(s, id, a);
      }
    case Created(id, data, at) => CreateShifts(s, id, data, at);
    case Deleted(id) => DeleteShifts(s, id);
  }

  lemma {:induction false} AnyRunKeepsWeak(s: State, events: seq<Event>)
    requires WeakInv(s)
    ensures WeakInv(Run(s, events))
    decreases |events|
  {
    if events != [] {
      if Enabled(s, events[0]) {
        StepShifts(s, events[0]);
      }
      AnyRunKeepsWeak(Step(s, events[0]), events[1..]);
    }
  }

  // ---------------------------------------------------------------- the size check

  /** Any events that can happen while the round goes on. */
  ghost predicate WithinRound(s: State, events: seq<Event>)
    decreases |events|
  {
    && s.requests > 0
    && (events != [] ==> Enabled(s, events[0]) && WithinRound(Step(s, events[0]), events[1..]))
  }

  function TotalShift(s: State, events: seq<Event>): int
    requires WithinRound(s, events)
    decreases |events|
  {
    if events == [] then 0 else Shift(s, events[0]) + TotalShift(Step(s, events[0]), events[1..])
  }

  lemma {:induction false} RunShifts(s: State, events: seq<Event>)
    requires WeakInv(s) && WithinRound(s, events)
    ensures WeakInv(Run(s, events)) && Drift(Run(s, events)) == Drift(s) + TotalShift(s, events)
    ensures Run(s, events).requests > 0
    decreases |events|
  {
    if events != [] {
      StepShifts(s, events[0]);
      RunShifts(Step(s, events[0]), events[1..]);
    }
  }

  /** What the machines have told once the last answer has been heard. */
  function ToldAtEnd(s: State, e: Event): seq<AdminVm>
    requires e.Answered? || e.AnsweredGone?
  {
    if e.Answered? then Told(s, e.id, e.answer) else s.machines
  }

  /** The check at the end of a round: the list reserved for viewers has been filled exactly. */
  ghost predicate SizeCheck(s: State, e: Event)
    requires e.Answered? || e.AnsweredGone?
  {
    |GatheredInfo(ToldAtEnd(s, e))| == |Step(s, e).vmList|
  }

  /** In any run whatever, with machines created, deleted and changing at any time, the check at the end of a round holds
      exactly when the machines that lost their counted information during the round, by going idle, by being deleted, or by
      being deleted before they answered, are as many as those that became active after their answers. */
  lemma SizeCheckHoldsIff(s: State, events: seq<Event>, e: Event)
    requires WeakInv(s) && s.requests == 0 && WithinRound(StartRound(s), events)
    requires Run(StartRound(s), events).requests == 1 && (e.Answered? || e.AnsweredGone?)
    requires Enabled(Run(StartRound(s), events), e)
    ensures var last := Run(StartRound(s), events);
            SizeCheck(last, e) <==> TotalShift(StartRound(s), events) + Shift(last, e) == 0
  {
    var last := Run(StartRound(s), events);
    StartKeepsWeak(s);
    RunShifts(StartRound(s), events);
    if e.Answered? {
      SetPendingCounts(last.machines, e.id, Some(AdminInfo(e.id, e.answer)), VmInfo(e.id, e.answer));
      assert WeakPending(last, last.machines[Find(last.machines, e.id)]);
    }
  }

  // ---------------------------------------------------------------- blank and double entries

  /** The round fills the administrators' list, with one entry from each machine in order, exactly when every machine has
      been heard by then. One that has not, such as one created meanwhile, leaves a blank entry at the end. */
  lemma FilledIffAllHeard(s: State, e: Event)
    requires s.requests == 1 && (e.Answered? || e.AnsweredGone?) && Enabled(s, e)
    ensures var machines, list := ToldAtEnd(s, e), Step(s, e).adminList;
            var heard := forall i :: 0 <= i < |machines| ==> machines[i].pendingAdmin.Some?;
            && |list| == |machines|
            && (|GatheredAdmin(machines)| == |list| <==> heard)
            && (heard ==> forall i :: 0 <= i < |list| ==> machines[i].pendingAdmin == Some(list[i]))
            && (!heard ==> list[|list| - 1] == BLANK)
  {
    var machines := ToldAtEnd(s, e);
    if forall i :: 0 <= i < |machines| ==> machines[i].pendingAdmin.Some? {
      GatheredFromAll(machines);
    } else {
      GatheredAtMost(machines);
    }
  }

  /** A new machine that becomes active is listed once for viewers exactly when its id is not that of a deleted machine
      that they still see. */
  lemma NewMachineIsListedOnceIff(s: State, id: nat, data: nat, at: nat, a: Answer)
    requires DistinctEntries(s.vmList) && !HasMachine(s.machines, id) && at <= |s.machines| && a.vmData.Some?
    ensures HasMachine(Create(s, id, data, at).machines, id)
    ensures DistinctEntries(Update(Create(s, id, data, at), id, a).vmList) <==> !Listed(s.vmList, id)
  {
    var c := Create(s, id, data, at);
    NewMachineIsFound(s, id, data, at);
    var list := Update(c, id, a).vmList;
    assert list == s.vmList + [Info(id, a.vmData.value)];
    if Listed(s.vmList, id) {
      var i :| 0 <= i < |s.vmList| && s.vmList[i].id == id;
      assert list[i].id == list[|s.vmList|].id;
    }
  }

  lemma NewMachineIsFound(s: State, id: nat, data: nat, at: nat)
    requires !HasMachine(s.machines, id) && at <= |s.machines|
    ensures var machines := Create(s, id, data, at).machines;
            HasMachine(machines, id) && Find(machines, id) == at && machines[at] == AdminVm(id, false, None, None)
  {
    var machines := Create(s, id, data, at).machines;
    assert machines[at].id == id;
    assert forall j :: 0 <= j < at ==> machines[j] == s.machines[j];
  }

  /** Such an id is met when a machine that viewers see is deleted and its id given again: the viewers' list keeps it. */
  lemma DeletedStaysListed(s: State, id: nat)
    requires Inv(s) && HasMachine(s.machines, id) && Listed(s.vmList, id)
    ensures !HasMachine(Delete(s, id).machines, id) && Listed(Delete(s, id).vmList, id)
    ensures DistinctEntries(Delete(s, id).vmList)
  {
    RemovalKeepsMachines(s.machines, id);
  }
}

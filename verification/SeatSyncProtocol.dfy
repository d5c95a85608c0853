/**
 * Overlapping AddMember and RemoveMember calls of one organization: the checks, the membership row, the
 * usage that the sync reads and the seat count that it writes are statements of their own, in any
 * order. What SeatSync shows for calls one after another holds of such runs exactly when every insert
 * still finds a free seat and every write is still right.
 */
module SeatSyncProtocol {
  import opened Common
  import opened Seats
  import opened SeatSync

  datatype Phase =
    | LimitRead(user: User, limit: int)
    | Checked(user: User)
    | Changed(added: Option<User>)          // `added` is deleted again if the sync fails
    | Counted(added: Option<User>, usage: int)
    | Undoing(user: User)

  datatype System = System(org: Org, calls: map<nat, Phase>)

  datatype Action =
    | ReadLimit(c: nat, user: User)
    | Check(c: nat)
    | Insert(c: nat)
    | Delete(c: nat, user: User)
    | Count(c: nat)
    | Write(c: nat)
    | Fail(c: nat)
    | Undo(c: nat)
    | End(c: nat)                           // refused, crashed, or nothing to undo

  predicate Enabled(s: System, a: Action) {
    match a
    case ReadLimit(c, user) => c !in s.calls && user !in s.org.members
    case Check(c) => c in s.calls && s.calls[c].LimitRead? && |s.org.members| < s.calls[c].limit
    case Insert(c) => c in s.calls && s.calls[c].Checked? && s.calls[c].user !in s.org.members
    case Delete(c, user) => c !in s.calls && user in s.org.members
    case Count(c) => c in s.calls && s.calls[c].Changed? && Billable(s.org.sub)
    case Write(c) => c in s.calls && s.calls[c].Counted? && Billable(s.org.sub)
    case Fail(c) => c in s.calls && (s.calls[c].Changed? || s.calls[c].Counted?) && s.calls[c].added.Some?
    case Undo(c) => c in s.calls && s.calls[c].Undoing?
    case End(c) => c in s.calls
  }

  function Apply(s: System, a: Action): System
    requires Enabled(s, a)
  {
    var o, calls := s.org, s.calls;
    match a
    case ReadLimit(c, user) => s.(calls := calls[c := LimitRead(user, SubscribedSeats(o.sub))])
    case Check(c) => s.(calls := calls[c := Checked(calls[c].user)])
    case Insert(c) => System(o.(members := o.members + {calls[c].user}), calls[c := Changed(Some(calls[c].user))])
    case Delete(c, user) => System(o.(members := o.members - {user}), calls[c := Changed(None)])
    case Count(c) => s.(calls := calls[c := Counted(calls[c].added, Max(|o.members|, 1))])
    case Write(c) => System(o.(sub := Some(o.sub.value.(seatCount := calls[c].usage))), calls - {c})
    case Fail(c) => s.(calls := calls[c := Undoing(calls[c].added.value)])
    case Undo(c) => System(o.(members := o.members - {calls[c].user}), calls - {c})
    case End(c) => s.(calls := calls - {c})
  }

  function Exec(s: System, acts: seq<Action>): Option<System>
    decreases |acts|
  {
    if acts == [] then Some(s)
    else if Enabled(s, acts[0]) then Exec(Apply(s, acts[0]), acts[1..])
    else None
  }

  function SeatCount(s: System): int {
    SubscribedSeats(s.org.sub)
  }

  ghost predicate Within(s: System) {
    |s.org.members| <= SeatCount(s)
  }

  // ----- Which steps keep members and seats -----

  /** An insert does so exactly when it still finds a free seat; its check may be out of date. */
  lemma InsertExactly(s: System, c: nat)
    requires Enabled(s, Insert(c))
    ensures Shrinks(s.org, Apply(s, Insert(c)).org) <==> |s.org.members| < SeatCount(s)
  {
    assert |s.org.members + {s.calls[c].user}| == |s.org.members| + 1;
  }

  /** A write does so exactly when the usage it read covers the members and is within the seats now. */
  lemma WriteExactly(s: System, c: nat)
    requires Enabled(s, Write(c))
    ensures Shrinks(s.org, Apply(s, Write(c)).org) <==> |s.org.members| <= Max(s.calls[c].usage, 1) <= SeatCount(s)
  {
  }

  lemma OtherStepsShrink(s: System, a: Action)
    requires Within(s) && Enabled(s, a) && !a.Insert? && !a.Write?
    ensures Shrinks(s.org, Apply(s, a).org)
  {
    SubsetCard(Apply(s, a).org.members, s.org.members);
  }

  ghost predicate Fits(s: System, a: Action)
    requires Enabled(s, a)
  {
    && (a.Insert? ==> |s.org.members| < SeatCount(s))
    && (a.Write? ==> |s.org.members| <= Max(s.calls[a.c].usage, 1) <= SeatCount(s))
  }

  lemma StepExactly(s: System, a: Action)
    requires Within(s) && Enabled(s, a)
    ensures Shrinks(s.org, Apply(s, a).org) <==> Fits(s, a)
  {
    match a {
      case Insert(c) => InsertExactly(s, c);
      case Write(c) => WriteExactly(s, c);
      case _ => OtherStepsShrink(s, a);
    }
  }

  // ----- Which runs do -----

  /** No step of the run lets the members outgrow the seats or raises the seats. */
  ghost predicate OnlyShrinks(s: System, acts: seq<Action>)
    decreases |acts|
  {
    acts != [] && Enabled(s, acts[0]) ==>
      Shrinks(s.org, Apply(s, acts[0]).org) && OnlyShrinks(Apply(s, acts[0]), acts[1..])
  }

  ghost predicate EachFits(s: System, acts: seq<Action>)
    decreases |acts|
  {
    acts != [] && Enabled(s, acts[0]) ==> Fits(s, acts[0]) && EachFits(Apply(s, acts[0]), acts[1..])
  }

  /**
   * Members and seats are kept over a whole run if and only if each insert finds members below the seat
   * count and each write finds its usage still right.
   */
  lemma {:induction false} KeptExactlyWhenEachFits(s: System, acts: seq<Action>)
    requires Within(s)
    ensures OnlyShrinks(s, acts) <==> EachFits(s, acts)
    decreases |acts|
  {
    if acts == [] {
    } else if Enabled(s, acts[0]) {
      StepExactly(s, acts[0]);
      if Fits(s, acts[0]) { KeptExactlyWhenEachFits(Apply(s, acts[0]), acts[1..]); }
    }
  }

  /** Kept at every step means kept from the first state to the last. */
  lemma {:induction false} KeptAtTheEnd(s: System, acts: seq<Action>)
    requires Within(s) && OnlyShrinks(s, acts) && Exec(s, acts).Some?
    ensures Shrinks(s.org, Exec(s, acts).value.org)
    decreases |acts|
  {
    if acts == [] {
    } else {
      KeptAtTheEnd(Apply(s, acts[0]), acts[1..]);
    }
  }

  /** Every write finds the members it counted. */
  ghost predicate FreshWrites(s: System, acts: seq<Action>)
    decreases |acts|
  {
    acts != [] && Enabled(s, acts[0]) ==>
      && (acts[0].Write? ==> s.calls[acts[0].c].usage == Max(|s.org.members|, 1))
      && FreshWrites(Apply(s, acts[0]), acts[1..])
  }

  ghost predicate InsertsFit(s: System, acts: seq<Action>)
    decreases |acts|
  {
    acts != [] && Enabled(s, acts[0]) ==>
      (acts[0].Insert? ==> |s.org.members| < SeatCount(s)) && InsertsFit(Apply(s, acts[0]), acts[1..])
  }

  /** When no sync is overtaken between its count and its write, the inserts alone decide. */
  lemma {:induction false} InsertsAloneDecide(s: System, acts: seq<Action>)
    requires Within(s) && FreshWrites(s, acts)
    ensures OnlyShrinks(s, acts) <==> InsertsFit(s, acts)
    decreases |acts|
  {
    if acts == [] {
    } else if Enabled(s, acts[0]) {
      StepExactly(s, acts[0]);
      if Fits(s, acts[0]) { InsertsAloneDecide(Apply(s, acts[0]), acts[1..]); }
    }
  }

  // ----- One call alone -----

  lemma ExecStep(s: System, a: Action, rest: seq<Action>)
    requires Enabled(s, a)
    ensures Exec(s, [a] + rest) == Exec(Apply(s, a), rest)
  {
    assert ([a] + rest)[1..] == rest;
  }

  lemma {:induction false} ExecConcat(s: System, xs: seq<Action>, ys: seq<Action>)
    requires Exec(s, xs).Some?
    ensures Exec(s, xs + ys) == Exec(Exec(s, xs).value, ys)
    decreases |xs|
  {
    if xs == [] {
      assert xs + ys == ys;
    } else {
      assert (xs + ys)[1..] == xs[1..] + ys;
      ExecConcat(Apply(s, xs[0]), xs[1..], ys);
    }
  }

  function SyncSteps(c: nat): seq<Action> {
    [Count(c)] + [Write(c)]
  }

  function AddSteps(c: nat, user: User): seq<Action> {
    [ReadLimit(c, user)] + ([Check(c)] + ([Insert(c)] + SyncSteps(c)))
  }

  lemma SyncRuns(s: System, c: nat)
    requires c in s.calls && s.calls[c].Changed? && Billable(s.org.sub)
    ensures Exec(s, SyncSteps(c)) == Some(System(AfterSync(s.org, SYNCED), s.calls - {c}))
  {
    ExecStep(s, Count(c), [Write(c)]);
    var s1 := Apply(s, Count(c));
    ExecStep(s1, Write(c), []);
    assert [Write(c)] + [] == [Write(c)];
    assert Apply(s1, Write(c)).calls == s.calls - {c};
  }

  lemma CheckPasses(s: System, c: nat, user: User, rest: seq<Action>)
    requires c !in s.calls && user !in s.org.members && |s.org.members| < SeatCount(s)
    ensures Exec(s, [ReadLimit(c, user)] + ([Check(c)] + rest)) == Exec(s.(calls := s.calls[c := Checked(user)]), rest)
  {
    ExecStep(s, ReadLimit(c, user), [Check(c)] + rest);
    var s1 := Apply(s, ReadLimit(c, user));
    ExecStep(s1, Check(c), rest);
    assert Apply(s1, Check(c)).calls == s.calls[c := Checked(user)];
  }

  /** With nothing in between, the steps of an addition are the addition of SeatSync. */
  lemma SerialAdd(s: System, c: nat, user: User)
    requires c !in s.calls && Billable(s.org.sub)
    ensures var r := Exec(s, AddSteps(c, user));
      && (r.Some? <==> AddOk(s.org, user, SYNCED))
      && (r.Some? ==> r.value == System(AfterAdd(s.org, user, SYNCED), s.calls))
  {
    if Enabled(s, ReadLimit(c, user)) {
      ExecStep(s, ReadLimit(c, user), [Check(c)] + ([Insert(c)] + SyncSteps(c)));
      if |s.org.members| < SeatCount(s) {
        CheckPasses(s, c, user, [Insert(c)] + SyncSteps(c));
        var s2 := s.(calls := s.calls[c := Checked(user)]);
        ExecStep(s2, Insert(c), SyncSteps(c));
        SyncRuns(Apply(s2, Insert(c)), c);
        assert Apply(s2, Insert(c)).calls - {c} == s.calls;
      }
    }
  }

  /** An addition whose sync fails and whose deletion succeeds. */
  lemma SerialFailure(s: System, c: nat, user: User, sync: Sync)
    requires c !in s.calls && user !in s.org.members && |s.org.members| < SeatCount(s)
    requires !SyncOk(s.org.(members := s.org.members + {user}), sync) && sync.undo
    ensures Exec(s, [ReadLimit(c, user)] + ([Check(c)] + ([Insert(c)] + ([Fail(c)] + [Undo(c)]))))
         == Some(System(AfterAdd(s.org, user, sync), s.calls))
  {
    CheckPasses(s, c, user, [Insert(c)] + ([Fail(c)] + [Undo(c)]));
    var s2 := s.(calls := s.calls[c := Checked(user)]);
    ExecStep(s2, Insert(c), [Fail(c)] + [Undo(c)]);
    var s3 := Apply(s2, Insert(c));
    ExecStep(s3, Fail(c), [Undo(c)]);
    var s4 := Apply(s3, Fail(c));
    ExecStep(s4, Undo(c), []);
    assert [Undo(c)] + [] == [Undo(c)];
    assert Apply(s4, Undo(c)).org.members == s.org.members && Apply(s4, Undo(c)).calls == s.calls;
  }

  /** Likewise a removal. */
  lemma SerialRemove(s: System, c: nat, user: User)
    requires c !in s.calls && Billable(s.org.sub) && user in s.org.members
    ensures Exec(s, [Delete(c, user)] + SyncSteps(c)) == Some(System(AfterRemove(s.org, user, SYNCED), s.calls))
  {
    ExecStep(s, Delete(c, user), SyncSteps(c));
    SyncRuns(Apply(s, Delete(c, user)), c);
    assert Apply(s, Delete(c, user)).calls - {c} == s.calls;
  }

  // ----- Overlap breaks it: the seats grow without bound -----

  /** Nothing in flight, the first m users as members, and m seats. */
  ghost predicate Full(s: System, m: nat) {
    && s.calls == map[] && m >= 1 && s.org.members == Below(m)
    && Billable(s.org.sub) && s.org.sub.value.seatCount == m
  }

  /** Two additions are checked in the gap that a removal leaves. */
  function Gap(m: nat): seq<Action>
    requires m >= 1
  {
    [Delete(0, m - 1)] + ([ReadLimit(1, m - 1)] + ([Check(1)] + ([ReadLimit(2, m)] + [Check(2)])))
  }

  function Round(m: nat): seq<Action>
    requires m >= 1
  {
    Gap(m) + ([Insert(1)] + ([Insert(2)] + (SyncSteps(0) + (SyncSteps(1) + SyncSteps(2)))))
  }

  function Rounds(m: nat, n: nat): seq<Action>
    requires m >= 1
  {
    if n == 0 then [] else Rounds(m, n - 1) + Round(m + n - 1)
  }

  ghost function Gapped(s: System, m: nat): System
    requires m >= 1
  {
    System(s.org.(members := Below(m - 1)), map[0 := Changed(None), 1 := Checked(m - 1), 2 := Checked(m)])
  }

  lemma GapOpens(s: System, m: nat)
    requires Full(s, m)
    ensures Exec(s, Gap(m)) == Some(Gapped(s, m))
  {
    var a2 := [ReadLimit(2, m)] + [Check(2)];
    var a1 := [ReadLimit(1, m - 1)] + ([Check(1)] + a2);
    ExecStep(s, Delete(0, m - 1), a1);
    var s1 := Apply(s, Delete(0, m - 1));
    assert s1.org.members == Below(m - 1);
    CheckPasses(s1, 1, m - 1, a2);
    var s2 := s1.(calls := s1.calls[1 := Checked(m - 1)]);
    CheckPasses(s2, 2, m, []);
    assert [Check(2)] + [] == [Check(2)];
    assert s2.calls[2 := Checked(m)] == Gapped(s, m).calls;
  }

  ghost function Filled(s: System, m: nat): System
    requires m >= 1
  {
    System(s.org.(members := Below(m + 1)), map[0 := Changed(None), 1 := Changed(Some(m - 1)), 2 := Changed(Some(m))])
  }

  lemma GapFills(s: System, m: nat, rest: seq<Action>)
    requires m >= 1
    ensures Exec(Gapped(s, m), [Insert(1)] + ([Insert(2)] + rest)) == Exec(Filled(s, m), rest)
  {
    var t := Gapped(s, m);
    ExecStep(t, Insert(1), [Insert(2)] + rest);
    var t1 := Apply(t, Insert(1));
    ExecStep(t1, Insert(2), rest);
    assert Apply(t1, Insert(2)).org.members == Below(m + 1);
    assert Apply(t1, Insert(2)).calls == Filled(s, m).calls;
  }

  lemma AllSync(s: System, m: nat)
    requires Full(s, m)
    ensures Exec(Filled(s, m), SyncSteps(0) + (SyncSteps(1) + SyncSteps(2))).Some?
    ensures Full(Exec(Filled(s, m), SyncSteps(0) + (SyncSteps(1) + SyncSteps(2))).value, m + 1)
  {
    hide SyncSteps;
    var t := Filled(s, m);
    SyncRuns(t, 0);
    ExecConcat(t, SyncSteps(0), SyncSteps(1) + SyncSteps(2));
    var t1 := Exec(t, SyncSteps(0)).value;
    SyncRuns(t1, 1);
    ExecConcat(t1, SyncSteps(1), SyncSteps(2));
    var t2 := Exec(t1, SyncSteps(1)).value;
    SyncRuns(t2, 2);
    assert t2.calls - {2} == map[];
  }

  lemma OneRound(s: System, m: nat)
    requires Full(s, m)
    ensures Exec(s, Round(m)).Some? && Full(Exec(s, Round(m)).value, m + 1)
  {
    hide Gap;
    hide SyncSteps;
    var syncs := SyncSteps(0) + (SyncSteps(1) + SyncSteps(2));
    GapOpens(s, m);
    ExecConcat(s, Gap(m), [Insert(1)] + ([Insert(2)] + syncs));
    GapFills(s, m, syncs);
    AllSync(s, m);
  }

  /** Every step belongs to one of three calls, so no more than three are ever open. */
  ghost predicate OfThree(acts: seq<Action>) {
    forall i | 0 <= i < |acts| :: acts[i].c < 3
  }

  lemma RoundOfThree(m: nat)
    requires m >= 1
    ensures OfThree(Round(m))
  {
  }

  /** The run ends with m members on m seats. */
  ghost predicate Fills(s: System, acts: seq<Action>, m: nat) {
    Exec(s, acts).Some? && Full(Exec(s, acts).value, m)
  }

  lemma NothingDone(s: System, m: nat)
    requires Full(s, m)
    ensures Fills(s, [], m)
  {
  }

  lemma OneMoreRound(s: System, before: seq<Action>, m: nat)
    requires Fills(s, before, m)
    ensures Fills(s, before + Round(m), m + 1)
  {
    hide Round;
    ExecConcat(s, before, Round(m));
    OneRound(Exec(s, before).value, m);
  }

  lemma {:induction false} RoundsOfThree(m: nat, n: nat)
    requires m >= 1
    ensures OfThree(Rounds(m, n))
  {
    hide Round;
    if n == 0 {
    } else {
      RoundsOfThree(m, n - 1);
      RoundOfThree(m + n - 1);
    }
  }

  /**
   * From m members on m seats, and with three calls at a time, a run takes members and seats to m + n,
   * for every n.
   */
  lemma {:induction false} SeatsHaveNoBound(s: System, m: nat, n: nat)
    requires Full(s, m)
    ensures Fills(s, Rounds(m, n), m + n) && OfThree(Rounds(m, n))
    decreases n
  {
    hide Round;
    hide Fills;
    RoundsOfThree(m, n);
    if n == 0 {
      NothingDone(s, m);
    } else {
      SeatsHaveNoBound(s, m, n - 1);
      OneMoreRound(s, Rounds(m, n - 1), m + n - 1);
    }
  }

  // ----- Fresh writes are needed -----

  /** A run whose inserts all find a free seat. */
  ghost predicate Reaches(s: System, acts: seq<Action>, t: System) {
    Exec(s, acts) == Some(t) && InsertsFit(s, acts)
  }

  lemma ReachStep(s: System, a: Action, rest: seq<Action>, t: System)
    requires Enabled(s, a) && (a.Insert? ==> |s.org.members| < SeatCount(s)) && Reaches(Apply(s, a), rest, t)
    ensures Reaches(s, [a] + rest, t)
  {
    assert ([a] + rest)[1..] == rest;
  }

  /** Nothing in flight, and room for two more members. */
  ghost predicate RoomForTwo(s: System, m: nat) {
    && s.calls == map[] && m >= 1 && s.org.members == Below(m)
    && Billable(s.org.sub) && s.org.sub.value.seatCount >= m + 2
  }

  /** One addition counts, a second one runs from its check to its write, and then the first writes. */
  function Overtaken(m: nat): seq<Action> {
    [ReadLimit(0, m)] + ([Check(0)] + ([Insert(0)] + ([Count(0)] + SecondAdds(m))))
  }

  function SecondAdds(m: nat): seq<Action> {
    [ReadLimit(1, m + 1)] + ([Check(1)] + ([Insert(1)] + ([Count(1)] + ([Write(1)] + [Write(0)]))))
  }

  ghost function FirstCounted(s: System, m: nat): System {
    System(s.org.(members := Below(m + 1)), map[0 := Counted(Some(m), m + 1)])
  }

  ghost function Outgrown(s: System, m: nat): System
    requires s.org.sub.Some?
  {
    System(s.org.(members := Below(m + 2), sub := Some(s.org.sub.value.(seatCount := m + 1))), map[])
  }

  ghost function SecondInserted(s: System, m: nat): System {
    System(s.org.(members := Below(m + 2)), map[0 := Counted(Some(m), m + 1), 1 := Changed(Some(m + 1))])
  }

  lemma WritesOvertake(s: System, m: nat)
    requires RoomForTwo(s, m)
    ensures Reaches(SecondInserted(s, m), [Count(1)] + ([Write(1)] + [Write(0)]), Outgrown(s, m))
  {
    var t := SecondInserted(s, m);
    var t1 := Apply(t, Count(1));
    var t2 := Apply(t1, Write(1));
    assert Apply(t2, Write(0)).calls == map[];
    assert Reaches(Apply(t2, Write(0)), [], Outgrown(s, m));
    ReachStep(t2, Write(0), [], Outgrown(s, m));
    assert [Write(0)] + [] == [Write(0)];
    ReachStep(t1, Write(1), [Write(0)], Outgrown(s, m));
    ReachStep(t, Count(1), [Write(1)] + [Write(0)], Outgrown(s, m));
  }

  ghost function SecondChecked(s: System, m: nat): System {
    System(s.org.(members := Below(m + 1)), map[0 := Counted(Some(m), m + 1), 1 := Checked(m + 1)])
  }

  lemma SecondInserts(s: System, m: nat)
    requires RoomForTwo(s, m)
    ensures Reaches(SecondChecked(s, m), [Insert(1)] + ([Count(1)] + ([Write(1)] + [Write(0)])), Outgrown(s, m))
  {
    var t := SecondChecked(s, m);
    assert Apply(t, Insert(1)).org.members == Below(m + 2);
    assert Apply(t, Insert(1)) == SecondInserted(s, m);
    WritesOvertake(s, m);
    ReachStep(t, Insert(1), [Count(1)] + ([Write(1)] + [Write(0)]), Outgrown(s, m));
  }

  lemma SecondOvertakes(s: System, m: nat)
    requires RoomForTwo(s, m)
    ensures Reaches(FirstCounted(s, m), SecondAdds(m), Outgrown(s, m))
  {
    var t := FirstCounted(s, m);
    var t1 := Apply(t, ReadLimit(1, m + 1));
    assert Apply(t1, Check(1)) == SecondChecked(s, m);
    SecondInserts(s, m);
    ReachStep(t1, Check(1), [Insert(1)] + ([Count(1)] + ([Write(1)] + [Write(0)])), Outgrown(s, m));
    ReachStep(t, ReadLimit(1, m + 1), [Check(1)] + ([Insert(1)] + ([Count(1)] + ([Write(1)] + [Write(0)]))), Outgrown(s, m));
  }

  /**
   * Without fresh writes the inserts do not decide: in this run both find a free seat, and the members
   * still outgrow the seats, because the first sync writes what it counted before the second insert.
   */
  lemma StaleWriteOutgrows(s: System, m: nat)
    requires RoomForTwo(s, m)
    ensures Within(s) && Exec(s, Overtaken(m)).Some? && InsertsFit(s, Overtaken(m))
    ensures !Within(Exec(s, Overtaken(m)).value) && !FreshWrites(s, Overtaken(m))
  {
    hide SecondAdds;
    var s1 := Apply(s, ReadLimit(0, m));
    var s2 := Apply(s1, Check(0));
    var s3 := Apply(s2, Insert(0));
    assert s3.org.members == Below(m + 1);
    assert Apply(s3, Count(0)) == FirstCounted(s, m);
    SecondOvertakes(s, m);
    ReachStep(s3, Count(0), SecondAdds(m), Outgrown(s, m));
    ReachStep(s2, Insert(0), [Count(0)] + SecondAdds(m), Outgrown(s, m));
    ReachStep(s1, Check(0), [Insert(0)] + ([Count(0)] + SecondAdds(m)), Outgrown(s, m));
    ReachStep(s, ReadLimit(0, m), [Check(0)] + ([Insert(0)] + ([Count(0)] + SecondAdds(m))), Outgrown(s, m));
    if FreshWrites(s, Overtaken(m)) {
      InsertsAloneDecide(s, Overtaken(m));
      KeptAtTheEnd(s, Overtaken(m));
    }
  }
}

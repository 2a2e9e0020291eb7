/** exec, publish, remove and gc on one READY session at the same time (session.rs): `flock`
    leases on the session root, each followed by a second look at the record. Any number of
    processes may run, any of them may die at any step, and a program started by exec keeps the
    lease its parent took even when the parent is dead. */
module SessionLeases {
  import opened Base

  type Pid = nat

  /** What the record says that matters here: READY or TOMBSTONED, and whether its publish
      journal is idle (`stage` zero) or in one of its other stages. */
  datatype Record = Record(ready: bool, stage: nat)

  datatype Place = AtRoot | AtTombstone | Absent

  /** `Sweep` is the removal of private loose objects by gc, `Complete` the removal of a
      tombstoned session by remove or gc. */
  datatype Role = Exec | Publish | Remove | Sweep | Complete

  datatype Stage = Looked | Opened | Leased | Validated | Running(parent: bool) | Finished | Switched | Promoted | Cleared

  /** A process: what it does, how far it is, and the record it read last. */
  datatype Process = Process(role: Role, stage: Stage, seen: Record)

  datatype State = State(
    record: Option<Record>, place: Place, entries: nat,
    exclusive: Option<Pid>, shared: set<Pid>, processes: map<Pid, Process>)

  datatype Action =
    | Look(pid: Pid, role: Role)
    | Open(pid: Pid)
    | Lock(pid: Pid)
    | Validate(pid: Pid)
    | Spawn(pid: Pid)
    | Work(pid: Pid, entries: nat)
    | ParentDies(pid: Pid)
    | ProgramExits(pid: Pid)
    | WriteJournal(pid: Pid, stage: nat)
    | UnlinkLoose(pid: Pid)
    | Tombstone(pid: Pid)
    | DropLease(pid: Pid)
    | FindNothing(pid: Pid)
    | Promote(pid: Pid)
    | Unlink(pid: Pid)
    | Clear(pid: Pid)
    | RemoveRecord(pid: Pid)
    | Die(pid: Pid)

  /** What a process demands of the record it reads first. */
  predicate Admits(role: Role, record: Record) {
    match role
    case Publish => record.ready
    case Complete => !record.ready
    case _ => record.ready && record.stage == 0
  }

  predicate At(s: State, pid: Pid, role: Role, stage: Stage) {
    pid in s.processes && s.processes[pid].role == role && s.processes[pid].stage == stage
  }

  /** The lease is free for this kind of holder. */
  predicate Free(s: State, role: Role) {
    s.exclusive.None? && (role.Exec? || s.shared == {})
  }

  predicate Enabled(s: State, a: Action) {
    match a
    case Look(pid, role) => pid !in s.processes && s.record.Some? && Admits(role, s.record.value)
    case Open(pid) =>
      && pid in s.processes && s.processes[pid].stage.Looked?
      && (s.place.AtRoot? || (s.place.AtTombstone? && s.processes[pid].role.Complete?))
    case Lock(pid) => pid in s.processes && s.processes[pid].stage.Opened? && Free(s, s.processes[pid].role)
    case Validate(pid) =>
      && pid in s.processes && s.processes[pid].stage.Leased? && s.record == Some(s.processes[pid].seen)
      && (s.place.AtRoot? || (s.place.AtTombstone? && s.processes[pid].role.Complete?))
    case Spawn(pid) => At(s, pid, Exec, Validated)
    case Work(pid, _) => pid in s.processes && s.processes[pid].role.Exec? && s.processes[pid].stage.Running?
    case ParentDies(pid) => At(s, pid, Exec, Running(true))
    case ProgramExits(pid) => pid in s.processes && s.processes[pid].role.Exec? && s.processes[pid].stage.Running?
    case WriteJournal(pid, _) => At(s, pid, Publish, Validated) && s.record == Some(s.processes[pid].seen)
    case UnlinkLoose(pid) => At(s, pid, Sweep, Validated) && 0 < s.entries
    case Tombstone(pid) => At(s, pid, Remove, Validated) && s.record == Some(s.processes[pid].seen)
    case DropLease(pid) => At(s, pid, Complete, Switched)
    case FindNothing(pid) => At(s, pid, Complete, Looked) && s.place.Absent?
    case Promote(pid) => At(s, pid, Complete, Validated)
    case Unlink(pid) => At(s, pid, Complete, Promoted) && 0 < s.entries
    case Clear(pid) => At(s, pid, Complete, Promoted) && s.entries == 0
    case RemoveRecord(pid) => At(s, pid, Complete, Cleared) && s.record == Some(s.processes[pid].seen)
    case Die(pid) => pid in s.processes && !s.processes[pid].stage.Running?
  }

  function Put(s: State, pid: Pid, process: Process): State {
    s.(processes := s.processes[pid := process])
  }

  function Staged(s: State, pid: Pid, stage: Stage): State
    requires pid in s.processes
  {
    Put(s, pid, s.processes[pid].(stage := stage))
  }

  /** The last holder of the descriptor is gone, and the lease with it. */
  function Released(s: State, pid: Pid): State {
    s.(shared := s.shared - {pid}, exclusive := if s.exclusive == Some(pid) then None else s.exclusive)
  }

  function Ended(s: State, pid: Pid): State {
    Released(s, pid).(processes := s.processes - {pid})
  }

  function Apply(s: State, a: Action): State
    requires Enabled(s, a)
  {
    match a
    case Look(pid, role) => Put(s, pid, Process(role, Looked, s.record.value))
    case Open(pid) => Staged(s, pid, Opened)
    case Lock(pid) =>
      if s.processes[pid].role.Exec? then Staged(s, pid, Leased).(shared := s.shared + {pid})
      else Staged(s, pid, Leased).(exclusive := Some(pid))
    case Validate(pid) => Staged(s, pid, Validated)
    case Spawn(pid) => Staged(s, pid, Running(true))
    case Work(_, entries) => s.(entries := entries)
    case ParentDies(pid) => Staged(s, pid, Running(false))
    case ProgramExits(pid) =>
      if s.processes[pid].stage.parent then Staged(s, pid, Finished) else Ended(s, pid)
    case WriteJournal(pid, stage) =>
      var record := s.processes[pid].seen.(stage := stage);
      Put(s, pid, Process(Publish, Validated, record)).(record := Some(record))
    case UnlinkLoose(_) => s.(entries := s.entries - 1)
    case Tombstone(pid) =>
      var record := s.processes[pid].seen.(ready := false);
      Put(s, pid, Process(Complete, Switched, record)).(record := Some(record))
    case DropLease(pid) => Released(Staged(s, pid, Looked), pid)
    case FindNothing(pid) => Staged(s, pid, Cleared)
    case Promote(pid) => Staged(s, pid, Promoted).(place := AtTombstone)
    case Unlink(_) => s.(entries := s.entries - 1)
    case Clear(pid) => Staged(s, pid, Cleared).(place := Absent)
    case RemoveRecord(pid) => Ended(s, pid).(record := None)
    case Die(pid) => Ended(s, pid)
  }

  /** A publish past its validation, or an exec past its validation up to the end of its program. */
  predicate Working(process: Process) {
    || (process.role.Publish? && process.stage.Validated?)
    || (process.role.Exec? && (process.stage.Validated? || process.stage.Running?))
  }

  predicate Holding(process: Process) {
    !process.stage.Looked? && !process.stage.Opened? && !process.stage.Cleared?
  }

  ghost predicate ProcessInv(s: State, pid: Pid)
    requires pid in s.processes
  {
    var p := s.processes[pid];
    && (p.role.Complete? || !(p.stage.Switched? || p.stage.Promoted? || p.stage.Cleared?))
    && (p.stage.Running? || p.stage.Finished? ==> p.role.Exec?)
    && Admits(p.role, p.seen)
    && (Holding(p) && p.role.Exec? ==> pid in s.shared)
    && (Holding(p) && !p.role.Exec? ==> s.exclusive == Some(pid))
    && (p.stage.Validated? || p.stage.Running? || p.stage.Switched? || p.stage.Promoted? ==> s.record == Some(p.seen))
    && (p.stage.Switched? || (p.stage.Validated? && p.role.Complete?) ==> !s.place.Absent?)
    && (p.stage.Promoted? ==> s.place.AtTombstone?)
    && (p.stage.Cleared? ==> s.place.Absent?)
  }

  ghost predicate GlobalInv(s: State) {
    && (s.record.None? ==> s.place.Absent?)
    && (s.record.Some? && s.record.value.ready ==> s.place.AtRoot?)
    && (s.record.Some? && s.record.value.stage != 0 ==> s.record.value.ready)
    && (s.exclusive.Some? ==> s.shared == {})
    && (s.exclusive.Some? ==> s.exclusive.value in s.processes && !s.processes[s.exclusive.value].role.Exec?)
    && (forall pid :: pid in s.shared ==> pid in s.processes && s.processes[pid].role.Exec?)
  }

  ghost predicate Inv(s: State) {
    && GlobalInv(s)
    && (forall pid :: pid in s.processes ==> ProcessInv(s, pid))
  }

  lemma GlobalStepMoving(s: State, a: Action)
    requires GlobalInv(s) && Enabled(s, a) && Moves(a) && (a.pid in s.processes ==> ProcessInv(s, a.pid))
    ensures GlobalInv(Apply(s, a))
  {
  }

  lemma GlobalStepStanding(s: State, a: Action)
    requires GlobalInv(s) && Enabled(s, a) && !Moves(a) && (a.pid in s.processes ==> ProcessInv(s, a.pid))
    ensures GlobalInv(Apply(s, a))
  {
  }

  lemma GlobalStep(s: State, a: Action)
    requires GlobalInv(s) && Enabled(s, a) && (a.pid in s.processes ==> ProcessInv(s, a.pid))
    ensures GlobalInv(Apply(s, a))
  {
    hide *;
    if Moves(a) {
      GlobalStepMoving(s, a);
    } else {
      GlobalStepStanding(s, a);
    }
  }

  /** The acting process keeps its own invariant. */
  lemma ActorStep(s: State, a: Action)
    requires GlobalInv(s) && Enabled(s, a) && (a.pid in s.processes ==> ProcessInv(s, a.pid))
    requires a.pid in Apply(s, a).processes
    ensures ProcessInv(Apply(s, a), a.pid)
  {
  }

  /** Steps that change the record or the place of the root. */
  predicate Moves(a: Action) {
    a.WriteJournal? || a.Tombstone? || a.Promote? || a.Clear? || a.RemoveRecord?
  }

  lemma OtherStepMoving(s: State, a: Action, q: Pid)
    requires GlobalInv(s) && Enabled(s, a) && Moves(a) && (a.pid in s.processes ==> ProcessInv(s, a.pid))
    requires q != a.pid && q in s.processes && ProcessInv(s, q)
    ensures q in Apply(s, a).processes && ProcessInv(Apply(s, a), q)
  {
  }

  lemma OtherStepStanding(s: State, a: Action, q: Pid)
    requires GlobalInv(s) && Enabled(s, a) && !Moves(a) && (a.pid in s.processes ==> ProcessInv(s, a.pid))
    requires q != a.pid && q in s.processes && ProcessInv(s, q)
    ensures q in Apply(s, a).processes && ProcessInv(Apply(s, a), q)
  {
  }

  /** Every other process keeps its own: what it relies on is protected by its lease. */
  lemma OtherStep(s: State, a: Action, q: Pid)
    requires GlobalInv(s) && Enabled(s, a) && (a.pid in s.processes ==> ProcessInv(s, a.pid))
    requires q != a.pid && q in s.processes && ProcessInv(s, q)
    ensures q in Apply(s, a).processes && ProcessInv(Apply(s, a), q)
  {
    hide *;
    if Moves(a) {
      OtherStepMoving(s, a, q);
    } else {
      OtherStepStanding(s, a, q);
    }
  }

  lemma StepKeepsInv(s: State, a: Action)
    requires Inv(s) && Enabled(s, a)
    ensures Inv(Apply(s, a))
  {
    GlobalStep(s, a);
    var t := Apply(s, a);
    forall q | q in t.processes
      ensures ProcessInv(t, q)
    {
      if q == a.pid {
        ActorStep(s, a);
      } else {
        SameProcess(s, a, q);
        OtherStep(s, a, q);
      }
    }
  }

  lemma SameProcess(s: State, a: Action, q: Pid)
    requires Enabled(s, a) && q != a.pid
    ensures q in Apply(s, a).processes <==> q in s.processes
    ensures q in s.processes ==> Apply(s, a).processes[q] == s.processes[q]
  {
  }

  // ---- Runs ----

  ghost predicate Initial(s: State) {
    s.record == Some(Record(true, 0)) && s.place.AtRoot? && s.exclusive.None? && s.shared == {} && s.processes == map[]
  }

  /** Actions in any order by any processes; an action that is not enabled ends the run. */
  function Execute(s: State, actions: seq<Action>): Option<State> {
    if actions == [] then Some(s)
    else
      var before := Execute(s, actions[..|actions| - 1]);
      var a := actions[|actions| - 1];
      if before.Some? && Enabled(before.value, a) then Some(Apply(before.value, a)) else None
  }

  lemma {:induction false} RunKeepsInv(s: State, actions: seq<Action>)
    requires Initial(s) && Execute(s, actions).Some?
    ensures Inv(Execute(s, actions).value)
    decreases |actions|
  {
    if actions != [] {
      var front := actions[..|actions| - 1];
      RunKeepsInv(s, front);
      StepKeepsInv(Execute(s, front).value, actions[|actions| - 1]);
    }
  }

  /** In every reachable state: a journal that is not idle belongs to a READY record, and whoever
      works under a lease works in a READY session whose root is in place; while an exec'd program
      lives, even an orphaned one, the journal is idle. */
  lemma WorkersAreSafe(s: State, actions: seq<Action>, pid: Pid)
    requires Initial(s) && Execute(s, actions).Some?
    ensures
      var t := Execute(s, actions).value;
      && (t.record.Some? && t.record.value.stage != 0 ==> t.record.value.ready)
      && (pid in t.processes && Working(t.processes[pid]) ==>
          t.record == Some(t.processes[pid].seen) && t.record.value.ready && t.place.AtRoot?)
      && (pid in t.processes && t.processes[pid].stage.Running? ==> t.record == Some(Record(true, 0)))
  {
    RunKeepsInv(s, actions);
    var t := Execute(s, actions).value;
    if pid in t.processes {
      assert ProcessInv(t, pid);
    }
  }

  predicate Destroys(a: Action) {
    a.UnlinkLoose? || a.Promote? || a.Unlink? || a.Clear?
  }

  /** In every reachable state: no step renames the tree or unlinks anything in it while another
      process works there; the step that tombstones finds an idle journal and nobody at work; and
      the journal changes only under a lease that nobody else shares. */
  lemma DestructionIsExclusive(s: State, actions: seq<Action>, a: Action, worker: Pid)
    requires Initial(s) && Execute(s, actions).Some? && Enabled(Execute(s, actions).value, a)
    ensures
      var t := Execute(s, actions).value;
      && (Destroys(a) || a.Tombstone? || a.WriteJournal? ==>
          worker in t.processes && worker != a.pid ==> !Working(t.processes[worker]))
      && (a.Tombstone? ==> t.record == Some(Record(true, 0)))
      && (Destroys(a) && !a.UnlinkLoose? ==> t.record == Some(Record(false, 0)))
      && (a.RemoveRecord? ==> t.place.Absent?)
  {
    RunKeepsInv(s, actions);
    hide Execute;
    ExclusiveIn(Execute(s, actions).value, a, worker);
  }

  lemma ExclusiveIn(t: State, a: Action, worker: Pid)
    requires Inv(t) && Enabled(t, a)
    ensures Destroys(a) || a.Tombstone? || a.WriteJournal? ==>
      worker in t.processes && worker != a.pid ==> !Working(t.processes[worker])
    ensures a.Tombstone? ==> t.record == Some(Record(true, 0))
    ensures Destroys(a) && !a.UnlinkLoose? ==> t.record == Some(Record(false, 0))
    ensures a.RemoveRecord? ==> t.place.Absent?
  {
    assert a.pid in t.processes ==> ProcessInv(t, a.pid);
    if worker in t.processes {
      assert ProcessInv(t, worker);
    }
    hide Inv;
  }

  /** Once a record is TOMBSTONED, it never changes again until it is removed, and nobody who was
      let in on the READY record is at work any more. */
  lemma TombstonedIsFinal(s: State, actions: seq<Action>, a: Action, pid: Pid)
    requires Initial(s) && Execute(s, actions).Some? && Enabled(Execute(s, actions).value, a)
    requires Execute(s, actions).value.record == Some(Record(false, 0))
    ensures
      var t := Execute(s, actions).value;
      && (Apply(t, a).record == t.record || Apply(t, a).record.None?)
      && (pid in t.processes ==> !Working(t.processes[pid]))
  {
    RunKeepsInv(s, actions);
    hide Execute;
    FinalIn(Execute(s, actions).value, a, pid);
  }

  lemma FinalIn(t: State, a: Action, pid: Pid)
    requires Inv(t) && Enabled(t, a) && t.record == Some(Record(false, 0))
    ensures Apply(t, a).record == t.record || Apply(t, a).record.None?
    ensures pid in t.processes ==> !Working(t.processes[pid])
  {
    assert a.pid in t.processes ==> ProcessInv(t, a.pid);
    if pid in t.processes {
      assert ProcessInv(t, pid);
    }
    hide Inv;
  }

  /** A program started by exec survives its parent with the lease: whatever else happens, removal
      cannot lock the root until the program itself has ended. */
  lemma OrphanKeepsLease(s: State, actions: seq<Action>, orphan: Pid, other: Pid)
    requires Initial(s) && Execute(s, actions).Some?
    requires At(Execute(s, actions).value, orphan, Exec, Running(false))
    ensures
      var t := Execute(s, actions).value;
      other in t.processes && !t.processes[other].role.Exec? ==> !Enabled(t, Lock(other)) && !Holding(t.processes[other])
  {
    RunKeepsInv(s, actions);
    var t := Execute(s, actions).value;
    assert ProcessInv(t, orphan);
    if other in t.processes {
      assert ProcessInv(t, other);
    }
  }

  // ---- Nothing is stuck for good ----

  lemma {:induction false} ExecuteMore(s: State, first: seq<Action>, more: seq<Action>)
    requires Execute(s, first).Some?
    ensures Execute(s, first + more) == Execute(Execute(s, first).value, more)
    decreases |more|
  {
    if more == [] {
      assert first + more == first;
    } else {
      ExecuteMore(s, first, more[..|more| - 1]);
      assert (first + more)[..|first + more| - 1] == first + more[..|more| - 1];
    }
  }

  lemma ExecuteOne(s: State, done: seq<Action>, a: Action) returns (longer: seq<Action>)
    requires Execute(s, done).Some? && Enabled(Execute(s, done).value, a)
    ensures longer == done + [a] && Execute(s, longer) == Some(Apply(Execute(s, done).value, a))
  {
    longer := done + [a];
    assert longer[..|longer| - 1] == done;
  }

  /** Every process can come to its end, an exec'd program by exiting; the session stays as it is. */
  lemma {:induction false} EndAll(s: State) returns (more: seq<Action>)
    requires Inv(s)
    ensures Execute(s, more) == Some(State(s.record, s.place, s.entries, None, {}, map[]))
    decreases |s.processes|
  {
    if s.processes == map[] {
      more := [];
      assert s.shared == {};
      assert s.exclusive.None?;
    } else {
      var pid :| pid in s.processes;
      more := EndOne(s, pid);
      var t := Execute(s, more).value;
      assert |t.processes.Keys| < |s.processes.Keys|;
      var rest := EndAll(t);
      ExecuteMore(s, more, rest);
      more := more + rest;
    }
  }

  lemma EndOne(s: State, pid: Pid) returns (more: seq<Action>)
    requires Inv(s) && pid in s.processes
    ensures Execute(s, more).Some? && Inv(Execute(s, more).value)
    ensures
      var t := Execute(s, more).value;
      t.record == s.record && t.place == s.place && t.entries == s.entries && t.processes == s.processes - {pid}
  {
    more := [];
    var t := s;
    assert Execute(s, more) == Some(s) && ProcessInv(s, pid);
    hide Execute, Inv;
    if s.processes[pid].stage.Running? {
      StepKeepsInv(t, ProgramExits(pid));
      more := ExecuteOne(s, more, ProgramExits(pid));
      t := Apply(t, ProgramExits(pid));
    }
    if pid in t.processes {
      StepKeepsInv(t, Die(pid));
      more := ExecuteOne(s, more, Die(pid));
    }
  }

  /** A session without processes. */
  function Quiet(record: Record, place: Place, entries: nat): State {
    State(Some(record), place, entries, None, {}, map[])
  }

  /** A process that has validated under its lease, in a session without others. */
  function Alone(record: Record, place: Place, entries: nat, role: Role, stage: Stage): State {
    State(Some(record), place, entries, Some(0), {}, map[0 := Process(role, stage, record)])
  }

  /** One that has not got the lease yet. */
  function Entering(record: Record, place: Place, entries: nat, role: Role, stage: Stage): State {
    State(Some(record), place, entries, None, {}, map[0 := Process(role, stage, record)])
  }

  lemma EnterUnlocked(record: Record, place: Place, entries: nat, role: Role)
    requires Admits(role, record) && (place.AtRoot? || (place.AtTombstone? && role.Complete?))
    ensures
      var s, looked := Quiet(record, place, entries), Entering(record, place, entries, role, Looked);
      && Enabled(s, Look(0, role)) && Apply(s, Look(0, role)) == looked
      && Enabled(looked, Open(0)) && Apply(looked, Open(0)) == Entering(record, place, entries, role, Opened)
  {
    var looked := Entering(record, place, entries, role, Looked);
    assert Apply(looked, Open(0)).processes == map[0 := Process(role, Opened, record)];
  }

  lemma EnterLocked(record: Record, place: Place, entries: nat, role: Role)
    requires !role.Exec? && (place.AtRoot? || (place.AtTombstone? && role.Complete?))
    ensures
      var waiting, leased := Entering(record, place, entries, role, Opened), Alone(record, place, entries, role, Leased);
      && Enabled(waiting, Lock(0)) && Apply(waiting, Lock(0)) == leased
      && Enabled(leased, Validate(0)) && Apply(leased, Validate(0)) == Alone(record, place, entries, role, Validated)
  {
    var waiting, leased := Entering(record, place, entries, role, Opened), Alone(record, place, entries, role, Leased);
    assert Apply(waiting, Lock(0)).processes == map[0 := Process(role, Leased, record)];
    assert Apply(leased, Validate(0)).processes == map[0 := Process(role, Validated, record)];
  }

  lemma Enter(record: Record, place: Place, entries: nat, role: Role) returns (more: seq<Action>)
    requires Admits(role, record) && !role.Exec? && (place.AtRoot? || (place.AtTombstone? && role.Complete?))
    ensures Execute(Quiet(record, place, entries), more) == Some(Alone(record, place, entries, role, Validated))
  {
    var s := Quiet(record, place, entries);
    EnterUnlocked(record, place, entries, role);
    EnterLocked(record, place, entries, role);
    hide Enabled, Apply;
    more := ExecuteOne(s, [], Look(0, role));
    hide Execute;
    more := ExecuteOne(s, more, Open(0));
    more := ExecuteOne(s, more, Lock(0));
    more := ExecuteOne(s, more, Validate(0));
  }

  lemma {:induction false} UnlinkAll(record: Record, entries: nat) returns (more: seq<Action>)
    ensures Execute(Alone(record, AtTombstone, entries, Complete, Promoted), more)
      == Some(Alone(record, AtTombstone, 0, Complete, Promoted))
  {
    var s := Alone(record, AtTombstone, entries, Complete, Promoted);
    more := [];
    if entries > 0 {
      more := ExecuteOne(s, more, Unlink(0));
      var rest := UnlinkAll(record, entries - 1);
      ExecuteMore(s, more, rest);
      more := more + rest;
    }
  }

  /** From its validation on, a completion can run to its end. */
  lemma CompleteAlone(record: Record, place: Place, entries: nat) returns (more: seq<Action>)
    requires !place.Absent? && Admits(Complete, record)
    ensures Execute(Alone(record, place, entries, Complete, Validated), more).Some?
    ensures Execute(Alone(record, place, entries, Complete, Validated), more).value.record.None?
  {
    var s := Alone(record, place, entries, Complete, Validated);
    more := ExecuteOne(s, [], Promote(0));
    assert Execute(s, more).value.processes == map[0 := Process(Complete, Promoted, record)];
    var unlinks := UnlinkAll(record, entries);
    ExecuteMore(s, more, unlinks);
    more := ExecuteOne(s, more + unlinks, Clear(0));
    more := ExecuteOne(s, more, RemoveRecord(0));
  }

  lemma CompleteQuiet(record: Record, place: Place, entries: nat) returns (more: seq<Action>)
    requires Admits(Complete, record)
    ensures Execute(Quiet(record, place, entries), more).Some?
    ensures Execute(Quiet(record, place, entries), more).value.record.None?
  {
    var s := Quiet(record, place, entries);
    if place.Absent? {
      more := ExecuteOne(s, [], Look(0, Complete));
      more := ExecuteOne(s, more, FindNothing(0));
      more := ExecuteOne(s, more, RemoveRecord(0));
    } else {
      more := Enter(record, place, entries, Complete);
      var rest := CompleteAlone(record, place, entries);
      ExecuteMore(s, more, rest);
      more := more + rest;
    }
  }

  /** A READY session with an idle journal can be removed by one process, which gives its lease back
      between the two halves. */
  lemma RemoveQuiet(entries: nat) returns (more: seq<Action>)
    ensures Execute(Quiet(Record(true, 0), AtRoot, entries), more).Some?
    ensures Execute(Quiet(Record(true, 0), AtRoot, entries), more).value.record.None?
  {
    var s, tombstoned := Quiet(Record(true, 0), AtRoot, entries), Record(false, 0);
    more := Enter(Record(true, 0), AtRoot, entries, Remove);
    SwitchSteps(entries);
    EnterUnlocked(tombstoned, AtRoot, entries, Complete);
    EnterLocked(tombstoned, AtRoot, entries, Complete);
    hide Execute, Enabled, Apply;
    more := ExecuteOne(s, more, Tombstone(0));
    more := ExecuteOne(s, more, DropLease(0));
    more := ExecuteOne(s, more, Open(0));
    more := ExecuteOne(s, more, Lock(0));
    more := ExecuteOne(s, more, Validate(0));
    var rest := CompleteAlone(tombstoned, AtRoot, entries);
    ExecuteMore(s, more, rest);
    more := more + rest;
  }

  lemma SwitchSteps(entries: nat)
    ensures
      var validated := Alone(Record(true, 0), AtRoot, entries, Remove, Validated);
      var switched := Alone(Record(false, 0), AtRoot, entries, Complete, Switched);
      && Enabled(validated, Tombstone(0)) && Apply(validated, Tombstone(0)) == switched
      && Enabled(switched, DropLease(0))
      && Apply(switched, DropLease(0)) == Entering(Record(false, 0), AtRoot, entries, Complete, Looked)
  {
    var validated := Alone(Record(true, 0), AtRoot, entries, Remove, Validated);
    var switched := Alone(Record(false, 0), AtRoot, entries, Complete, Switched);
    assert Apply(validated, Tombstone(0)).processes == switched.processes;
    assert Apply(switched, DropLease(0)).processes == map[0 := Process(Complete, Looked, Record(false, 0))];
    assert Apply(switched, DropLease(0)).shared == {};
  }

  lemma PublishQuiet(record: Record, entries: nat, stage: nat) returns (more: seq<Action>)
    requires record.ready
    ensures Execute(Quiet(record, AtRoot, entries), more) == Some(Quiet(Record(true, stage), AtRoot, entries))
  {
    var s := Quiet(record, AtRoot, entries);
    more := Enter(record, AtRoot, entries, Publish);
    hide Execute;
    more := ExecuteOne(s, more, WriteJournal(0, stage));
    more := ExecuteOne(s, more, Die(0));
    assert Execute(s, more).value.processes == map[];
    assert Execute(s, more).value.shared == {};
  }

  /** However commands have been interleaved and wherever processes have died, no lease and no
      half-done step is in the way for good: some continuation removes the session. */
  lemma CanBeRemoved(s: State, actions: seq<Action>) returns (more: seq<Action>)
    requires Initial(s) && Execute(s, actions).Some?
    ensures Execute(s, actions + more).Some? && Execute(s, actions + more).value.record.None?
  {
    RunKeepsInv(s, actions);
    var t := Execute(s, actions).value;
    hide Execute;
    more := EndAll(t);
    if t.record.Some? {
      var record, place := t.record.value, t.place;
      if record.ready {
        var publish := PublishQuiet(record, t.entries, 0);
        ExecuteMore(t, more, publish);
        more := more + publish;
        var remove := RemoveQuiet(t.entries);
        ExecuteMore(t, more, remove);
        more := more + remove;
      } else {
        var complete := CompleteQuiet(record, place, t.entries);
        ExecuteMore(t, more, complete);
        more := more + complete;
      }
    }
    ExecuteMore(s, actions, more);
  }

  /** As long as the session is READY, some continuation takes its journal to any stage, and to idle
      again; a program then changes its tree and outlives its parent; and gc removes what is loose. */
  lemma CanBeUsed(s: State, actions: seq<Action>, stage: nat, entries: nat)
    returns (publish: seq<Action>, run: seq<Action>, sweep: seq<Action>)
    requires Initial(s) && Execute(s, actions).Some?
    requires Execute(s, actions).value.record.Some? && Execute(s, actions).value.record.value.ready
    ensures Execute(s, actions + publish).Some? && Execute(s, actions + publish).value.record == Some(Record(true, stage))
    ensures Execute(s, actions + publish + run).Some?
    ensures
      var t := Execute(s, actions + publish + run).value;
      t.entries == entries && At(t, 0, Exec, Running(false))
    ensures Execute(s, actions + publish + run + sweep).Some?
    ensures Execute(s, actions + publish + run + sweep).value == Quiet(Record(true, 0), AtRoot, 0)
  {
    RunKeepsInv(s, actions);
    var t := Execute(s, actions).value;
    hide Execute;
    publish := EndAll(t);
    var write := PublishQuiet(t.record.value, t.entries, stage);
    ExecuteMore(t, publish, write);
    publish := publish + write;
    ExecuteMore(s, actions, publish);
    run := PublishQuiet(Record(true, stage), t.entries, 0);
    var program := RunProgram(t.entries, entries);
    ExecuteMore(Quiet(Record(true, stage), AtRoot, t.entries), run, program);
    run := run + program;
    ExecuteMore(s, actions + publish, run);
    sweep := SweepOrphan(entries);
    ExecuteMore(s, actions + publish + run, sweep);
  }

  /** A session with an orphaned program and nothing else going on. */
  function Orphaned(entries: nat): State {
    State(Some(Record(true, 0)), AtRoot, entries, None, {0}, map[0 := Process(Exec, Running(false), Record(true, 0))])
  }

  lemma RunProgram(before: nat, entries: nat) returns (run: seq<Action>)
    ensures Execute(Quiet(Record(true, 0), AtRoot, before), run) == Some(Orphaned(entries))
  {
    var s := Quiet(Record(true, 0), AtRoot, before);
    assert Sharing(s, 0);
    JoinSteps(s, 0);
    OrphanSteps(s, entries);
    run := ExecuteOne(s, [], Look(0, Exec));
    hide Execute, Enabled, Apply, Sharing;
    run := ExecuteOne(s, run, Open(0));
    run := ExecuteOne(s, run, Lock(0));
    run := ExecuteOne(s, run, Validate(0));
    run := ExecuteOne(s, run, Spawn(0));
    run := ExecuteOne(s, run, Work(0, entries));
    run := ExecuteOne(s, run, ParentDies(0));
  }

  lemma OrphanSteps(s: State, entries: nat)
    requires s == Quiet(Record(true, 0), AtRoot, s.entries)
    ensures
      var working := Sharer(s, 0, Running(true));
      && Enabled(working, Work(0, entries)) && Enabled(Apply(working, Work(0, entries)), ParentDies(0))
      && Apply(Apply(working, Work(0, entries)), ParentDies(0)) == Orphaned(entries)
  {
    var left := Apply(Apply(Sharer(s, 0, Running(true)), Work(0, entries)), ParentDies(0));
    assert left.processes == Orphaned(entries).processes && left.shared == {0};
  }

  /** When the orphan has ended, gc can take whatever is loose. */
  lemma SweepOrphan(entries: nat) returns (sweep: seq<Action>)
    ensures Execute(Orphaned(entries), sweep) == Some(Quiet(Record(true, 0), AtRoot, 0))
  {
    var s := Orphaned(entries);
    sweep := ExecuteOne(s, [], ProgramExits(0));
    assert Execute(s, sweep).value.processes == map[] && Execute(s, sweep).value.shared == {};
    hide Execute;
    var enter := Enter(Record(true, 0), AtRoot, entries, Sweep);
    ExecuteMore(s, sweep, enter);
    sweep := sweep + enter;
    var unlinks := UnlinkLooseAll(entries);
    ExecuteMore(s, sweep, unlinks);
    sweep := ExecuteOne(s, sweep + unlinks, Die(0));
    assert Execute(s, sweep).value.processes == map[] && Execute(s, sweep).value.shared == {};
  }

  lemma {:induction false} UnlinkLooseAll(entries: nat) returns (more: seq<Action>)
    ensures Execute(Alone(Record(true, 0), AtRoot, entries, Sweep, Validated), more)
      == Some(Alone(Record(true, 0), AtRoot, 0, Sweep, Validated))
  {
    var s := Alone(Record(true, 0), AtRoot, entries, Sweep, Validated);
    more := [];
    if entries > 0 {
      more := ExecuteOne(s, more, UnlinkLoose(0));
      var rest := UnlinkLooseAll(entries - 1);
      ExecuteMore(s, more, rest);
      more := more + rest;
    }
  }

  /** Any number of programs can run in one session at once. */
  lemma {:induction false} CanShare(s: State, n: nat) returns (more: seq<Action>)
    requires Initial(s)
    ensures Execute(s, more).Some? && Sharing(Execute(s, more).value, n)
  {
    if n == 0 {
      more := [];
    } else {
      hide Execute, Enabled, Apply, Sharing;
      more := CanShare(s, n - 1);
      JoinSteps(Execute(s, more).value, n - 1);
      more := ExecuteOne(s, more, Look(n - 1, Exec));
      more := ExecuteOne(s, more, Open(n - 1));
      more := ExecuteOne(s, more, Lock(n - 1));
      more := ExecuteOne(s, more, Validate(n - 1));
      more := ExecuteOne(s, more, Spawn(n - 1));
    }
  }

  /** The processes are `n` programs with their parents. */
  ghost predicate Sharing(s: State, n: nat) {
    && s.record == Some(Record(true, 0)) && s.place.AtRoot? && s.exclusive.None?
    && (forall pid: Pid :: pid in s.processes <==> pid < n)
    && (forall pid: Pid :: pid < n ==> s.processes[pid] == Process(Exec, Running(true), Record(true, 0)))
  }

  /** The others and one more exec, before and after it has locked. */
  function Beside(s: State, pid: Pid, stage: Stage): State {
    Put(s, pid, Process(Exec, stage, Record(true, 0)))
  }

  function Sharer(s: State, pid: Pid, stage: Stage): State {
    Beside(s, pid, stage).(shared := s.shared + {pid})
  }

  lemma JoinSteps(s: State, n: nat)
    requires Sharing(s, n)
    ensures Enabled(s, Look(n, Exec)) && Apply(s, Look(n, Exec)) == Beside(s, n, Looked)
    ensures Enabled(Beside(s, n, Looked), Open(n)) && Apply(Beside(s, n, Looked), Open(n)) == Beside(s, n, Opened)
    ensures Enabled(Beside(s, n, Opened), Lock(n)) && Apply(Beside(s, n, Opened), Lock(n)) == Sharer(s, n, Leased)
    ensures Enabled(Sharer(s, n, Leased), Validate(n)) && Apply(Sharer(s, n, Leased), Validate(n)) == Sharer(s, n, Validated)
    ensures Enabled(Sharer(s, n, Validated), Spawn(n)) && Apply(Sharer(s, n, Validated), Spawn(n)) == Sharer(s, n, Running(true))
    ensures Sharing(Sharer(s, n, Running(true)), n + 1)
  {
    assert Apply(Beside(s, n, Looked), Open(n)).processes == Beside(s, n, Opened).processes;
    assert Apply(Beside(s, n, Opened), Lock(n)).processes == Sharer(s, n, Leased).processes;
    assert Apply(Sharer(s, n, Leased), Validate(n)).processes == Sharer(s, n, Validated).processes;
    assert Apply(Sharer(s, n, Validated), Spawn(n)).processes == Sharer(s, n, Running(true)).processes;
  }
}

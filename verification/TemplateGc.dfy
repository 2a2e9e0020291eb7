/** Session creators against template gc (template.rs, session.rs): creators clone from a template
    and write session records under a shared lease on its root; gc takes the exclusive lease, looks
    again, scans the session records one by one, and tombstones what no record names. One template
    key, any number of processes, each of which may die at any step. */
module TemplateGc {
  import opened Base

  type Pid = nat

  /** Session records are told apart by identity: a record written again is another one. */
  type Sid = nat

  datatype Stage = Building | Ready | Tombstoned

  /** A template record. `root` is the identity of the sealed root, new for every build. */
  datatype Record = Record(stage: Stage, root: nat)

  datatype Place = AtRoot(root: nat) | AtTombstone(root: nat) | Absent

  datatype Role = Creator | Collector | Completer(census: bool)

  datatype Step =
    | Looked | Opened | Leased | Validated
    | Listing(before: set<Sid>) | Reading(todo: set<Sid>, found: bool)
    | Switched | Promoted | Cleared

  /** A process, how far it is, and the record it relies on. */
  datatype Process = Process(role: Role, step: Step, seen: Record)

  datatype State = State(
    record: Option<Record>, place: Place, intact: bool, nextRoot: nat,
    sessions: map<Sid, nat>, nextSid: Sid, processes: map<Pid, Process>)

  datatype Action =
    | StartBuild(pid: Pid)
    | FinishBuild(pid: Pid)
    | Look(pid: Pid, role: Role)
    | Open(pid: Pid)
    | Lock(pid: Pid)
    | Validate(pid: Pid)
    | WriteSession(pid: Pid)
    | RemoveSession(pid: Pid, sid: Sid)
    | StartCensus(pid: Pid)
    | EndListing(pid: Pid, listing: set<Sid>)
    | ReadSession(pid: Pid, sid: Sid)
    | Tombstone(pid: Pid)
    | DropLease(pid: Pid)
    | FindNothing(pid: Pid)
    | Promote(pid: Pid)
    | Unlink(pid: Pid)
    | Clear(pid: Pid)
    | RemoveRecord(pid: Pid)
    | Die(pid: Pid)

  predicate Holding(step: Step) {
    !step.Looked? && !step.Opened? && !step.Cleared?
  }

  /** `flock` on the root that `pid` has opened. */
  predicate Free(s: State, pid: Pid)
    requires pid in s.processes
  {
    var p := s.processes[pid];
    forall q :: q in s.processes && q != pid && s.processes[q].seen.root == p.seen.root && Holding(s.processes[q].step)
      ==> p.role.Creator? && s.processes[q].role.Creator?
  }

  predicate Is(s: State, pid: Pid, step: Step) {
    pid in s.processes && s.processes[pid].step == step
  }

  /** The census has read everything it listed and found no record that names the template. */
  predicate Unreachable(step: Step) {
    step.Reading? && step.todo == {} && !step.found
  }

  /** Ready to destroy: validated, and past a census that found nothing where there is one. */
  predicate MayDestroy(p: Process) {
    match p.role
    case Creator => false
    case Collector => Unreachable(p.step)
    case Completer(census) => if census then Unreachable(p.step) else p.step.Validated?
  }

  predicate Enabled(s: State, a: Action) {
    match a
    case StartBuild(_) => s.record.None? && s.place.Absent?
    case FinishBuild(_) => s.record.Some? && s.record.value.stage.Building? && s.place.Absent?
    case Look(pid, role) =>
      pid !in s.processes && s.record.Some?
      && s.record.value.stage == (if role.Completer? then Tombstoned else Ready)
    case Open(pid) =>
      Is(s, pid, Looked) && var p := s.processes[pid];
      s.place == AtRoot(p.seen.root) || (s.place == AtTombstone(p.seen.root) && p.role.Completer?)
    case Lock(pid) => Is(s, pid, Opened) && Free(s, pid)
    case Validate(pid) =>
      Is(s, pid, Leased) && var p := s.processes[pid];
      && s.record == Some(p.seen)
      && (s.place == AtRoot(p.seen.root) || (s.place == AtTombstone(p.seen.root) && p.role.Completer?))
    case WriteSession(pid) => Is(s, pid, Validated) && s.processes[pid].role.Creator?
    case RemoveSession(_, sid) => sid in s.sessions
    case StartCensus(pid) =>
      Is(s, pid, Validated) && (s.processes[pid].role.Collector? || s.processes[pid].role == Completer(true))
    case EndListing(pid, listing) =>
      // A listing returns at least the records that were there all along.
      pid in s.processes && s.processes[pid].step.Listing?
      && forall sid :: sid in s.processes[pid].step.before && sid in s.sessions ==> sid in listing
    case ReadSession(pid, sid) => pid in s.processes && s.processes[pid].step.Reading? && sid in s.processes[pid].step.todo
    case Tombstone(pid) =>
      pid in s.processes && s.processes[pid].role.Collector? && MayDestroy(s.processes[pid])
      && s.record == Some(s.processes[pid].seen)
    case DropLease(pid) => Is(s, pid, Switched)
    case FindNothing(pid) => Is(s, pid, Looked) && s.processes[pid].role.Completer? && s.place.Absent?
    case Promote(pid) => pid in s.processes && s.processes[pid].role.Completer? && MayDestroy(s.processes[pid])
    case Unlink(pid) => Is(s, pid, Promoted)
    case Clear(pid) => Is(s, pid, Promoted)
    case RemoveRecord(pid) => Is(s, pid, Cleared) && s.record == Some(s.processes[pid].seen)
    case Die(pid) => pid in s.processes
  }

  function Put(s: State, pid: Pid, p: Process): State {
    s.(processes := s.processes[pid := p])
  }

  function Moved(s: State, pid: Pid, step: Step): State
    requires pid in s.processes
  {
    Put(s, pid, s.processes[pid].(step := step))
  }

  function Apply(s: State, a: Action): State
    requires Enabled(s, a)
  {
    match a
    case StartBuild(_) => s.(record := Some(Record(Building, s.nextRoot)), nextRoot := s.nextRoot + 1)
    case FinishBuild(_) =>
      var root := s.record.value.root;
      s.(record := Some(Record(Ready, root)), place := AtRoot(root), intact := true)
    case Look(pid, role) => Put(s, pid, Process(role, Looked, s.record.value))
    case Open(pid) => Moved(s, pid, Opened)
    case Lock(pid) => Moved(s, pid, Leased)
    case Validate(pid) => Moved(s, pid, Validated)
    case WriteSession(pid) =>
      s.(sessions := s.sessions[s.nextSid := s.processes[pid].seen.root], nextSid := s.nextSid + 1)
    case RemoveSession(_, sid) => s.(sessions := s.sessions - {sid})
    case StartCensus(pid) => Moved(s, pid, Listing(s.sessions.Keys))
    case EndListing(pid, listing) => Moved(s, pid, Reading(listing, false))
    case ReadSession(pid, sid) =>
      var step := s.processes[pid].step;
      Moved(s, pid, Reading(step.todo - {sid}, step.found || sid in s.sessions))
    case Tombstone(pid) =>
      var record := Record(Tombstoned, s.processes[pid].seen.root);
      Put(s, pid, Process(Completer(false), Switched, record)).(record := Some(record))
    case DropLease(pid) => Moved(s, pid, Looked)
    case FindNothing(pid) => Moved(s, pid, Cleared)
    case Promote(pid) => Moved(s, pid, Promoted).(place := AtTombstone(s.processes[pid].seen.root))
    case Unlink(_) => s.(intact := false)
    case Clear(pid) => Moved(s, pid, Cleared).(place := Absent, intact := false)
    case RemoveRecord(pid) => s.(record := None, processes := s.processes - {pid})
    case Die(pid) => s.(processes := s.processes - {pid})
  }

  // ---- Invariant ----

  predicate Validating(step: Step) {
    step.Validated? || step.Listing? || step.Reading?
  }

  ghost predicate ProcessInv(s: State, pid: Pid)
    requires pid in s.processes
  {
    var p := s.processes[pid];
    && p.seen.stage == (if p.role.Completer? then Tombstoned else Ready)
    && p.seen.root < s.nextRoot
    && (p.role.Completer? && s.record.Some? && s.record.value.root == p.seen.root ==> s.record == Some(p.seen))
    && (p.role.Creator? ==> !p.step.Listing? && !p.step.Reading?)
    && (p.step.Switched? || p.step.Promoted? || p.step.Cleared? ==> p.role.Completer?)
    && (Validating(p.step) || p.step.Switched? || p.step.Promoted? ==> s.record == Some(p.seen))
    && (Validating(p.step) || p.step.Switched? ==> s.place == AtRoot(p.seen.root) || s.place == AtTombstone(p.seen.root))
    && (p.step.Promoted? ==> s.place == AtTombstone(p.seen.root))
    && (p.step.Cleared? && s.record == Some(p.seen) ==> s.place.Absent?)
    && (p.step.Listing? ==> s.sessions.Keys <= p.step.before)
    && (p.step.Reading? && !p.step.found ==> s.sessions.Keys <= p.step.todo)
    && (p.step.Reading? && p.role.Completer? ==> !p.step.found)
  }

  ghost predicate Exclusive(s: State, p: Pid, q: Pid)
    requires p in s.processes && q in s.processes
  {
    && Holding(s.processes[p].step) && Holding(s.processes[q].step)
    && s.processes[p].seen.root == s.processes[q].seen.root && p != q
    ==> s.processes[p].role.Creator? && s.processes[q].role.Creator?
  }

  ghost predicate GlobalInv(s: State) {
    && (s.record.Some? ==> s.record.value.root < s.nextRoot)
    && (s.record.None? || s.record.value.stage.Building? ==> s.place.Absent?)
    && (s.record.Some? && s.record.value.stage.Ready? ==> s.place == AtRoot(s.record.value.root) && s.intact)
    && (!s.place.Absent? ==> s.record.Some? && s.place.root == s.record.value.root)
    && (forall sid :: sid in s.sessions ==> sid < s.nextSid && s.record == Some(Record(Ready, s.sessions[sid])))
  }

  ghost predicate Inv(s: State) {
    && GlobalInv(s)
    && (forall pid :: pid in s.processes ==> ProcessInv(s, pid))
    && (forall p, q :: p in s.processes && q in s.processes ==> Exclusive(s, p, q))
  }

  ghost predicate Actor(s: State, a: Action) {
    && (a.pid in s.processes ==> ProcessInv(s, a.pid))
    && (a.pid in s.processes ==> forall q :: q in s.processes ==> Exclusive(s, a.pid, q))
  }

  /** A census that has read everything and found nothing is right: there is nothing. */
  lemma NothingNamesIt(s: State, pid: Pid)
    requires GlobalInv(s) && pid in s.processes && ProcessInv(s, pid) && MayDestroy(s.processes[pid])
    ensures s.sessions == map[]
  {
    assert forall sid :: sid !in s.sessions.Keys;
  }

  lemma GlobalStep(s: State, a: Action)
    requires GlobalInv(s) && Actor(s, a) && Enabled(s, a)
    ensures GlobalInv(Apply(s, a))
  {
    if a.Tombstone? {
      NothingNamesIt(s, a.pid);
    }
  }

  /** Steps that change the template or the session records. */
  predicate Moves(a: Action) {
    || a.StartBuild? || a.FinishBuild? || a.WriteSession? || a.RemoveSession?
    || a.Tombstone? || a.Promote? || a.Unlink? || a.Clear? || a.RemoveRecord?
  }

  lemma ActorStepMoving(s: State, a: Action)
    requires GlobalInv(s) && Actor(s, a) && Enabled(s, a) && Moves(a) && a.pid in Apply(s, a).processes
    ensures ProcessInv(Apply(s, a), a.pid)
  {
  }

  lemma ActorStepStanding(s: State, a: Action)
    requires GlobalInv(s) && Actor(s, a) && Enabled(s, a) && !Moves(a) && a.pid in Apply(s, a).processes
    ensures ProcessInv(Apply(s, a), a.pid)
  {
    hide Free;
  }

  lemma ActorStep(s: State, a: Action)
    requires GlobalInv(s) && Actor(s, a) && Enabled(s, a) && a.pid in Apply(s, a).processes
    ensures ProcessInv(Apply(s, a), a.pid)
  {
    hide *;
    if Moves(a) {
      ActorStepMoving(s, a);
    } else {
      ActorStepStanding(s, a);
    }
  }

  lemma OtherStepMoving(s: State, a: Action, q: Pid)
    requires GlobalInv(s) && Actor(s, a) && Enabled(s, a) && Moves(a)
    requires q != a.pid && q in s.processes && ProcessInv(s, q)
    ensures q in Apply(s, a).processes && ProcessInv(Apply(s, a), q)
  {
  }

  lemma OtherStepStanding(s: State, a: Action, q: Pid)
    requires GlobalInv(s) && Actor(s, a) && Enabled(s, a) && !Moves(a)
    requires q != a.pid && q in s.processes && ProcessInv(s, q)
    ensures q in Apply(s, a).processes && ProcessInv(Apply(s, a), q)
  {
    hide Free, GlobalInv;
  }

  /** What a process relies on is changed by no other process. */
  lemma OtherStep(s: State, a: Action, q: Pid)
    requires GlobalInv(s) && Actor(s, a) && Enabled(s, a)
    requires q != a.pid && q in s.processes && ProcessInv(s, q)
    ensures q in Apply(s, a).processes && ProcessInv(Apply(s, a), q)
  {
    hide *;
    if Moves(a) {
      OtherStepMoving(s, a, q);
    } else {
      OtherStepStanding(s, a, q);
    }
  }

  /** An action gives a lease to nobody but the process that locks, and leaves roots alone. */
  lemma HoldersAfter(s: State, a: Action, p: Pid)
    requires Enabled(s, a) && p in Apply(s, a).processes && Holding(Apply(s, a).processes[p].step)
    ensures p in s.processes && Apply(s, a).processes[p].seen.root == s.processes[p].seen.root
    ensures s.processes[p].role.Creator? <==> Apply(s, a).processes[p].role.Creator?
    ensures Holding(s.processes[p].step) || a == Lock(p)
  {
    hide Free;
  }

  lemma ExclusiveStep(s: State, a: Action, p: Pid, q: Pid)
    requires Inv(s) && Enabled(s, a)
    requires p in Apply(s, a).processes && q in Apply(s, a).processes
    ensures Exclusive(Apply(s, a), p, q)
  {
    var t := Apply(s, a);
    if Holding(t.processes[p].step) && Holding(t.processes[q].step) {
      HoldersAfter(s, a, p);
      HoldersAfter(s, a, q);
      assert Exclusive(s, p, q);
      assert a.Lock? ==> Free(s, a.pid);
      hide Apply, Enabled, Inv;
    }
  }

  lemma StepKeepsInv(s: State, a: Action)
    requires Inv(s) && Enabled(s, a)
    ensures Inv(Apply(s, a))
  {
    GlobalStep(s, a);
    var t := Apply(s, a);
    forall q | q in t.processes
      ensures ProcessInv(t, q)
    {
      if q == a.pid {
        ActorStep(s, a);
      } else {
        OtherBefore(s, a, q);
        OtherStep(s, a, q);
      }
    }
    forall p, q | p in t.processes && q in t.processes
      ensures Exclusive(t, p, q)
    {
      ExclusiveStep(s, a, p, q);
    }
  }

  lemma OtherBefore(s: State, a: Action, q: Pid)
    requires Enabled(s, a) && q != a.pid && q in Apply(s, a).processes
    ensures q in s.processes
  {
  }

  // ---- Runs ----

  ghost predicate Initial(s: State) {
    s.record.None? && s.place.Absent? && s.sessions == map[] && s.processes == map[]
  }

  function Execute(s: State, actions: seq<Action>): Option<State> {
    if actions == [] then Some(s)
    else
      var before := Execute(s, actions[..|actions| - 1]);
      var a := actions[|actions| - 1];
      if before.Some? && Enabled(before.value, a) then Some(Apply(before.value, a)) else None
  }

  lemma {:induction false} RunKeepsInv(s: State, actions: seq<Action>)
    requires Initial(s) && Execute(s, actions).Some?
    ensures Inv(Execute(s, actions).value)
    decreases |actions|
  {
    if actions != [] {
      var front := actions[..|actions| - 1];
      RunKeepsInv(s, front);
      StepKeepsInv(Execute(s, front).value, actions[|actions| - 1]);
    }
  }

  /** In every reachable state a template named by a session record is READY, and the sealed root
      the session was cloned from is in place with nothing removed from it. */
  lemma NamedTemplatesAreReady(s: State, actions: seq<Action>, sid: Sid)
    requires Initial(s) && Execute(s, actions).Some?
    requires sid in Execute(s, actions).value.sessions
    ensures
      var t := Execute(s, actions).value;
      t.record == Some(Record(Ready, t.sessions[sid])) && t.place == AtRoot(t.sessions[sid]) && t.intact
  {
    RunKeepsInv(s, actions);
  }

  /** The census is right although it is not atomic: a collector that found nothing may tombstone,
      because nothing names the template; and a completer never finds a tombstoned template
      reachable, whatever its census has read so far. */
  lemma CensusIsRight(s: State, actions: seq<Action>, pid: Pid)
    requires Initial(s) && Execute(s, actions).Some?
    requires pid in Execute(s, actions).value.processes
    ensures
      var t := Execute(s, actions).value;
      var p := t.processes[pid];
      && (MayDestroy(p) ==> t.sessions == map[])
      && (p.role.Completer? && p.step.Reading? ==> t.sessions == map[] && !p.step.found)
  {
    RunKeepsInv(s, actions);
    var t := Execute(s, actions).value;
    hide Execute;
    assert ProcessInv(t, pid);
    if MayDestroy(t.processes[pid]) {
      NothingNamesIt(t, pid);
    }
    assert t.record == Some(t.processes[pid].seen) && t.processes[pid].role.Completer? ==>
      forall sid :: sid !in t.sessions.Keys;
  }

  /** Nothing names a tombstoned template at any time, so neither does a census that a completer
      takes without a lease when the root is gone. */
  lemma TombstonedIsUnnamed(s: State, actions: seq<Action>)
    requires Initial(s) && Execute(s, actions).Some?
    ensures
      var t := Execute(s, actions).value;
      t.record.Some? && t.record.value.stage.Tombstoned? ==> t.sessions == map[]
  {
    RunKeepsInv(s, actions);
    var t := Execute(s, actions).value;
    hide Execute;
    assert t.record.Some? && t.record.value.stage.Tombstoned? ==> forall sid :: sid !in t.sessions.Keys;
  }

  predicate Destroys(a: Action) {
    a.Tombstone? || a.Promote? || a.Unlink? || a.Clear?
  }

  /** Nothing of a template is destroyed, nor its record tombstoned, while a creator that has
      looked again under its lease may still clone from it or write a session record, and never
      while a session record names it. */
  lemma DestructionIsExclusive(s: State, actions: seq<Action>, a: Action, creator: Pid)
    requires Initial(s) && Execute(s, actions).Some? && Enabled(Execute(s, actions).value, a) && Destroys(a)
    ensures
      var t := Execute(s, actions).value;
      && t.sessions == map[]
      && !(Is(t, creator, Validated) && t.processes[creator].role.Creator?)
  {
    RunKeepsInv(s, actions);
    var t := Execute(s, actions).value;
    assert ProcessInv(t, a.pid);
    if a.Tombstone? {
      NothingNamesIt(t, a.pid);
    }
    assert t.record.value.stage.Tombstoned? ==> forall sid :: sid !in t.sessions.Keys;
    if creator in t.processes {
      assert ProcessInv(t, creator) && Exclusive(t, creator, a.pid);
    }
  }

  // ---- Nothing is stuck for good ----

  lemma {:induction false} ExecuteMore(s: State, first: seq<Action>, more: seq<Action>)
    requires Execute(s, first).Some?
    ensures Execute(s, first + more) == Execute(Execute(s, first).value, more)
    decreases |more|
  {
    if more == [] {
      assert first + more == first;
    } else {
      ExecuteMore(s, first, more[..|more| - 1]);
      assert (first + more)[..|first + more| - 1] == first + more[..|more| - 1];
    }
  }

  lemma ExecuteOne(s: State, done: seq<Action>, a: Action) returns (longer: seq<Action>)
    requires Execute(s, done).Some? && Enabled(Execute(s, done).value, a)
    ensures longer == done + [a] && Execute(s, longer) == Some(Apply(Execute(s, done).value, a))
  {
    longer := done + [a];
    assert longer[..|longer| - 1] == done;
  }

  /** Every process can end, and every session can be removed. */
  lemma {:induction false} EndAll(s: State) returns (more: seq<Action>)
    ensures Execute(s, more) == Some(s.(processes := map[], sessions := map[]))
    decreases |s.processes| + |s.sessions|
  {
    if s.processes != map[] {
      var pid :| pid in s.processes;
      more := ExecuteOne(s, [], Die(pid));
      assert |s.processes.Keys - {pid}| < |s.processes.Keys|;
      assert (s.processes - {pid}).Keys == s.processes.Keys - {pid};
      var rest := EndAll(s.(processes := s.processes - {pid}));
      ExecuteMore(s, more, rest);
      more := more + rest;
    } else if s.sessions != map[] {
      var sid :| sid in s.sessions;
      more := ExecuteOne(s, [], RemoveSession(0, sid));
      assert |s.sessions.Keys - {sid}| < |s.sessions.Keys|;
      assert (s.sessions - {sid}).Keys == s.sessions.Keys - {sid};
      var rest := EndAll(s.(sessions := s.sessions - {sid}));
      ExecuteMore(s, more, rest);
      more := more + rest;
    } else {
      more := [];
    }
  }

  /** `s` with one process and nothing else going on. */
  function With(s: State, role: Role, step: Step, seen: Record): State {
    s.(processes := map[0 := Process(role, step, seen)], sessions := map[])
  }

  ghost predicate Quiet(s: State) {
    s.processes == map[] && s.sessions == map[]
  }

  /** From its first look on, a process can get its lease and validate. */
  lemma Enter(s: State, role: Role) returns (more: seq<Action>)
    requires Quiet(s) && s.record.Some? && s.record.value.stage == (if role.Completer? then Tombstoned else Ready)
    requires s.place == AtRoot(s.record.value.root) || (s.place == AtTombstone(s.record.value.root) && role.Completer?)
    ensures Execute(s, more) == Some(With(s, role, Validated, s.record.value))
  {
    var record := s.record.value;
    EnterSteps(s, role);
    hide Enabled, Apply;
    more := ExecuteOne(s, [], Look(0, role));
    hide Execute;
    more := ExecuteOne(s, more, Open(0));
    more := ExecuteOne(s, more, Lock(0));
    more := ExecuteOne(s, more, Validate(0));
  }

  lemma EnterSteps(s: State, role: Role)
    requires Quiet(s) && s.record.Some? && s.record.value.stage == (if role.Completer? then Tombstoned else Ready)
    requires s.place == AtRoot(s.record.value.root) || (s.place == AtTombstone(s.record.value.root) && role.Completer?)
    ensures
      var record := s.record.value;
      && Enabled(s, Look(0, role)) && Apply(s, Look(0, role)) == With(s, role, Looked, record)
      && Enabled(With(s, role, Looked, record), Open(0))
      && Apply(With(s, role, Looked, record), Open(0)) == With(s, role, Opened, record)
      && Enabled(With(s, role, Opened, record), Lock(0))
      && Apply(With(s, role, Opened, record), Lock(0)) == With(s, role, Leased, record)
      && Enabled(With(s, role, Leased, record), Validate(0))
      && Apply(With(s, role, Leased, record), Validate(0)) == With(s, role, Validated, record)
  {
    var record := s.record.value;
    assert Apply(With(s, role, Looked, record), Open(0)).processes == map[0 := Process(role, Opened, record)];
    assert Apply(With(s, role, Opened, record), Lock(0)).processes == map[0 := Process(role, Leased, record)];
    assert Apply(With(s, role, Leased, record), Validate(0)).processes == map[0 := Process(role, Validated, record)];
  }

  /** With no session left, a census lists none and finds nothing. */
  lemma Scan(s: State, role: Role, record: Record) returns (more: seq<Action>)
    requires role.Collector? || role == Completer(true)
    ensures Execute(With(s, role, Validated, record), more) == Some(With(s, role, Reading({}, false), record))
  {
    var t := With(s, role, Validated, record);
    ScanSteps(s, role, record);
    hide Enabled, Apply;
    more := ExecuteOne(t, [], StartCensus(0));
    hide Execute;
    more := ExecuteOne(t, more, EndListing(0, {}));
  }

  lemma ScanSteps(s: State, role: Role, record: Record)
    requires role.Collector? || role == Completer(true)
    ensures Enabled(With(s, role, Validated, record), StartCensus(0))
    ensures Apply(With(s, role, Validated, record), StartCensus(0)) == With(s, role, Listing({}), record)
    ensures Enabled(With(s, role, Listing({}), record), EndListing(0, {}))
    ensures Apply(With(s, role, Listing({}), record), EndListing(0, {})) == With(s, role, Reading({}, false), record)
  {
    assert With(s, role, Validated, record).sessions.Keys == {};
    assert Apply(With(s, role, Validated, record), StartCensus(0)).processes == map[0 := Process(role, Listing({}), record)];
    assert Apply(With(s, role, Listing({}), record), EndListing(0, {})).processes
      == map[0 := Process(role, Reading({}, false), record)];
  }

  /** A READY template that no session names can be tombstoned and removed by one process, which gives
      its lease back in between. */
  lemma CollectQuiet(s: State) returns (more: seq<Action>)
    requires Quiet(s) && s.record.Some? && s.record.value.stage.Ready? && s.place == AtRoot(s.record.value.root)
    ensures Execute(s, more).Some?
    ensures
      var t := Execute(s, more).value;
      t.record.None? && t.place.Absent? && Quiet(t)
  {
    more := TombstoneQuiet(s);
    var switched := s.(record := Some(Record(Tombstoned, s.record.value.root)));
    hide Execute, Enabled, Apply;
    var rest := AfterSwitch(switched);
    ExecuteMore(s, more, rest);
    more := more + rest;
  }

  lemma TombstoneQuiet(s: State) returns (more: seq<Action>)
    requires Quiet(s) && s.record.Some? && s.record.value.stage.Ready? && s.place == AtRoot(s.record.value.root)
    ensures
      var tombstoned := Record(Tombstoned, s.record.value.root);
      Execute(s, more) == Some(With(s.(record := Some(tombstoned)), Completer(false), Looked, tombstoned))
  {
    more := Enter(s, Collector);
    var scan := Scan(s, Collector, s.record.value);
    ExecuteMore(s, more, scan);
    more := more + scan;
    SwitchSteps(s);
    hide Execute, Enabled, Apply;
    more := ExecuteOne(s, more, Tombstone(0));
    more := ExecuteOne(s, more, DropLease(0));
  }

  lemma AfterSwitch(s: State) returns (more: seq<Action>)
    requires Quiet(s) && s.record.Some? && s.record.value.stage.Tombstoned? && s.place == AtRoot(s.record.value.root)
    ensures Execute(With(s, Completer(false), Looked, s.record.value), more).Some?
    ensures
      var t := Execute(With(s, Completer(false), Looked, s.record.value), more).value;
      t.record.None? && t.place.Absent? && Quiet(t)
  {
    var start := With(s, Completer(false), Looked, s.record.value);
    EnterSteps(s, Completer(false));
    hide Enabled, Apply;
    more := ExecuteOne(start, [], Open(0));
    hide Execute;
    more := ExecuteOne(start, more, Lock(0));
    more := ExecuteOne(start, more, Validate(0));
    var rest := DestroyAlone(s, Completer(false), Validated);
    ExecuteMore(start, more, rest);
    more := more + rest;
  }

  lemma SwitchSteps(s: State)
    requires Quiet(s) && s.record.Some?
    ensures
      var record, tombstoned := s.record.value, Record(Tombstoned, s.record.value.root);
      var scanned, switched := With(s, Collector, Reading({}, false), record), s.(record := Some(tombstoned));
      && Enabled(scanned, Tombstone(0))
      && Apply(scanned, Tombstone(0)) == With(switched, Completer(false), Switched, tombstoned)
      && Enabled(With(switched, Completer(false), Switched, tombstoned), DropLease(0))
      && Apply(With(switched, Completer(false), Switched, tombstoned), DropLease(0))
        == With(switched, Completer(false), Looked, tombstoned)
  {
    var tombstoned := Record(Tombstoned, s.record.value.root);
    var switched := With(s.(record := Some(tombstoned)), Completer(false), Switched, tombstoned);
    assert Apply(With(s, Collector, Reading({}, false), s.record.value), Tombstone(0)).processes == switched.processes;
    assert Apply(switched, DropLease(0)).processes == map[0 := Process(Completer(false), Looked, tombstoned)];
  }

  /** What may be destroyed can be. */
  lemma DestroyAlone(s: State, role: Role, step: Step) returns (more: seq<Action>)
    requires s.record.Some? && role.Completer? && MayDestroy(Process(role, step, s.record.value))
    ensures Execute(With(s, role, step, s.record.value), more).Some?
    ensures
      var t := Execute(With(s, role, step, s.record.value), more).value;
      t.record.None? && t.place.Absent? && Quiet(t)
  {
    var start := With(s, role, step, s.record.value);
    PromoteStep(s, role, step);
    ClearSteps(s, role);
    hide Enabled, Apply;
    more := ExecuteOne(start, [], Promote(0));
    hide Execute;
    more := ExecuteOne(start, more, Unlink(0));
    more := ExecuteOne(start, more, Clear(0));
    more := ExecuteOne(start, more, RemoveRecord(0));
  }

  lemma PromoteStep(s: State, role: Role, step: Step)
    requires s.record.Some? && role.Completer? && MayDestroy(Process(role, step, s.record.value))
    ensures
      var start, promoted := With(s, role, step, s.record.value), s.(place := AtTombstone(s.record.value.root));
      && Enabled(start, Promote(0)) && Apply(start, Promote(0)) == With(promoted, role, Promoted, s.record.value)
  {
    var start := With(s, role, step, s.record.value);
    assert Apply(start, Promote(0)).processes == map[0 := Process(role, Promoted, s.record.value)];
  }

  lemma ClearSteps(s: State, role: Role)
    requires s.record.Some?
    ensures
      var promoted := With(s.(place := AtTombstone(s.record.value.root)), role, Promoted, s.record.value);
      var cleared := With(s.(place := Absent, intact := false), role, Cleared, s.record.value);
      && Enabled(promoted, Unlink(0)) && Apply(promoted, Unlink(0)) == promoted.(intact := false)
      && Enabled(promoted.(intact := false), Clear(0)) && Apply(promoted.(intact := false), Clear(0)) == cleared
      && Enabled(cleared, RemoveRecord(0))
      && Apply(cleared, RemoveRecord(0)) == cleared.(record := None, processes := map[])
  {
    var promoted := With(s.(place := AtTombstone(s.record.value.root)), role, Promoted, s.record.value);
    var cleared := With(s.(place := Absent, intact := false), role, Cleared, s.record.value);
    assert Apply(promoted.(intact := false), Clear(0)).processes == cleared.processes;
    assert Apply(cleared, RemoveRecord(0)).processes == map[];
  }

  /** A tombstoned template can be removed, wherever its root is. */
  lemma CompleteQuiet(s: State) returns (more: seq<Action>)
    requires Quiet(s) && s.record.Some? && s.record.value.stage.Tombstoned?
    requires !s.place.Absent? ==> s.place.root == s.record.value.root
    ensures Execute(s, more).Some?
    ensures
      var t := Execute(s, more).value;
      t.record.None? && t.place.Absent? && Quiet(t)
  {
    var record := s.record.value;
    if s.place.Absent? {
      more := ExecuteOne(s, [], Look(0, Completer(true)));
      more := ExecuteOne(s, more, FindNothing(0));
      more := ExecuteOne(s, more, RemoveRecord(0));
      assert Execute(s, more).value.processes == map[];
    } else {
      more := Enter(s, Completer(true));
      var scan := Scan(s, Completer(true), record);
      ExecuteMore(s, more, scan);
      more := more + scan;
      var destroy := DestroyAlone(s, Completer(true), Reading({}, false));
      ExecuteMore(s, more, destroy);
      more := more + destroy;
    }
  }

  /** However creators and collectors have been interleaved and wherever they have died, nothing is in
      the way for good: when the sessions are removed, some continuation removes the template, and
      after that one builds it again and writes a session record that names the new root. */
  lemma CanBeRenewed(s: State, actions: seq<Action>) returns (removal: seq<Action>, renewal: seq<Action>)
    requires Initial(s) && Execute(s, actions).Some?
    ensures Execute(s, actions + removal).Some? && Execute(s, actions + removal).value.record.None?
    ensures Execute(s, actions + removal + renewal).Some?
    ensures
      var removed, renewed := Execute(s, actions + removal).value, Execute(s, actions + removal + renewal).value;
      exists sid :: sid in renewed.sessions && renewed.sessions[sid] == removed.nextRoot
  {
    RunKeepsInv(s, actions);
    var t := Execute(s, actions).value;
    var gone;
    removal, gone := RemoveFrom(t);
    ExecuteMore(s, actions, removal);
    renewal := BuildQuiet(gone);
    ExecuteMore(s, actions + removal, renewal);
  }

  lemma RemoveFrom(t: State) returns (removal: seq<Action>, gone: State)
    requires Inv(t)
    ensures Execute(t, removal) == Some(gone) && gone.record.None? && gone.place.Absent? && Quiet(gone)
  {
    removal := EndAll(t);
    gone := Execute(t, removal).value;
    hide Execute;
    if gone.record.Some? && gone.record.value.stage.Building? {
      removal := ExecuteOne(t, removal, FinishBuild(0));
      gone := Execute(t, removal).value;
    }
    if gone.record.Some? && gone.record.value.stage.Ready? {
      var collect := CollectQuiet(gone);
      ExecuteMore(t, removal, collect);
      removal := removal + collect;
      gone := Execute(t, removal).value;
    } else if gone.record.Some? {
      var complete := CompleteQuiet(gone);
      ExecuteMore(t, removal, complete);
      removal := removal + complete;
      gone := Execute(t, removal).value;
    }
  }

  lemma BuildQuiet(s: State) returns (more: seq<Action>)
    requires Quiet(s) && s.record.None? && s.place.Absent?
    ensures Execute(s, more).Some?
    ensures exists sid :: sid in Execute(s, more).value.sessions && Execute(s, more).value.sessions[sid] == s.nextRoot
  {
    more := ExecuteOne(s, [], StartBuild(0));
    hide Execute;
    more := ExecuteOne(s, more, FinishBuild(0));
    var built := Execute(s, more).value;
    var enter := Enter(built, Creator);
    ExecuteMore(s, more, enter);
    more := more + enter;
    more := ExecuteOne(s, more, WriteSession(0));
    assert s.nextSid in Execute(s, more).value.sessions;
  }

  /** Any number of creators can be at work on one template at once. */
  lemma {:induction false} CanShare(s: State, root: nat, n: nat) returns (more: seq<Action>)
    requires s.record == Some(Record(Ready, root)) && s.place == AtRoot(root) && s.processes == map[]
    ensures Execute(s, more).Some? && Sharing(Execute(s, more).value, root, n)
  {
    if n == 0 {
      more := [];
    } else {
      hide Execute, Enabled, Apply, Sharing;
      more := CanShare(s, root, n - 1);
      JoinUnlocked(Execute(s, more).value, root, n - 1);
      JoinLocked(Execute(s, more).value, root, n - 1);
      more := ExecuteOne(s, more, Look(n - 1, Creator));
      more := ExecuteOne(s, more, Open(n - 1));
      more := ExecuteOne(s, more, Lock(n - 1));
      more := ExecuteOne(s, more, Validate(n - 1));
    }
  }

  /** The processes are `n` creators past their second look. */
  ghost predicate Sharing(s: State, root: nat, n: nat) {
    && s.record == Some(Record(Ready, root)) && s.place == AtRoot(root)
    && (forall pid: Pid :: pid in s.processes <==> pid < n)
    && (forall pid: Pid :: pid < n ==> s.processes[pid] == Process(Creator, Validated, Record(Ready, root)))
  }

  /** The others and one more creator. */
  function Beside(s: State, pid: Pid, step: Step, root: nat): State {
    Put(s, pid, Process(Creator, step, Record(Ready, root)))
  }

  lemma JoinUnlocked(s: State, root: nat, n: nat)
    requires Sharing(s, root, n)
    ensures Enabled(s, Look(n, Creator)) && Apply(s, Look(n, Creator)) == Beside(s, n, Looked, root)
    ensures Enabled(Beside(s, n, Looked, root), Open(n))
    ensures Apply(Beside(s, n, Looked, root), Open(n)) == Beside(s, n, Opened, root)
  {
    assert Apply(Beside(s, n, Looked, root), Open(n)).processes == Beside(s, n, Opened, root).processes;
  }

  lemma JoinLocked(s: State, root: nat, n: nat)
    requires Sharing(s, root, n)
    ensures Enabled(Beside(s, n, Opened, root), Lock(n))
    ensures Apply(Beside(s, n, Opened, root), Lock(n)) == Beside(s, n, Leased, root)
    ensures Enabled(Beside(s, n, Leased, root), Validate(n))
    ensures Apply(Beside(s, n, Leased, root), Validate(n)) == Beside(s, n, Validated, root)
    ensures Sharing(Beside(s, n, Validated, root), root, n + 1)
  {
    assert Apply(Beside(s, n, Opened, root), Lock(n)).processes == Beside(s, n, Leased, root).processes;
    assert Apply(Beside(s, n, Leased, root), Validate(n)).processes == Beside(s, n, Validated, root).processes;
  }
}

/** gc of a session's private loose objects (session.rs): objects that the authority holds as
    exactly the same file are removed, and fanout directories that end up empty with them. */
module LooseGc {
  import opened Base

  type Fanout = string
  type Tail = string

  /** A loose object file: inode, link count, bytes. */
  datatype Loose = Loose(ino: nat, nlink: nat, bytes: seq<Byte>)

  /** Loose objects by fanout directory and file name. */
  type Store = map<Fanout, map<Tail, Loose>>

  /** `Remove` remembers which authority file the private one was compared with. */
  datatype Action = Retain | Remove(authority: nat)

  datatype LoosePlan = LoosePlan(ino: nat, nlink: nat, action: Action)

  type Plan = map<Fanout, map<Tail, LoosePlan>>

  function Find(store: Store, fanout: Fanout, tail: Tail): Option<Loose> {
    if fanout in store && tail in store[fanout] then Some(store[fanout][tail]) else None
  }

  /** What Git reads for an object id: the private object, or else the authority's. */
  function View(objects: Store, authority: Store, fanout: Fanout, tail: Tail): Option<seq<Byte>> {
    match Find(objects, fanout, tail)
    case Some(loose) => Some(loose.bytes)
    case None => match Find(authority, fanout, tail)
                 case Some(loose) => Some(loose.bytes)
                 case None => None
  }

  /** `classify_private_loose`: only an exact duplicate goes, and only where neither file has
      another link. */
  function Classified(loose: Loose, other: Option<Loose>): Action {
    if other.Some? && other.value.bytes == loose.bytes && loose.nlink == 1 && other.value.nlink == 1
    then Remove(other.value.ino) else Retain
  }

  function Planned(loose: Loose, other: Option<Loose>): LoosePlan {
    LoosePlan(loose.ino, loose.nlink, Classified(loose, other))
  }

  function FanoutPlan(fanout: Fanout, files: map<Tail, Loose>, authority: Store): map<Tail, LoosePlan> {
    map tail | tail in files :: Planned(files[tail], Find(authority, fanout, tail))
  }

  function PlanOf(objects: Store, authority: Store): Plan {
    map fanout | fanout in objects :: FanoutPlan(fanout, objects[fanout], authority)
  }

  /** The object is one that gc may take. */
  predicate Redundant(objects: Store, authority: Store, fanout: Fanout, tail: Tail) {
    && fanout in objects && tail in objects[fanout]
    && Classified(objects[fanout][tail], Find(authority, fanout, tail)).Remove?
  }

  /** A store that gc has been working on: nothing is new or changed, what is missing was redundant,
      and a missing fanout had nothing else. */
  ghost predicate SweptFrom(now: Store, before: Store, authority: Store) {
    && (forall f :: f in now ==> f in before)
    && (forall f, t :: f in now && t in now[f] ==> t in before[f] && now[f][t] == before[f][t])
    && (forall f, t :: f in before && t in before[f] && !(f in now && t in now[f]) ==> Redundant(before, authority, f, t))
  }

  /** At most one fanout is different. */
  ghost predicate OnlyFanout(now: Store, before: Store, fanout: Fanout) {
    now.Keys == before.Keys && forall f :: f in now && f != fanout ==> now[f] == before[f]
  }

  /** No redundant object and no empty fanout is left. */
  ghost predicate Clean(objects: Store, authority: Store) {
    && (forall f :: f in objects ==> objects[f] != map[])
    && (forall f, t :: !Redundant(objects, authority, f, t))
  }

  /** Whatever part of a sweep has been done, every object reads as before. */
  lemma SweepKeepsView(now: Store, before: Store, authority: Store, fanout: Fanout, tail: Tail)
    requires SweptFrom(now, before, authority)
    ensures View(now, authority, fanout, tail) == View(before, authority, fanout, tail)
  {
    if Find(before, fanout, tail).Some? && Find(now, fanout, tail).None? {
      assert Redundant(before, authority, fanout, tail);
    }
  }

  /** A finished sweep is determined by where it started: exactly the objects that are not
      redundant, in exactly the fanouts that have one. */
  lemma SweepIsExact(now: Store, before: Store, authority: Store, fanout: Fanout, tail: Tail)
    requires SweptFrom(now, before, authority) && Clean(now, authority)
    ensures Find(now, fanout, tail) == if Redundant(before, authority, fanout, tail) then None else Find(before, fanout, tail)
    ensures fanout in now ==> exists t :: t in before[fanout] && !Redundant(before, authority, fanout, t)
  {
    if fanout in now && tail in now[fanout] {
      assert !Redundant(now, authority, fanout, tail);
    }
    if fanout in now {
      var t :| t in now[fanout];
      assert !Redundant(now, authority, fanout, t);
    }
  }

  /** A clean store is planned to stay as it is: a second classification finds nothing to remove. */
  lemma CleanPlansNothing(objects: Store, authority: Store, fanout: Fanout, tail: Tail)
    requires Clean(objects, authority) && fanout in objects && tail in objects[fanout]
    ensures PlanOf(objects, authority)[fanout][tail].action == Retain
  {
    assert !Redundant(objects, authority, fanout, tail);
  }

  datatype Answer = Swept | RecoveryRequired

  class PrivateObjects {
    var objects: Store
    const authority: Store
    /** On a calm run no system call fails, except for want of permission. */
    const calm: bool
    /** Fanout directories that their owner cannot write, and whether the directory above them is one. */
    const closed: set<Fanout>
    const fixed: bool

    constructor (objects: Store, authority: Store, calm: bool, closed: set<Fanout>, fixed: bool)
      ensures this.objects == objects && this.authority == authority && this.calm == calm
      ensures this.closed == closed && this.fixed == fixed
    {
      this.objects, this.authority, this.calm := objects, authority, calm;
      this.closed, this.fixed := closed, fixed;
    }

    /** What a plan does to a fanout, its directory's modes allow. */
    predicate Permitted(fanout: Fanout, plan: map<Tail, LoosePlan>) {
      && (fanout in closed ==> forall t :: t in plan ==> plan[t].action.Retain?)
      && (fixed ==> exists t :: t in plan && plan[t].action.Retain?)
    }

    method Call() returns (ok: bool)
      ensures calm ==> ok
    {
      ok := calm;
      if !calm {
        ok := *;
      }
    }

    /** `classify_private_fanout`: one file after another, in any order; reading may fail. */
    method ClassifyFanout(fanout: Fanout) returns (ok: bool, plan: map<Tail, LoosePlan>)
      requires fanout in objects
      ensures ok ==> plan == FanoutPlan(fanout, objects[fanout], authority)
      ensures ok ==> forall t :: t in plan ==>
        (plan[t].action.Remove? <==> Duplicate(Find(objects, fanout, t), Find(authority, fanout, t)))
      ensures calm ==> ok
    {
      plan := map[];
      var files := objects[fanout];
      var todo := files.Keys;
      while todo != {}
        invariant todo <= files.Keys && plan.Keys == files.Keys - todo
        invariant forall t :: t in plan ==> plan[t] == FanoutPlan(fanout, files, authority)[t]
        decreases |todo|
      {
        var tail :| tail in todo;
        var other := Find(authority, fanout, tail);
        var action := Retain;
        if other.Some? {
          ok := Call();
          if !ok {
            return;
          }
          if other.value.bytes == files[tail].bytes && files[tail].nlink == 1 && other.value.nlink == 1 {
            action := Remove(other.value.ino);
          }
        }
        plan := plan[tail := LoosePlan(files[tail].ino, files[tail].nlink, action)];
        todo := todo - {tail};
      }
      ok := true;
    }

    method Classify() returns (ok: bool, plan: Plan)
      ensures ok ==> plan == PlanOf(objects, authority)
      ensures calm ==> ok
    {
      plan := map[];
      var todo := objects.Keys;
      while todo != {}
        invariant todo <= objects.Keys && plan.Keys == objects.Keys - todo
        invariant forall f :: f in plan ==> plan[f] == PlanOf(objects, authority)[f]
        decreases |todo|
      {
        var fanout :| fanout in todo;
        var files;
        ok, files := ClassifyFanout(fanout);
        if !ok {
          return;
        }
        plan := plan[fanout := files];
        todo := todo - {fanout};
      }
      ok := true;
    }

    /** `unlink_identical_owned_regular`: compares once more, then unlinks. */
    method UnlinkIdentical(fanout: Fanout, tail: Tail, planned: LoosePlan) returns (ok: bool)
      requires Find(objects, fanout, tail).Some? && planned.action.Remove?
      modifies this`objects
      ensures ok ==> Redundant(old(objects), authority, fanout, tail)
      ensures ok ==> Duplicate(Find(old(objects), fanout, tail), Find(authority, fanout, tail))
      ensures ok ==> fanout !in closed
      ensures calm && planned == Planned(old(objects)[fanout][tail], Find(authority, fanout, tail)) ==> ok == (fanout !in closed)
      ensures objects == if ok then Without(old(objects), fanout, tail) else old(objects)
      ensures ok ==> fanout in objects && objects[fanout] == old(objects)[fanout] - {tail}
      ensures OnlyFanout(objects, old(objects), fanout)
    {
      var loose := objects[fanout][tail];
      var other := Find(authority, fanout, tail);
      ok := Call();
      if !ok || other.None? || loose.ino != planned.ino || other.value.ino != planned.action.authority
         || loose.nlink != 1 || other.value.nlink != 1 || loose.bytes != other.value.bytes {
        return false;
      }
      if fanout in closed {
        return false;
      }
      objects := Without(objects, fanout, tail);
    }

    static function Without(store: Store, fanout: Fanout, tail: Tail): Store
      requires fanout in store
    {
      store[fanout := store[fanout] - {tail}]
    }

    /** One object of the plan. */
    method SweepObject(fanout: Fanout, tail: Tail, planned: LoosePlan) returns (ok: bool)
      requires fanout in objects && tail in objects[fanout]
      requires planned == Planned(objects[fanout][tail], Find(authority, fanout, tail))
      modifies this`objects
      ensures SweptFrom(objects, old(objects), authority)
      ensures fanout in objects && OnlyFanout(objects, old(objects), fanout)
      ensures objects[fanout] == old(objects)[fanout] || objects[fanout] == old(objects)[fanout] - {tail}
      ensures ok ==> (tail in objects[fanout] <==> planned.action.Retain?) && (planned.action.Remove? ==> fanout !in closed)
      ensures ok && tail in objects[fanout] ==> !Redundant(objects, authority, fanout, tail)
      ensures calm ==> (ok <==> planned.action.Retain? || fanout !in closed)
    {
      NoneOutside(objects, authority);
      if objects[fanout][tail].ino != planned.ino {
        return false;
      }
      ok := true;
      if planned.action.Remove? {
        ghost var before := objects;
        ok := UnlinkIdentical(fanout, tail, planned);
        if ok {
          OneMore(objects, before, before, authority, fanout, tail);
          ok := Call();
        }
      }
    }

    /** `gc_loose_fanout`: follows the plan; any step may fail or be the last before a crash. */
    method SweepFanout(fanout: Fanout, plan: map<Tail, LoosePlan>) returns (ok: bool)
      requires fanout in objects && plan == FanoutPlan(fanout, objects[fanout], authority)
      modifies this`objects
      ensures fanout in objects && OnlyFanout(objects, old(objects), fanout)
      ensures SweptFrom(objects, old(objects), authority)
      ensures ok ==> forall t :: t in objects[fanout] ==> !Redundant(objects, authority, fanout, t)
      ensures ok ==> forall t :: t in objects[fanout] <==> t in plan && plan[t].action.Retain?
      ensures ok ==> (fanout in closed ==> forall t :: t in plan ==> plan[t].action.Retain?)
      ensures calm ==> (ok <==> (fanout in closed ==> forall t :: t in plan ==> plan[t].action.Retain?))
    {
      hide *;
      var todo := plan.Keys;
      NoneOutside(objects, authority);
      OnlySelf(objects, fanout);
      PlanKeys(fanout, objects[fanout], authority);
      while todo != {}
        invariant fanout in objects && OnlyFanout(objects, old(objects), fanout)
        invariant SweptFrom(objects, old(objects), authority)
        invariant todo <= plan.Keys && todo <= objects[fanout].Keys
        invariant forall t :: t in todo ==> plan[t] == Planned(objects[fanout][t], Find(authority, fanout, t))
        invariant forall t :: t in objects[fanout] && t !in todo ==> !Redundant(objects, authority, fanout, t)
        invariant forall t :: t in objects[fanout] <==> t in plan && (t in todo || plan[t].action.Retain?)
        invariant fanout in closed ==> forall t :: t in plan && t !in todo ==> plan[t].action.Retain?
        decreases |todo|
      {
        var tail :| tail in todo;
        ghost var before := objects;
        ok := SweepObject(fanout, tail, plan[tail]);
        SweepAgain(objects, before, old(objects), authority);
        OnlyAgain(objects, before, old(objects), fanout);
        if !ok {
          return;
        }
        todo := todo - {tail};
        StillNotRedundant(objects, before, authority, fanout);
      }
      ok := true;
    }

    /** One fanout: its objects, and the directory itself when nothing is left in it. */
    method SweepDirectory(fanout: Fanout, plan: map<Tail, LoosePlan>) returns (ok: bool)
      requires fanout in objects && plan == FanoutPlan(fanout, objects[fanout], authority)
      modifies this`objects
      ensures SweptFrom(objects, old(objects), authority)
      ensures forall f :: f != fanout ==> (f in objects <==> f in old(objects))
      ensures forall f :: f != fanout && f in objects ==> objects[f] == old(objects)[f]
      ensures ok ==> (fanout in objects ==> objects[fanout] != map[])
      ensures ok ==> forall t :: !Redundant(objects, authority, fanout, t)
      ensures ok ==> Permitted(fanout, plan)
      ensures calm ==> (ok <==> Permitted(fanout, plan))
    {
      ok := SweepFanout(fanout, plan);
      if ok && objects[fanout] == map[] {
        if fixed {
          return false;
        }
        objects := objects - {fanout};
        ok := Call();
      } else if ok {
        var kept :| kept in objects[fanout];
      }
    }

    /** Every fanout of the plan. */
    method SweepAll(plan: Plan) returns (ok: bool)
      requires plan == PlanOf(objects, authority)
      modifies this`objects
      ensures SweptFrom(objects, old(objects), authority)
      ensures ok ==> Clean(objects, authority) && forall f :: f in plan ==> Permitted(f, plan[f])
      ensures calm ==> (ok <==> forall f :: f in plan ==> Permitted(f, plan[f]))
    {
      hide *;
      var todo := plan.Keys;
      NoneOutside(objects, authority);
      AllToDo(objects, authority);
      while todo != {}
        invariant SweptFrom(objects, old(objects), authority)
        invariant Follows(objects, authority, plan, todo)
        invariant todo <= plan.Keys && forall f :: f in plan && f !in todo ==> Permitted(f, plan[f])
        decreases |todo|
      {
        var fanout :| fanout in todo;
        ghost var before := objects;
        FollowsAt(objects, authority, plan, todo, fanout);
        ok := SweepDirectory(fanout, plan[fanout]);
        SweepAgain(objects, before, old(objects), authority);
        if !ok {
          return;
        }
        OneDone(objects, before, authority, plan, todo, fanout);
        todo := todo - {fanout};
      }
      NothingToDo(objects, authority, plan);
      ok := true;
    }

    /** `gc_private_loose` under the session's exclusive lease. The plan made before the lease must
        still be the plan, and directories that lose an entry must be writable. At whatever step it
        stops, every object reads as before; when it runs to its end the store is clean. */
    method Sweep(plan: Plan) returns (answer: Answer)
      modifies this`objects
      ensures SweptFrom(objects, old(objects), authority)
      ensures answer == Swept ==> plan == PlanOf(old(objects), authority) && Clean(objects, authority)
      ensures answer == Swept ==> forall f, t ::
        Find(objects, f, t) == if Duplicate(Find(old(objects), f, t), Find(authority, f, t)) then None else Find(old(objects), f, t)
      ensures answer == Swept ==> forall f :: f in plan ==> Permitted(f, plan[f])
      ensures calm ==>
        (answer == Swept <==> plan == PlanOf(old(objects), authority) && forall f :: f in plan ==> Permitted(f, plan[f]))
      ensures forall f, t :: View(objects, authority, f, t) == View(old(objects), authority, f, t)
    {
      var ok, again := Classify();
      NoneOutside(objects, authority);
      if !ok || again != plan {
        return RecoveryRequired;
      }
      hide *;
      ok := SweepAll(plan);
      if ok {
        SweptDuplicates(objects, old(objects), authority);
      }
      SweptViews(objects, old(objects), authority);
      answer := if ok then Swept else RecoveryRequired;
    }
  }

  /** The plan still describes the fanouts in `todo`, and the others are clean. */
  ghost predicate Follows(objects: Store, authority: Store, plan: Plan, todo: set<Fanout>) {
    && (forall f :: f in todo ==> f in objects && f in plan && plan[f] == FanoutPlan(f, objects[f], authority))
    && (forall f :: f in objects && f !in todo ==> objects[f] != map[])
    && (forall f, t :: f !in todo ==> !Redundant(objects, authority, f, t))
  }

  lemma AllToDo(objects: Store, authority: Store)
    ensures Follows(objects, authority, PlanOf(objects, authority), PlanOf(objects, authority).Keys)
  {
  }

  lemma FollowsAt(objects: Store, authority: Store, plan: Plan, todo: set<Fanout>, fanout: Fanout)
    requires Follows(objects, authority, plan, todo) && fanout in todo
    ensures fanout in objects && fanout in plan && plan[fanout] == FanoutPlan(fanout, objects[fanout], authority)
  {
  }

  lemma OneDone(now: Store, before: Store, authority: Store, plan: Plan, todo: set<Fanout>, fanout: Fanout)
    requires Follows(before, authority, plan, todo)
    requires forall f :: f != fanout ==> (f in now <==> f in before)
    requires forall f :: f != fanout && f in now ==> now[f] == before[f]
    requires fanout in now ==> now[fanout] != map[]
    requires forall t :: !Redundant(now, authority, fanout, t)
    ensures Follows(now, authority, plan, todo - {fanout})
  {
    hide FanoutPlan;
    forall f, t | f !in todo - {fanout}
      ensures !Redundant(now, authority, f, t)
    {
      if f != fanout {
        RedundantIsLocal(now, before, authority, f, t);
      }
    }
  }

  lemma NothingToDo(objects: Store, authority: Store, plan: Plan)
    requires Follows(objects, authority, plan, {})
    ensures Clean(objects, authority)
  {
  }

  lemma OnlySelf(objects: Store, fanout: Fanout)
    ensures OnlyFanout(objects, objects, fanout)
  {
  }

  lemma OnlyAgain(now: Store, middle: Store, before: Store, fanout: Fanout)
    requires OnlyFanout(now, middle, fanout) && OnlyFanout(middle, before, fanout)
    ensures OnlyFanout(now, before, fanout)
  {
  }

  lemma PlanKeys(fanout: Fanout, files: map<Tail, Loose>, authority: Store)
    ensures FanoutPlan(fanout, files, authority).Keys == files.Keys
    ensures forall t :: t in files ==> FanoutPlan(fanout, files, authority)[t] == Planned(files[t], Find(authority, fanout, t))
  {
  }

  /** Unlinking one object makes no other one redundant. */
  lemma StillNotRedundant(now: Store, before: Store, authority: Store, fanout: Fanout)
    requires fanout in now && fanout in before
    requires forall t :: t in now[fanout] ==> t in before[fanout] && now[fanout][t] == before[fanout][t]
    ensures forall t :: t in now[fanout] ==> Redundant(now, authority, fanout, t) == Redundant(before, authority, fanout, t)
  {
  }

  lemma RedundantIsLocal(now: Store, before: Store, authority: Store, fanout: Fanout, tail: Tail)
    requires fanout in now <==> fanout in before
    requires fanout in now ==> now[fanout] == before[fanout]
    ensures Redundant(now, authority, fanout, tail) == Redundant(before, authority, fanout, tail)
  {
  }

  lemma NoneOutside(objects: Store, authority: Store)
    ensures SweptFrom(objects, objects, authority)
    ensures forall f, t :: f !in objects ==> !Redundant(objects, authority, f, t)
  {
  }

  lemma OneMore(now: Store, middle: Store, before: Store, authority: Store, fanout: Fanout, tail: Tail)
    requires SweptFrom(middle, before, authority) && Redundant(middle, authority, fanout, tail)
    requires now == PrivateObjects.Without(middle, fanout, tail)
    ensures SweptFrom(now, before, authority)
  {
  }

  lemma SweepAgain(now: Store, middle: Store, before: Store, authority: Store)
    requires SweptFrom(now, middle, authority) && SweptFrom(middle, before, authority)
    ensures SweptFrom(now, before, authority)
  {
    forall f, t | f in before && t in before[f] && !(f in now && t in now[f])
      ensures Redundant(before, authority, f, t)
    {
      if f in middle && t in middle[f] {
        assert Redundant(middle, authority, f, t);
      }
    }
  }

  /** The private file and the authority's have the same bytes and one link each. */
  ghost predicate Duplicate(loose: Option<Loose>, other: Option<Loose>) {
    && loose.Some? && other.Some? && loose.value.bytes == other.value.bytes
    && loose.value.nlink == 1 && other.value.nlink == 1
  }

  /** A finished sweep has taken exactly the duplicates. */
  lemma SweptDuplicates(now: Store, before: Store, authority: Store)
    requires SweptFrom(now, before, authority) && Clean(now, authority)
    ensures forall f, t ::
      Find(now, f, t) == if Duplicate(Find(before, f, t), Find(authority, f, t)) then None else Find(before, f, t)
  {
    forall f, t
      ensures Find(now, f, t) == if Duplicate(Find(before, f, t), Find(authority, f, t)) then None else Find(before, f, t)
    {
      SweepIsExact(now, before, authority, f, t);
    }
  }

  lemma SweptViews(now: Store, before: Store, authority: Store)
    requires SweptFrom(now, before, authority)
    ensures forall f, t :: View(now, authority, f, t) == View(before, authority, f, t)
  {
    forall f, t
      ensures View(now, authority, f, t) == View(before, authority, f, t)
    {
      SweepKeepsView(now, before, authority, f, t);
    }
  }
}

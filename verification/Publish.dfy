/** Publishing a session branch to the authority (session.rs): a five-state journal drives one
    compare-and-swap on a ref that outside writers may move at any time. Every step may fail and
    a failed step is where a crash leaves the journal. */
module Publish {
  import opened Base

  type Oid = nat

  // ---- Objects and commits ----

  /** What objects refer to, and which of these are parents. Objects are content-addressed, so
      the graph never changes; stores hold more or less of it. */
  datatype Graph = Graph(links: Oid -> set<Oid>, parents: Oid -> set<Oid>) {
    ghost predicate Valid() {
      forall o :: parents(o) <= links(o)
    }
  }

  ghost predicate Path(next: Oid -> set<Oid>, path: seq<Oid>) {
    path != [] && forall i :: 0 < i < |path| ==> path[i] in next(path[i - 1])
  }

  ghost predicate Reaches(next: Oid -> set<Oid>, from: Oid, to: Oid) {
    exists path :: Path(next, path) && path[0] == from && path[|path| - 1] == to
  }

  /** The store holds everything reachable from `tip`. */
  ghost predicate Closed(graph: Graph, objects: set<Oid>, tip: Oid) {
    forall o :: Reaches(graph.links, tip, o) ==> o in objects
  }

  ghost predicate Descends(graph: Graph, prior: Option<Oid>, tip: Oid) {
    prior.Some? ==> Reaches(graph.parents, tip, prior.value)
  }

  lemma {:induction false} PathStays(next: Oid -> set<Oid>, path: seq<Oid>, seen: set<Oid>, i: nat)
    requires Path(next, path) && path[0] in seen && i < |path|
    requires forall o :: o in seen ==> next(o) <= seen
    ensures path[i] in seen
  {
    if i > 0 {
      PathStays(next, path, seen, i - 1);
    }
  }

  lemma ReachesStep(next: Oid -> set<Oid>, from: Oid, o: Oid, p: Oid)
    requires Reaches(next, from, o) && p in next(o)
    ensures Reaches(next, from, p)
  {
    var path :| Path(next, path) && path[0] == from && path[|path| - 1] == o;
    assert Path(next, path + [p]);
  }

  lemma ReachesSelf(next: Oid -> set<Oid>, o: Oid)
    ensures Reaches(next, o, o)
  {
    assert Path(next, [o]);
  }

  /** Walks everything reachable from a tip, as `fsck` and `merge-base` do; gives up on an object
      that the store does not hold. */
  method Traverse(next: Oid -> set<Oid>, tip: Oid, objects: set<Oid>) returns (found: Option<set<Oid>>)
    ensures found.Some? ==> found.value <= objects && forall o :: o in found.value <==> Reaches(next, tip, o)
    ensures found.None? ==> exists o :: Reaches(next, tip, o) && o !in objects
  {
    var seen: set<Oid>, todo: set<Oid> := {}, {tip};
    ReachesSelf(next, tip);
    while todo != {}
      invariant seen <= objects && tip in seen + todo && seen !! todo
      invariant forall o :: o in seen ==> next(o) <= seen + todo
      invariant forall o :: o in seen + todo ==> Reaches(next, tip, o)
      decreases objects - seen
    {
      var o :| o in todo;
      if o !in objects {
        return None;
      }
      forall p | p in next(o)
        ensures Reaches(next, tip, p)
      {
        ReachesStep(next, tip, o, p);
      }
      seen := seen + {o};
      todo := (todo + next(o)) - seen;
    }
    forall o | Reaches(next, tip, o)
      ensures o in seen
    {
      var path :| Path(next, path) && path[0] == tip && path[|path| - 1] == o;
      PathStays(next, path, seen, |path| - 1);
    }
    found := Some(seen);
  }

  lemma ParentsAreLinks(graph: Graph, tip: Oid, o: Oid)
    requires graph.Valid() && Reaches(graph.parents, tip, o)
    ensures Reaches(graph.links, tip, o)
  {
    var path :| Path(graph.parents, path) && path[0] == tip && path[|path| - 1] == o;
    assert Path(graph.links, path);
  }

  // ---- Journal and events ----

  /** What a transaction is about, fixed when it is prepared. */
  datatype Frozen = Frozen(txid: nat, tip: Oid, prior: Option<Oid>, config: nat)

  datatype Journal =
    | Idle
    | Prepared(frozen: Frozen)
    | ObjectsImported(frozen: Frozen)
    | CasAttempted(frozen: Frozen)
    | CasCommitted(frozen: Frozen)

  datatype Answer = Published(tip: Oid) | Conflict | NonFastForward | RecoveryRequired | Failed

  /** What happens, in order: a publish call begins, the journal on disk changes, others move the
      ref, change the configuration or the private branch, publish looks at one of these, fetches
      objects, moves the ref (the authority then holding `objects`), or reports success. */
  datatype Event =
    | Call
    | Wrote(journal: Journal)
    | Outside(ref: Option<Oid>, config: nat, privateTip: Option<Oid>)
    | SawConfig(config: nat)
    | SawPrivate(tip: Oid)
    | SawRef(ref: Option<Oid>)
    | Fetched
    | Updated(prior: Option<Oid>, tip: Oid, objects: set<Oid>)
    | Reported(tip: Oid)

  /** What the present call has looked at since it began, fetched, or last wrote the journal; whether
      it has fetched since then; and the tip whose transaction it has just closed as committed. */
  datatype Checks = Checks(
    config: Option<nat>, tip: Option<Oid>, ref: Option<Option<Oid>>, fetched: bool, closed: Option<Oid>)

  const NoChecks := Checks(None, None, None, false, None)

  /** An observer of events. `seen` holds the ref's values since the episode began, `updated` says
      whether publish has moved the ref in this episode, `attempting` whether the present call
      itself wrote the attempt. */
  datatype Observer = Observer(
    journal: Journal, ref: Option<Oid>, config: nat, privateTip: Option<Oid>,
    seen: set<Oid>, updated: bool, attempting: bool, checks: Checks)

  /** The observer of a session whose journal is idle. */
  function Beginning(ref: Option<Oid>, config: nat, privateTip: Option<Oid>): Observer {
    Observer(Idle, ref, config, privateTip, Values(ref), false, false, NoChecks)
  }

  function Values(ref: Option<Oid>): set<Oid> {
    if ref.Some? then {ref.value} else {}
  }

  /** The stages follow one another; an attempt has one successor and no way back. */
  predicate Succeeds(journal: Journal, next: Journal) {
    match next
    case Idle => journal.Prepared? || journal.ObjectsImported? || journal.CasCommitted?
    case Prepared(_) => journal == Idle
    case ObjectsImported(frozen) => journal == Prepared(frozen)
    case CasAttempted(frozen) => journal == ObjectsImported(frozen)
    case CasCommitted(frozen) => journal == CasAttempted(frozen)
  }

  /** Each stage is written only after fresh looks: configuration and private branch as frozen, the
      ref at the frozen old value before it is prepared and again before it is attempted, and
      somewhere else where a conflict is recorded. A commit is recorded only by the call that made
      the attempt and saw it succeed. */
  predicate Advances(a: Observer, next: Journal) {
    && Succeeds(a.journal, next)
    && match next
       case Idle => a.journal.CasCommitted? || (a.checks.ref.Some? && a.checks.ref.value != a.journal.frozen.prior)
       case Prepared(frozen) => Unchanged(a.checks, frozen) && a.checks.ref == Some(frozen.prior)
       case ObjectsImported(frozen) => Unchanged(a.checks, frozen) && a.checks.fetched
       case CasAttempted(frozen) => Unchanged(a.checks, frozen) && a.checks.ref == Some(frozen.prior)
       case CasCommitted(_) => a.attempting && a.updated
  }

  predicate Unchanged(checks: Checks, frozen: Frozen) {
    checks.config == Some(frozen.config) && checks.tip == Some(frozen.tip)
  }

  /** Which events are allowed, and what the observer notes. */
  ghost function Next(graph: Graph, a: Observer, e: Event): Option<Observer> {
    match e
    case Call =>
      Some(a.(seen := if a.journal == Idle then Values(a.ref) else a.seen, attempting := false, checks := NoChecks))
    case Wrote(journal) =>
      if Advances(a, journal)
      then Some(a.(journal := journal, updated := a.updated && !journal.Prepared?,
                   attempting := journal.CasAttempted? || (a.attempting && journal.CasCommitted?),
                   checks := if a.journal.CasCommitted? then NoChecks.(closed := Some(a.journal.frozen.tip)) else NoChecks))
      else None
    case Outside(ref, config, privateTip) =>
      Some(a.(ref := ref, config := config, privateTip := privateTip, seen := a.seen + Values(ref)))
    case SawConfig(config) =>
      if a.config == config then Some(a.(checks := a.checks.(config := Some(config)))) else None
    case SawPrivate(tip) =>
      if a.privateTip == Some(tip) then Some(a.(checks := a.checks.(tip := Some(tip)))) else None
    case SawRef(ref) =>
      if a.ref == ref then Some(a.(checks := a.checks.(ref := Some(ref)))) else None
    case Fetched =>
      if a.journal.Prepared? && Unchanged(a.checks, a.journal.frozen) && a.checks.ref == Some(a.journal.frozen.prior)
      then Some(a.(checks := NoChecks.(fetched := true)))
      else None
    case Updated(prior, tip, objects) =>
      if a.journal.CasAttempted? && a.attempting && !a.updated
         && a.journal.frozen.prior == prior && a.journal.frozen.tip == tip && a.ref == prior
         && Closed(graph, objects, tip) && Descends(graph, prior, tip)
      then Some(a.(ref := Some(tip), seen := a.seen + {tip}, updated := true))
      else None
    case Reported(tip) =>
      if tip in a.seen && (a.checks.closed == Some(tip) || SameThere(a, tip)) then Some(a) else None
  }

  /** With nothing to move, success needs the configuration, the private branch and the ref looked at. */
  predicate SameThere(a: Observer, tip: Oid) {
    a.journal == Idle && a.checks.config.Some? && a.checks.tip == Some(tip) && a.checks.ref == Some(Some(tip))
  }

  /** The observer after a whole run, if every event was allowed. */
  ghost function Track(graph: Graph, start: Observer, log: seq<Event>): Option<Observer> {
    if log == [] then Some(start)
    else
      var before := Track(graph, start, log[..|log| - 1]);
      if before.None? then None else Next(graph, before.value, log[|log| - 1])
  }

  // ---- The machine ----

  class World {
    const graph: Graph
    /** `publish_txid`: prior, tip, configuration and the link count of the authority's directory
        are what can differ between two calls for one session. */
    const txid: (Option<Oid>, Oid, nat, nat) -> nat
    /** A calm world has no outside writers and no failing steps, except that where `swapLost`
        is set the compare-and-swap ends without an effect. */
    const calm: bool
    const swapLost: bool

    var journal: Journal
    var recordedOld: Option<Oid>
    var ref: Option<Oid>
    var objects: set<Oid>
    var config: nat
    /** The link count of the authority's Git directory, which grows and shrinks with its
        subdirectories. */
    var links: nat
    var privateTip: Option<Oid>
    var privateObjects: set<Oid>

    /** The link count found by the call that prepared the transaction in the journal. */
    ghost var preparedLinks: nat
    ghost const start: Observer
    ghost var log: seq<Event>
    ghost var seenBy: Observer

    /** A READY session. */
    constructor (graph: Graph, txid: (Option<Oid>, Oid, nat, nat) -> nat, calm: bool, swapLost: bool, recordedOld: Option<Oid>,
                 ref: Option<Oid>, objects: set<Oid>, config: nat, links: nat, privateTip: Option<Oid>, privateObjects: set<Oid>)
      requires graph.Valid()
      ensures Valid() && log == [] && journal == Idle && this.graph == graph
      ensures this.calm == calm && this.swapLost == swapLost
      ensures start == Beginning(ref, config, privateTip)
    {
      this.graph, this.txid, this.calm, this.swapLost := graph, txid, calm, swapLost;
      journal, this.recordedOld, this.ref, this.objects, this.config := Idle, recordedOld, ref, objects, config;
      this.links, this.privateTip, this.privateObjects := links, privateTip, privateObjects;
      start, seenBy := Beginning(ref, config, privateTip), Beginning(ref, config, privateTip);
      log := [];
    }

    /** A READY session whose publish was cut off right after it had prepared a transaction, having
        found the authority's directory with `found` links. The world is calm from then on. */
    constructor CutOffPrepared(graph: Graph, txid: (Option<Oid>, Oid, nat, nat) -> nat, prior: Option<Oid>, tip: Oid,
                               config: nat, found: nat, privateObjects: set<Oid>)
      requires graph.Valid()
      ensures Valid() && calm && !swapLost && this.graph == graph && this.txid == txid
      ensures journal == Prepared(Frozen(txid(prior, tip, config, found), tip, prior, config))
      ensures ref == prior && privateTip == Some(tip) && this.privateObjects == privateObjects && this.config == config
      ensures links == preparedLinks == found
    {
      var frozen := Frozen(txid(prior, tip, config, found), tip, prior, config);
      this.graph, this.txid, calm, swapLost := graph, txid, true, false;
      journal, recordedOld, ref, objects, this.config := Prepared(frozen), prior, prior, {}, config;
      links, preparedLinks, privateTip, this.privateObjects := found, found, Some(tip), privateObjects;
      start, seenBy := Beginning(prior, config, Some(tip)), Beginning(prior, config, Some(tip));
      log := [];
      new;
      LookAtAll(frozen);
      Note(Wrote(Prepared(frozen)));
    }

    /** A call begins and finds everything as it is to be frozen. */
    ghost method LookAtAll(frozen: Frozen)
      requires Track(graph, start, log) == Some(seenBy)
      requires seenBy == Beginning(frozen.prior, frozen.config, Some(frozen.tip))
      modifies this`log, this`seenBy
      ensures Track(graph, start, log) == Some(seenBy)
      ensures seenBy == old(seenBy).(checks := Checks(Some(frozen.config), Some(frozen.tip), Some(frozen.prior), false, None))
    {
      hide Track, Closed, Descends;
      Note(Call);
      Note(SawConfig(frozen.config));
      Note(SawPrivate(frozen.tip));
      Note(SawRef(frozen.prior));
    }

    ghost predicate Valid()
      reads this
    {
      && graph.Valid()
      && Track(graph, start, log) == Some(seenBy)
      && seenBy.journal == journal && seenBy.ref == ref && seenBy.config == config && seenBy.privateTip == privateTip
      && Values(ref) <= seenBy.seen
      && (journal.Prepared? || journal.ObjectsImported? ==> !seenBy.updated)
      && (journal.CasCommitted? ==> journal.frozen.tip in seenBy.seen)
      && (journal != Idle ==> Matches(preparedLinks))
    }

    /** What `frozen_publish_fields` compares: the id in the journal is the one computed afresh, with
        the link count this call has found. */
    predicate Matches(found: nat)
      requires journal != Idle
      reads this
    {
      journal.frozen.txid == txid(journal.frozen.prior, journal.frozen.tip, journal.frozen.config, found)
    }

    ghost method Note(e: Event)
      requires Next(graph, seenBy, e).Some?
      requires Track(graph, start, log) == Some(seenBy)
      modifies this`log, this`seenBy
      ensures Track(graph, start, log) == Some(seenBy) && Some(seenBy) == Next(graph, old(seenBy), e)
      ensures log == old(log) + [e]
    {
      hide Next, Graph.Valid;
      assert (log + [e])[..|log|] == log;
      log, seenBy := log + [e], Next(graph, seenBy, e).value;
    }

    /** What an outside step or a look leaves alone. */
    twostate predicate Disturbed()
      reads this
    {
      && Valid() && journal == old(journal) && recordedOld == old(recordedOld) && old(log) <= log
      && preparedLinks == old(preparedLinks) && old(seenBy.seen) <= seenBy.seen && old(objects) <= objects
      && seenBy.updated == old(seenBy.updated) && seenBy.attempting == old(seenBy.attempting)
      && (calm ==> ref == old(ref) && objects == old(objects) && links == old(links) && SamePrivate())
    }

    twostate predicate SamePrivate()
      reads this
    {
      config == old(config) && privateTip == old(privateTip) && privateObjects == old(privateObjects)
    }

    /** Outside writers: the ref goes anywhere, authority objects grow, the configuration, the
        authority's link count and the private branch may change. */
    method Interfere()
      requires Valid()
      modifies this
      ensures Disturbed() && seenBy.checks == old(seenBy.checks)
      ensures log == old(log) || log == old(log) + [Outside(ref, config, privateTip)]
    {
      hide Track, Graph.Valid, Closed, Descends;
      if !calm {
        var value: Option<Oid>, more: set<Oid>, mine: set<Oid> := *, *, *;
        ref, objects, privateObjects := value, objects + more, mine;
        config, links, privateTip := *, *, *;
        Note(Outside(ref, config, privateTip));
      }
    }

    /** A check against the environment that is not about refs or objects: target name, other
        worktrees, process failures. A crash is a failed step too. */
    method Gate() returns (ok: bool)
      requires Valid()
      modifies this
      ensures Disturbed() && (calm ==> ok) && seenBy.checks == old(seenBy.checks)
    {
      Interfere();
      ok := calm;
      if !calm {
        ok := *;
      }
    }

    method AuditConfig() returns (found: Option<nat>)
      requires Valid()
      modifies this
      ensures Disturbed() && (calm ==> found == Some(config)) && (found.Some? ==> found.value == config)
      ensures seenBy.checks == if found.Some? then old(seenBy.checks).(config := found) else old(seenBy.checks)
    {
      var ok := Gate();
      found := None;
      if ok {
        found := Some(config);
        Note(SawConfig(config));
      }
    }

    /** The authority's target. `Err` is told apart from an absent ref. */
    method ReadRef() returns (ok: bool, found: Option<Oid>)
      requires Valid()
      modifies this
      ensures Disturbed() && (calm ==> ok) && found == ref
      ensures seenBy.checks == if ok then old(seenBy.checks).(ref := Some(found)) else old(seenBy.checks)
    {
      ok := Gate();
      found := ref;
      if ok {
        Note(SawRef(ref));
      }
    }

    method ReadPrivateTip() returns (found: Option<Oid>)
      requires Valid()
      modifies this
      ensures Disturbed() && (calm ==> found == privateTip) && (found.Some? ==> found == privateTip)
      ensures seenBy.checks == if found.Some? then old(seenBy.checks).(tip := found) else old(seenBy.checks)
    {
      var ok := Gate();
      found := if ok then privateTip else None;
      if found.Some? {
        Note(SawPrivate(found.value));
      }
    }

    method EnsurePrivateTarget(tip: Oid) returns (ok: bool)
      requires Valid()
      modifies this
      ensures Disturbed() && (calm ==> ok == (privateTip == Some(tip)))
      ensures ok ==> seenBy.checks == old(seenBy.checks).(tip := Some(tip))
    {
      var found := ReadPrivateTip();
      ok := found == Some(tip);
    }

    /** `ensure_publish_relation`: merge-base over the private store. */
    method EnsureRelation(prior: Option<Oid>, tip: Oid) returns (answer: Option<Answer>)
      requires Valid()
      modifies this
      ensures Disturbed() && seenBy.checks == old(seenBy.checks)
      ensures answer.None? ==> Descends(graph, prior, tip)
      ensures prior.None? || prior == Some(tip) ==> answer.None?
      ensures answer == Some(NonFastForward) ==> !Descends(graph, prior, tip)
      ensures calm && Closed(graph, privateObjects, tip) ==>
        answer == if Descends(graph, prior, tip) then None else Some(NonFastForward)
      ensures answer.Some? ==> !answer.value.Published?
    {
      if prior.None? {
        return None;
      }
      if prior.value == tip {
        ReachesSelf(graph.parents, tip);
        return None;
      }
      var ok := Gate();
      var found := Traverse(graph.parents, tip, privateObjects);
      if found.None? && calm && Closed(graph, privateObjects, tip) {
        var missing :| Reaches(graph.parents, tip, missing) && missing !in privateObjects;
        ParentsAreLinks(graph, tip, missing);
      }
      if !ok || found.None? {
        return Some(Failed);
      }
      answer := if prior.value in found.value then None else Some(NonFastForward);
    }

    /** `import_publish_objects`: a failing fetch may leave any part of the objects behind. Git may
        make directories of its own, so the link count is any afterwards. */
    method Import(tip: Oid) returns (ok: bool)
      requires Valid() && journal.Prepared?
      requires Unchanged(seenBy.checks, journal.frozen) && seenBy.checks.ref == Some(journal.frozen.prior)
      modifies this
      ensures Valid() && journal == old(journal) && recordedOld == old(recordedOld) && old(log) <= log
      ensures old(seenBy.seen) <= seenBy.seen && old(objects) <= objects
      ensures seenBy.updated == old(seenBy.updated) && seenBy.attempting == old(seenBy.attempting)
      ensures preparedLinks == old(preparedLinks) && seenBy.checks == NoChecks.(fetched := true)
      ensures calm ==> ref == old(ref) && SamePrivate()
      ensures calm ==> ok == old(Closed(graph, privateObjects, tip))
      ensures calm && ok ==> Closed(graph, objects, tip)
    {
      ok := Gate();
      links := *;
      Note(Fetched);
      var found := Traverse(graph.links, tip, privateObjects);
      if !ok {
        var some: set<Oid> := *;
        objects := objects + some;
        return;
      }
      ok := found.Some?;
      if ok {
        objects := objects + found.value;
      }
    }

    /** `verify_authority_closure`: fsck over the authority store. */
    method VerifyClosure(tip: Oid) returns (ok: bool)
      requires Valid()
      modifies this
      ensures Disturbed() && seenBy.checks == old(seenBy.checks)
      ensures ok ==> Closed(graph, objects, tip)
      ensures calm ==> (ok <==> Closed(graph, objects, tip))
    {
      ok := Gate();
      var found := Traverse(graph.links, tip, objects);
      ok := ok && found.Some?;
    }

    /** `replace_publish_journal`: the record is replaced or not, and the caller may be told that
        it failed either way. */
    method WriteJournal(next: Journal, recorded: Option<Oid>, ghost found: nat) returns (ok: bool)
      requires Valid() && Advances(seenBy, next)
      requires next.CasCommitted? ==> next.frozen.tip in seenBy.seen
      requires next.Prepared? ==> next.frozen.txid == txid(next.frozen.prior, next.frozen.tip, next.frozen.config, found)
      modifies this
      ensures Valid() && old(log) <= log && old(seenBy.seen) <= seenBy.seen && old(objects) <= objects
      ensures journal == next || (!ok && journal == old(journal) && recordedOld == old(recordedOld))
      ensures journal == next && old(journal) != next ==> recordedOld == recorded
      ensures preparedLinks == if next.Prepared? && journal == next then found else old(preparedLinks)
      ensures ok ==>
        && recordedOld == recorded
        && seenBy.updated == (old(seenBy.updated) && !next.Prepared?)
        && (next.CasAttempted? ==> seenBy.attempting)
        && seenBy.checks == if old(journal).CasCommitted? then NoChecks.(closed := Some(old(journal).frozen.tip)) else NoChecks
      ensures calm ==> ok && ref == old(ref) && objects == old(objects) && SamePrivate()
    {
      var applied := Gate();
      if applied {
        journal, recordedOld := next, recorded;
        if next.Prepared? {
          preparedLinks := found;
        }
        Note(Wrote(next));
      }
      ok := Gate();
      ok := ok && applied;
    }

    /** `update_publish_ref`: one atomic compare-and-swap. Only success tells what happened, and
        directories for reference or log may have been made in any case. */
    method UpdateRef(tip: Oid, prior: Option<Oid>) returns (status: Option<bool>)
      requires Valid() && journal.CasAttempted? && seenBy.attempting && !seenBy.updated
      requires journal.frozen.tip == tip && journal.frozen.prior == prior
      requires Closed(graph, objects, tip) && Descends(graph, prior, tip)
      modifies this
      ensures Valid() && journal == old(journal) && recordedOld == old(recordedOld) && old(log) <= log
      ensures old(seenBy.seen) <= seenBy.seen && seenBy.attempting && old(objects) <= objects
      ensures preparedLinks == old(preparedLinks)
      ensures status == Some(true) ==> seenBy.updated && tip in seenBy.seen
      ensures calm ==> objects == old(objects) && SamePrivate()
      ensures calm && !swapLost && old(ref) == prior ==> status == Some(true) && ref == Some(tip)
      ensures calm && (swapLost || old(ref) != prior) ==> status != Some(true) && ref == old(ref)
    {
      var ok := Gate();
      if ok && !(calm && swapLost) && ref == prior {
        ref := Some(tip);
        Note(Updated(prior, tip, objects));
        status := Some(true);
      } else {
        status := Some(false);
      }
      links := *;
      var told := Gate();
      if !told {
        // The child failed, timed out, or said no.
        status := *;
        if status == Some(true) {
          status := None;
        }
      }
    }

    /** What every stage of a publish promises: the run stays within the allowed events, and
        success means the ref had the published value during the episode. */
    twostate predicate Progressed(answer: Answer)
      reads this
    {
      && Valid() && old(log) <= log && old(seenBy.seen) <= seenBy.seen && old(objects) <= objects
      && (answer.Published? ==> answer.tip in seenBy.seen && log != [] && log[|log| - 1] == Reported(answer.tip))
    }

    /** The private branch is at `tip`, with everything it needs. */
    ghost predicate Offers(tip: Oid)
      reads this
    {
      privateTip == Some(tip) && Closed(graph, privateObjects, tip)
    }

    ghost predicate Done(answer: Answer, tip: Oid)
      reads this
    {
      answer == Published(tip) && journal == Idle && recordedOld == Some(tip)
    }

    method AbortConflict() returns (answer: Answer)
      requires Valid() && (journal.Prepared? || journal.ObjectsImported?)
      requires seenBy.checks.ref.Some? && seenBy.checks.ref.value != journal.frozen.prior
      modifies this
      ensures Progressed(answer) && (answer == Conflict || answer == RecoveryRequired)
      ensures answer == Conflict ==> journal == Idle
      ensures preparedLinks == old(preparedLinks)
      ensures calm ==> answer == Conflict && ref == old(ref) && recordedOld == old(recordedOld)
    {
      var ok := WriteJournal(Idle, recordedOld, preparedLinks);
      answer := if ok then Conflict else RecoveryRequired;
    }

    /** What a call that finds another link count does about a transaction: nothing, in any world. */
    twostate predicate Spurned(answer: Answer)
      reads this
    {
      && Valid() && answer == Failed && log == old(log) && journal == old(journal) && recordedOld == old(recordedOld)
      && ref == old(ref) && objects == old(objects) && links == old(links) && preparedLinks == old(preparedLinks)
      && SamePrivate()
    }

    /** `finalize_committed_publish`; `found` is the link count this call has found. */
    method FinalizeCommitted(found: nat) returns (answer: Answer)
      requires Valid() && journal.CasCommitted?
      modifies this
      ensures Progressed(answer) && preparedLinks == old(preparedLinks)
      ensures !old(Matches(found)) ==> Spurned(answer)
      ensures old(Matches(found)) ==> answer == RecoveryRequired || Done(answer, old(journal).frozen.tip)
      ensures calm && old(Matches(found)) ==> answer.Published? && ref == old(ref)
    {
      if !Matches(found) {
        return Failed;
      }
      var tip := journal.frozen.tip;
      var ok := WriteJournal(Idle, Some(tip), found);
      if !ok {
        return RecoveryRequired;
      }
      Note(Reported(tip));
      answer := Published(tip);
    }

    /** The checks both stages repeat before they act on a frozen transaction. */
    method Recheck(frozen: Frozen) returns (refused: Option<Answer>)
      requires Valid()
      modifies this
      ensures Disturbed()
      ensures refused.None? ==> Unchanged(seenBy.checks, frozen) && Descends(graph, frozen.prior, frozen.tip)
      ensures refused.Some? ==> !refused.value.Published?
      ensures calm && !Current(frozen) ==> refused == Some(Failed)
      ensures calm && Current(frozen) && Closed(graph, privateObjects, frozen.tip) ==>
        refused == if Descends(graph, frozen.prior, frozen.tip) then None else Some(NonFastForward)
    {
      hide Track, Graph.Valid, Closed, Descends;
      var current := AuditConfig();
      if current != Some(frozen.config) {
        return Some(Failed);
      }
      var ok := Gate();
      if !ok {
        return Some(Failed);
      }
      ok := EnsurePrivateTarget(frozen.tip);
      if !ok {
        return Some(Failed);
      }
      refused := EnsureRelation(frozen.prior, frozen.tip);
    }

    /** Configuration and private branch are as they were frozen. */
    predicate Current(frozen: Frozen)
      reads this
    {
      config == frozen.config && privateTip == Some(frozen.tip)
    }

    /** Nothing has come of a call: the transaction stays where it is. */
    twostate predicate Stays(answer: Answer, refusal: Answer)
      reads this
    {
      answer == refusal && journal == old(journal) && recordedOld == old(recordedOld) && ref == old(ref)
    }

    /** What stands in the way of a frozen transaction in a calm world, and how it is answered: a
        configuration or private branch that has changed, a tip that is not a descendant, and objects
        that are missing where they are to be imported from or already to be. */
    twostate predicate Obstructed(answer: Answer, stage: Journal)
      requires stage.Prepared? || stage.ObjectsImported?
      reads this
    {
      var frozen := stage.frozen;
      && (!old(Current(frozen)) ==> Stays(answer, Failed))
      && (old(Current(frozen)) && old(Closed(graph, privateObjects, frozen.tip)) && !Descends(graph, frozen.prior, frozen.tip) ==>
          Stays(answer, NonFastForward))
      && (stage.Prepared? && !old(Closed(graph, privateObjects, frozen.tip)) ==> !answer.Published? && ref == old(ref))
      && (stage.ObjectsImported? && !old(Closed(graph, objects, frozen.tip)) ==>
          if old(Offers(frozen.tip)) && Descends(graph, frozen.prior, frozen.tip) then Stays(answer, Failed)
          else !answer.Published? && ref == old(ref))
    }

    /** Published, or left at the attempt with the ref where it was. */
    twostate predicate Swapped(answer: Answer, frozen: Frozen)
      reads this
    {
      if swapLost then answer == RecoveryRequired && journal == CasAttempted(frozen) && ref == old(ref)
      else Done(answer, frozen.tip) && ref == Some(frozen.tip)
    }

    /** The same for the transaction that a call prepares itself. */
    twostate predicate Moved(answer: Answer, tip: Oid)
      reads this
    {
      if swapLost
      then answer == RecoveryRequired && journal.CasAttempted? && journal.frozen.tip == tip && ref == old(ref)
      else Done(answer, tip) && ref == Some(tip)
    }

    /** From the attempt to the end: the only place where publish moves the ref. */
    method CompareAndSwap(frozen: Frozen, found: nat) returns (answer: Answer)
      requires Valid() && journal == ObjectsImported(frozen) && Matches(found)
      requires Unchanged(seenBy.checks, frozen) && seenBy.checks.ref == Some(frozen.prior)
      requires Closed(graph, objects, frozen.tip) && Descends(graph, frozen.prior, frozen.tip)
      modifies this
      ensures Progressed(answer) && preparedLinks == old(preparedLinks)
      ensures answer == RecoveryRequired || Done(answer, frozen.tip)
      ensures calm && old(ref) == frozen.prior ==> Swapped(answer, frozen)
    {
      hide Track, Graph.Valid, Closed, Descends;
      ghost var held := objects;
      var ok := WriteJournal(CasAttempted(frozen), recordedOld, found);
      if !ok {
        return RecoveryRequired;
      }
      StillClosed(graph, held, objects, frozen.tip);
      var status := UpdateRef(frozen.tip, frozen.prior);
      if status != Some(true) {
        return RecoveryRequired;
      }
      ok := WriteJournal(CasCommitted(frozen), recordedOld, found);
      if !ok {
        return RecoveryRequired;
      }
      answer := FinalizeCommitted(found);
    }

    /** `publish_objects_imported`. */
    method PublishObjectsImported(found: nat) returns (answer: Answer)
      requires Valid() && journal.ObjectsImported?
      modifies this
      ensures Progressed(answer) && preparedLinks == old(preparedLinks)
      ensures !old(Matches(found)) ==> Spurned(answer)
      ensures answer.Published? ==> Done(answer, old(journal).frozen.tip)
      ensures calm && old(Matches(found)) && old(Ready()) && old(Closed(graph, objects, journal.frozen.tip)) ==>
        Settled(answer, old(journal).frozen)
      ensures calm && old(Matches(found)) ==> Obstructed(answer, old(journal))
    {
      hide Track, Graph.Valid, Closed, Descends;
      if !Matches(found) {
        return Failed;
      }
      var frozen := journal.frozen;
      var refused := Recheck(frozen);
      if refused.Some? {
        return refused.value;
      }
      var ok := VerifyClosure(frozen.tip);
      if !ok {
        return Failed;
      }
      ghost var held := objects;
      var value;
      ok, value := ReadRef();
      if !ok {
        return Failed;
      }
      if value != frozen.prior {
        answer := AbortConflict();
        return;
      }
      ok := Gate();
      if !ok {
        return Failed;
      }
      StillClosed(graph, held, objects, frozen.tip);
      answer := CompareAndSwap(frozen, found);
    }

    /** Nothing stands in the way of the frozen transaction except, perhaps, the ref itself and the
        comparison of its id. */
    ghost predicate Ready()
      requires journal.Prepared? || journal.ObjectsImported?
      reads this
    {
      var frozen := journal.frozen;
      Offers(frozen.tip) && config == frozen.config && Descends(graph, frozen.prior, frozen.tip)
    }

    /** Where a calm run of a frozen transaction ends. */
    twostate predicate Settled(answer: Answer, frozen: Frozen)
      reads this
    {
      if old(ref) == frozen.prior then Swapped(answer, frozen)
      else answer == Conflict && journal == Idle && ref == old(ref)
    }

    /** `publish_prepared`. */
    method PublishPrepared(found: nat) returns (answer: Answer)
      requires Valid() && journal.Prepared?
      modifies this
      ensures Progressed(answer) && preparedLinks == old(preparedLinks)
      ensures !old(Matches(found)) ==> Spurned(answer)
      ensures answer.Published? ==> Done(answer, old(journal).frozen.tip)
      ensures calm && old(Matches(found)) && old(Ready()) ==> Settled(answer, old(journal).frozen)
      ensures calm && old(Matches(found)) ==> Obstructed(answer, old(journal))
    {
      hide Track, Graph.Valid, Closed, Descends;
      if !Matches(found) {
        return Failed;
      }
      var frozen := journal.frozen;
      var refused := Recheck(frozen);
      if refused.Some? {
        return refused.value;
      }
      var ok, value := ReadRef();
      if !ok {
        return Failed;
      }
      if value != frozen.prior {
        answer := AbortConflict();
        return;
      }
      ok := Import(frozen.tip);
      if !ok {
        return Failed;
      }
      ok := Reverify(frozen);
      if !ok {
        return Failed;
      }
      ok := WriteJournal(ObjectsImported(frozen), recordedOld, found);
      if !ok {
        return RecoveryRequired;
      }
      answer := PublishObjectsImported(found);
    }

    /** The checks after the import. */
    method Reverify(frozen: Frozen) returns (ok: bool)
      requires Valid()
      modifies this
      ensures Disturbed()
      ensures ok ==> seenBy.checks == old(seenBy.checks).(config := Some(frozen.config), tip := Some(frozen.tip))
      ensures ok ==> Closed(graph, objects, frozen.tip)
      ensures calm ==> (ok <==> Current(frozen) && Closed(graph, objects, frozen.tip))
    {
      hide Track, Graph.Valid, Closed, Descends;
      var current := AuditConfig();
      if current != Some(frozen.config) {
        return false;
      }
      ok := EnsurePrivateTarget(frozen.tip);
      if !ok {
        return;
      }
      ok := VerifyClosure(frozen.tip);
    }

    /** What a new transaction starts from: configuration, authority target, private branch. */
    method Survey() returns (failed: bool, fingerprint: nat, expected: Option<Oid>, tip: Oid)
      requires Valid()
      modifies this
      ensures Disturbed()
      ensures calm ==> failed == old(privateTip).None?
      ensures calm && !failed ==> fingerprint == config && expected == ref && Some(tip) == privateTip
      ensures !failed ==> seenBy.checks.config == Some(fingerprint) && seenBy.checks.tip == Some(tip)
    {
      hide Track, Graph.Valid, Closed, Descends;
      failed, fingerprint, expected, tip := true, 0, None, 0;
      var audited := AuditConfig();
      if audited.None? {
        return;
      }
      var ok := Gate();
      if !ok {
        return;
      }
      ok, expected := ReadRef();
      if !ok {
        return;
      }
      var found := ReadPrivateTip();
      if found.Some? {
        failed, fingerprint, tip := false, audited.value, found.value;
      }
    }

    /** How a calm world answers a publish from an idle journal. */
    twostate predicate Answered(answer: Answer)
      reads this
    {
      if old(privateTip).None? then Stays(answer, Failed)
      else
        var tip := old(privateTip).value;
        if old(ref) == Some(tip) then Stays(answer, if old(Closed(graph, objects, tip)) then Published(tip) else Failed)
        else if !old(Closed(graph, privateObjects, tip)) then !answer.Published? && ref == old(ref)
        else if !Descends(graph, old(ref), tip) then Stays(answer, NonFastForward)
        else Moved(answer, tip)
    }

    /** `publish` from an idle journal. */
    method PublishIdle(found: nat) returns (answer: Answer)
      requires Valid() && journal == Idle
      modifies this
      ensures Progressed(answer) && (journal != Idle ==> preparedLinks == found)
      ensures answer.Published? ==> journal == Idle
      ensures calm ==> Answered(answer)
    {
      hide Track, Graph.Valid, Closed, Descends, Next, Reaches;
      var failed, fingerprint, expected, tip := Survey();
      if failed {
        return Failed;
      }
      var refused := EnsureRelation(expected, tip);
      if refused.Some? {
        return refused.value;
      }
      if expected == Some(tip) {
        answer := SameTip(tip, fingerprint);
        return;
      }
      var ok := Gate();
      if !ok {
        return Failed;
      }
      var value;
      ok, value := ReadRef();
      if !ok {
        return Failed;
      }
      if value != expected {
        return Conflict;
      }
      var frozen := Frozen(txid(expected, tip, fingerprint, found), tip, expected, fingerprint);
      ok := WriteJournal(Prepared(frozen), recordedOld, found);
      if !ok {
        return RecoveryRequired;
      }
      answer := PublishPrepared(found);
    }

    /** The authority is already there: nothing is written, everything is checked. */
    method SameTip(tip: Oid, fingerprint: nat) returns (answer: Answer)
      requires Valid() && journal == Idle
      modifies this
      ensures Progressed(answer) && journal == Idle
      ensures answer.Published? ==> answer.tip == tip
      ensures calm && old(privateTip) == Some(tip) == old(ref) && fingerprint == old(config) ==>
        Stays(answer, if old(Closed(graph, objects, tip)) then Published(tip) else Failed)
    {
      hide Track, Graph.Valid, Closed, Descends;
      var ok := VerifyClosure(tip);
      if !ok {
        return Failed;
      }
      var current := AuditConfig();
      if current != Some(fingerprint) {
        return Failed;
      }
      ok := Gate();
      if !ok {
        return Failed;
      }
      ok := EnsurePrivateTarget(tip);
      if !ok {
        return Failed;
      }
      var value;
      ok, value := ReadRef();
      if !ok {
        return Failed;
      }
      if value != Some(tip) {
        return Conflict;
      }
      Note(Reported(tip));
      answer := Published(tip);
    }

    /** A transaction that only the comparison of its id can keep a calm world from finishing. */
    ghost predicate Resumable()
      reads this
    {
      match journal
      case Prepared(_) => Ready()
      case ObjectsImported(frozen) => Ready() && Closed(graph, objects, frozen.tip)
      case CasCommitted(_) => true
      case _ => false
    }

    twostate predicate Finished(answer: Answer, journal: Journal)
      requires journal != Idle
      reads this
    {
      if journal.CasCommitted? then Done(answer, journal.frozen.tip) else Settled(answer, journal.frozen)
    }

    /** One `publish` command, whatever stage an earlier one was cut off in. The authority is looked
        at once, when the call begins. A transaction in the journal is taken up only if its id is
        the one that this look gives. */
    method Publish() returns (answer: Answer)
      requires Valid()
      modifies this
      ensures Valid() && old(log) < log && log[|old(log)|] == Call
      ensures answer.Published? ==> log[|log| - 1] == Reported(answer.tip)
      ensures old(journal) != Idle ==> preparedLinks == old(preparedLinks)
      ensures old(journal) == Idle && journal != Idle ==> preparedLinks == old(links)
      ensures old(journal) != Idle && !old(Matches(links)) ==> Refused(answer, Failed)
      ensures old(journal).CasAttempted? ==> Refused(answer, Failed) || Refused(answer, RecoveryRequired)
      ensures calm && old(journal).CasAttempted? && old(Matches(links)) ==> answer == RecoveryRequired
      ensures calm && old(Resumable()) && old(Matches(links)) ==> Finished(answer, old(journal))
      ensures calm && (old(journal).Prepared? || old(journal).ObjectsImported?) && old(Matches(links)) ==>
        Obstructed(answer, old(journal))
      ensures calm && old(journal) == Idle ==> Answered(answer)
    {
      hide Track, Graph.Valid, Closed, Descends;
      Note(Call);
      var entered := calm;
      if !calm {
        entered := *;
      }
      if !entered {
        return Failed;
      }
      var found := links;
      match journal {
        case CasAttempted(_) =>
          answer := if Matches(found) then RecoveryRequired else Failed;
        case CasCommitted(_) =>
          answer := FinalizeCommitted(found);
        case Idle =>
          answer := PublishIdle(found);
        case Prepared(_) =>
          answer := PublishPrepared(found);
        case ObjectsImported(_) =>
          answer := PublishObjectsImported(found);
      }
    }

    /** The call has begun and has changed nothing. */
    twostate predicate Refused(answer: Answer, refusal: Answer)
      reads this
    {
      && answer == refusal && journal == old(journal) && recordedOld == old(recordedOld) && ref == old(ref)
      && objects == old(objects) && links == old(links) && SamePrivate() && log == old(log) + [Call]
    }

    /** A transaction whose id the authority's present link count does not give is refused by every
        call, with any outside writes in between, until a call finds a count that gives it: then a
        calm world brings the transaction to its end. */
    method RefuseUntilBack(drift: nat -> nat, calls: nat, back: nat)
      returns (answers: seq<Answer>, last: Answer, ghost refused: nat)
      requires Valid() && journal != Idle && Matches(back) && forall i :: !Matches(drift(i))
      modifies this
      ensures Valid() && old(log) <= log
      ensures |answers| == calls && forall i :: 0 <= i < calls ==> answers[i] == Failed
      ensures |old(log)| <= refused < |log| && forall k :: |old(log)| <= k < refused ==> log[k].Call? || log[k].Outside?
      ensures calm && old(Resumable()) ==> Finished(last, old(journal))
    {
      hide Track, Graph.Valid, Closed, Descends;
      answers := [];
      for i := 0 to calls
        invariant Valid() && old(log) <= log && journal == old(journal) && recordedOld == old(recordedOld)
        invariant preparedLinks == old(preparedLinks)
        invariant |answers| == i && forall k :: 0 <= k < i ==> answers[k] == Failed
        invariant forall k :: |old(log)| <= k < |log| ==> log[k].Call? || log[k].Outside?
        invariant calm ==> ref == old(ref) && objects == old(objects) && SamePrivate()
      {
        Interfere();
        links := drift(i);
        var answer := Publish();
        answers := answers + [answer];
      }
      links, refused := back, |log|;
      last := Publish();
    }

    /** Any number of publish commands, with outside writers in between. */
    method Run(calls: nat)
      requires Valid()
      modifies this
      ensures Valid() && old(log) <= log && Allowed(graph, start, log)
    {
      for i := 0 to calls
        invariant Valid() && old(log) <= log
      {
        Interfere();
        var _ := Publish();
      }
      Interfere();
    }
  }

  /** Where the id determines what is hashed, a transaction is taken up exactly when the authority's
      directory has as many links as when the transaction was prepared. */
  lemma MatchesByLinkCount(world: World)
    requires world.Valid() && world.journal != Idle
    requires forall prior, tip, config, m, n :: world.txid(prior, tip, config, m) == world.txid(prior, tip, config, n) ==> m == n
    ensures world.Matches(world.links) <==> world.links == world.preparedLinks
  {
  }

  /** A publish is cut off at PREPARED, the authority's Git directory gets one more subdirectory,
      and nothing else happens: the next call fails without a failing step and keeps the
      transaction. Back at the old count, the same call publishes. */
  method DriftedLinkCount() returns (drifted: Answer, back: Answer)
    ensures drifted == Failed && back == Published(1)
  {
    var graph := Graph(_ => {}, _ => {});
    var world := new World.CutOffPrepared(graph, (prior, tip, config, n) => n, None, 1, 0, 3, {1});
    OnlyItself(graph, 1);
    world.links := 4;
    assert !world.Matches(4) && world.Valid();
    drifted := world.Publish();
    world.links := 3;
    assert world.Matches(3) && world.Resumable();
    back := world.Publish();
  }

  lemma OnlyItself(graph: Graph, tip: Oid)
    requires forall o :: graph.links(o) == {}
    ensures Closed(graph, {tip}, tip)
  {
    forall o | Reaches(graph.links, tip, o)
      ensures o == tip
    {
      var path :| Path(graph.links, path) && path[0] == tip && path[|path| - 1] == o;
      PathStays(graph.links, path, {tip}, |path| - 1);
    }
  }

  /** The attempt is not replayed even where the swap was never applied: in a calm world that
      loses the swap, the first call leaves the ref alone, and so does the next one, which names
      the attempt unless the link count has changed meanwhile. */
  method LoseSwap(world: World) returns (first: Answer, second: Answer)
    requires world.Valid() && world.calm && world.swapLost && world.journal == Idle
    requires world.privateTip.Some? && world.Offers(world.privateTip.value)
    requires Descends(world.graph, world.ref, world.privateTip.value) && world.ref != world.privateTip
    modifies world
    ensures first == RecoveryRequired
    ensures world.Valid() && world.journal.CasAttempted? && Some(world.journal.frozen.tip) == old(world.privateTip)
    ensures second == if world.Matches(world.links) then RecoveryRequired else Failed
    ensures world.ref == old(world.ref)
  {
    first := world.Publish();
    second := world.Publish();
  }

  /** A growing store keeps what it holds. */
  lemma StillClosed(graph: Graph, before: set<Oid>, after: set<Oid>, tip: Oid)
    requires Closed(graph, before, tip) && before <= after
    ensures Closed(graph, after, tip)
  {
  }

  // ---- What every allowed run satisfies ----

  ghost predicate Allowed(graph: Graph, start: Observer, log: seq<Event>) {
    Track(graph, start, log).Some?
  }

  /** The observer after the first `i` events. */
  ghost function At(graph: Graph, start: Observer, log: seq<Event>, i: nat): Observer
    requires i <= |log| && Allowed(graph, start, log[..i])
  {
    Track(graph, start, log[..i]).value
  }

  lemma {:induction false} PrefixAllowed(graph: Graph, start: Observer, log: seq<Event>, i: nat)
    requires Allowed(graph, start, log) && i <= |log|
    ensures Allowed(graph, start, log[..i])
    ensures i < |log| ==> Next(graph, At(graph, start, log, i), log[i]).Some?
    ensures i < |log| ==> Track(graph, start, log[..i + 1]) == Next(graph, At(graph, start, log, i), log[i])
    decreases |log|
  {
    if i == |log| {
      assert log[..i] == log;
    } else {
      var front := log[..|log| - 1];
      if i < |front| {
        PrefixAllowed(graph, start, front, i);
        assert front[..i] == log[..i] && front[..i + 1] == log[..i + 1];
      } else {
        assert log[..i] == front && log[..i + 1] == log;
      }
    }
  }

  ghost predicate EndsEpisode(e: Event) {
    e.Wrote? && (e.journal == Idle || e.journal.Prepared?)
  }

  /** Whenever the journal is not idle, it goes back to the write that prepared it, with nothing
      but its own episode since then, and no update yet unless the observer saw one. */
  lemma {:induction false} EpisodeStart(graph: Graph, start: Observer, log: seq<Event>) returns (k: nat)
    requires start.journal == Idle && Allowed(graph, start, log)
    requires Track(graph, start, log).value.journal != Idle
    ensures k < |log| && log[k] == Wrote(Prepared(Track(graph, start, log).value.journal.frozen))
    ensures forall i :: k < i < |log| ==> !EndsEpisode(log[i])
    ensures !Track(graph, start, log).value.updated ==> forall i :: k < i < |log| ==> !log[i].Updated?
    decreases |log|
  {
    var n := |log| - 1;
    if log[n].Wrote? && log[n].journal.Prepared? {
      k := n;
    } else {
      k := EpisodeStart(graph, start, log[..n]);
      assert log[..n][k] == log[k];
    }
  }

  /** Every update of the ref by publish belongs to an episode of its own: it goes from exactly the
      frozen old value to exactly the frozen tip of the latest preparation, the episode has seen
      no other update, and the authority then holds all of the tip, which descends from the old value. */
  lemma UpdateIsItsEpisodes(graph: Graph, start: Observer, log: seq<Event>, j: nat) returns (k: nat, frozen: Frozen)
    requires start.journal == Idle && Allowed(graph, start, log) && j < |log| && log[j].Updated?
    ensures k < j && log[k] == Wrote(Prepared(frozen)) && frozen.prior == log[j].prior && frozen.tip == log[j].tip
    ensures forall i :: k < i < j ==> !EndsEpisode(log[i]) && !log[i].Updated?
    ensures Closed(graph, log[j].objects, log[j].tip) && Descends(graph, log[j].prior, log[j].tip)
    ensures Allowed(graph, start, log[..j]) && At(graph, start, log, j).ref == frozen.prior
    ensures Allowed(graph, start, log[..j + 1]) && At(graph, start, log, j + 1).ref == Some(frozen.tip)
  {
    PrefixAllowed(graph, start, log, j);
    hide Track, Closed, Descends;
    k := EpisodeStart(graph, start, log[..j]);
    frozen := At(graph, start, log, j).journal.frozen;
    assert forall i :: 0 <= i < j ==> log[..j][i] == log[i];
  }

  /** What makes a call's earlier looks stale. */
  predicate Outdates(e: Event) {
    e.Call? || e.Wrote? || e.Fetched?
  }

  predicate Noted(checks: Checks, e: Event) {
    match e
    case SawConfig(config) => checks.config == Some(config)
    case SawPrivate(tip) => checks.tip == Some(tip)
    case SawRef(ref) => checks.ref == Some(ref)
    case Fetched => checks.fetched
    case _ => false
  }

  /** What is noted as looked at was looked at, and nothing has made the look stale since. */
  lemma {:induction false} LookIsRecent(graph: Graph, start: Observer, log: seq<Event>, n: nat, e: Event) returns (i: nat)
    requires Allowed(graph, start, log) && n <= |log| && start.checks == NoChecks
    requires Allowed(graph, start, log[..n]) && Noted(At(graph, start, log, n).checks, e)
    ensures i < n && log[i] == e && forall k :: i < k < n ==> !Outdates(log[k])
    decreases n
  {
    hide Closed, Descends;
    PrefixAllowed(graph, start, log, n - 1);
    if log[n - 1] == e {
      i := n - 1;
    } else {
      i := LookIsRecent(graph, start, log, n - 1, e);
    }
  }

  /** Every stage that publish records on its way to the swap, and the fetch, come after fresh looks in
      the same call, since its last write and fetch before: the configuration and the private branch were found
      as frozen; the ref was found at the frozen old value before objects are fetched, where the
      transaction is prepared and where the swap is attempted; and the objects were fetched before they are recorded as
      imported. A look finds what is there at that moment. */
  lemma StageIsChecked(graph: Graph, start: Observer, log: seq<Event>, j: nat, looks: set<Event>)
    requires Allowed(graph, start, log) && start.checks == NoChecks && j < |log|
    requires Allowed(graph, start, log[..j]) && looks == Looks(At(graph, start, log, j).journal, log[j])
    ensures forall e :: e in looks ==>
      exists i :: 0 <= i < j && log[i] == e && forall k :: i < k < j ==> !Outdates(log[k])
  {
    PrefixAllowed(graph, start, log, j);
    LooksAreNoted(graph, At(graph, start, log, j), log[j]);
    hide Closed, Descends, Track, Next;
    forall e | e in looks
      ensures exists i :: 0 <= i < j && log[i] == e && forall k :: i < k < j ==> !Outdates(log[k])
    {
      var i := LookIsRecent(graph, start, log, j, e);
    }
  }

  /** The looks an event needs. */
  ghost function Looks(journal: Journal, e: Event): set<Event> {
    match e
    case Wrote(Prepared(frozen)) => {SawConfig(frozen.config), SawPrivate(frozen.tip), SawRef(frozen.prior)}
    case Wrote(ObjectsImported(frozen)) => {SawConfig(frozen.config), SawPrivate(frozen.tip), Fetched}
    case Wrote(CasAttempted(frozen)) => {SawConfig(frozen.config), SawPrivate(frozen.tip), SawRef(frozen.prior)}
    case Fetched =>
      if journal == Idle then {}
      else {SawConfig(journal.frozen.config), SawPrivate(journal.frozen.tip), SawRef(journal.frozen.prior)}
    case _ => {}
  }

  lemma LooksAreNoted(graph: Graph, a: Observer, e: Event)
    requires Next(graph, a, e).Some?
    ensures forall look :: look in Looks(a.journal, e) ==> Noted(a.checks, look)
  {
  }

  /** A look in an allowed run finds what is there at that moment. */
  lemma LookIsTrue(graph: Graph, start: Observer, log: seq<Event>, i: nat)
    requires Allowed(graph, start, log) && i < |log|
    ensures Allowed(graph, start, log[..i])
    ensures
      var a := At(graph, start, log, i);
      match log[i]
      case SawConfig(config) => a.config == config
      case SawPrivate(tip) => a.privateTip == Some(tip)
      case SawRef(ref) => a.ref == ref
      case _ => true
  {
    PrefixAllowed(graph, start, log, i);
  }

  /** Two updates are in different episodes. */
  lemma OneUpdatePerEpisode(graph: Graph, start: Observer, log: seq<Event>, i: nat, j: nat)
    requires start.journal == Idle && Allowed(graph, start, log)
    requires i < j < |log| && log[i].Updated? && log[j].Updated?
    ensures exists k, m :: i < k < m < j && log[k] == Wrote(Idle) && EndsEpisode(log[m]) && log[m].journal.Prepared?
  {
    var m, frozen := UpdateIsItsEpisodes(graph, start, log, j);
    PrefixAllowed(graph, start, log, m);
    PrefixAllowed(graph, start, log, i);
    PrefixAllowed(graph, start, log, i + 1);
    var k := BackToIdle(graph, start, log, i + 1, m);
    assert EndsEpisode(log[m]);
  }

  /** Between a journal that is not idle and one that is, idleness is written. */
  lemma {:induction false} BackToIdle(graph: Graph, start: Observer, log: seq<Event>, i: nat, m: nat) returns (k: nat)
    requires Allowed(graph, start, log) && i <= m <= |log|
    requires Allowed(graph, start, log[..i]) && At(graph, start, log, i).journal != Idle
    requires Allowed(graph, start, log[..m]) && At(graph, start, log, m).journal == Idle
    ensures i <= k < m && log[k] == Wrote(Idle)
    decreases m
  {
    PrefixAllowed(graph, start, log, m - 1);
    if At(graph, start, log, m - 1).journal != Idle {
      k := m - 1;
    } else {
      k := BackToIdle(graph, start, log, i, m - 1);
    }
  }

  /** A call that finds an attempt in the journal is the end of the matter: no later event of the
      run writes the journal or moves the ref on behalf of publish. */
  lemma {:induction false} AttemptIsNotReplayed(graph: Graph, start: Observer, log: seq<Event>, i: nat, j: nat)
    requires Allowed(graph, start, log) && i < j <= |log| && log[i] == Call
    requires Allowed(graph, start, log[..i]) && At(graph, start, log, i).journal.CasAttempted?
    ensures Allowed(graph, start, log[..j])
    ensures At(graph, start, log, j).journal == At(graph, start, log, i).journal && !At(graph, start, log, j).attempting
    ensures forall m :: i <= m < j ==> !log[m].Updated? && !log[m].Wrote?
    decreases j
  {
    PrefixAllowed(graph, start, log, j);
    PrefixAllowed(graph, start, log, j - 1);
    hide Closed, Descends, Track;
    if j - 1 > i {
      AttemptIsNotReplayed(graph, start, log, i, j - 1);
    }
  }

  /** A run that ends at the attempt without any update is allowed, so nothing but the swap's own
      report could tell that it was not applied. */
  lemma AttemptWithoutUpdate(graph: Graph, start: Observer, frozen: Frozen) returns (log: seq<Event>)
    requires start == Beginning(frozen.prior, frozen.config, Some(frozen.tip))
    ensures Allowed(graph, start, log) && log != [] && log[|log| - 1] == Wrote(CasAttempted(frozen))
    ensures forall i :: 0 <= i < |log| ==> !log[i].Updated?
    ensures Track(graph, start, log).value.ref == start.ref
    ensures Track(graph, start, log).value.journal == CasAttempted(frozen)
  {
    hide Closed, Descends;
    log := TrackMore(graph, start, [], Call);
    log := TrackLooks(graph, start, log, frozen);
    log := TrackMore(graph, start, log, Wrote(Prepared(frozen)));
    log := TrackLooks(graph, start, log, frozen);
    log := TrackMore(graph, start, log, Fetched);
    log := TrackLooks(graph, start, log, frozen);
    log := TrackMore(graph, start, log, Wrote(ObjectsImported(frozen)));
    log := TrackLooks(graph, start, log, frozen);
    log := TrackMore(graph, start, log, Wrote(CasAttempted(frozen)));
  }

  /** Looks that find everything as it was frozen. */
  lemma TrackLooks(graph: Graph, start: Observer, log: seq<Event>, frozen: Frozen) returns (longer: seq<Event>)
    requires Allowed(graph, start, log)
    requires
      var a := Track(graph, start, log).value;
      a.ref == frozen.prior && a.config == frozen.config && a.privateTip == Some(frozen.tip)
    requires forall i :: 0 <= i < |log| ==> !log[i].Updated?
    ensures Allowed(graph, start, longer)
    ensures
      var a := Track(graph, start, log).value;
      Track(graph, start, longer) ==
        Some(a.(checks := a.checks.(config := Some(frozen.config), tip := Some(frozen.tip), ref := Some(frozen.prior))))
    ensures forall i :: 0 <= i < |longer| ==> !longer[i].Updated?
  {
    hide Closed, Descends;
    longer := TrackMore(graph, start, log, SawConfig(frozen.config));
    longer := TrackMore(graph, start, longer, SawPrivate(frozen.tip));
    longer := TrackMore(graph, start, longer, SawRef(frozen.prior));
  }

  lemma TrackMore(graph: Graph, start: Observer, log: seq<Event>, e: Event) returns (longer: seq<Event>)
    requires Allowed(graph, start, log)
    ensures longer == log + [e]
    ensures Track(graph, start, longer) == Next(graph, Track(graph, start, log).value, e)
  {
    longer := log + [e];
    assert longer[..|longer| - 1] == log;
  }

  /** What the observer has seen, the ref has been, since the latest call that found the journal idle. */
  lemma {:induction false} SeenWasThere(graph: Graph, start: Observer, log: seq<Event>, n: nat, value: Oid) returns (i: nat)
    requires Allowed(graph, start, log) && n <= |log| && start.seen == Values(start.ref)
    requires Allowed(graph, start, log[..n]) && value in At(graph, start, log, n).seen
    ensures i <= n && Allowed(graph, start, log[..i]) && At(graph, start, log, i).ref == Some(value)
    ensures forall m :: i <= m < n && log[m] == Call ==>
      Allowed(graph, start, log[..m]) && At(graph, start, log, m).journal != Idle
    decreases n
  {
    hide Closed, Descends;
    if At(graph, start, log, n).ref == Some(value) {
      i := n;
    } else {
      PrefixAllowed(graph, start, log, n - 1);
      i := SeenWasThere(graph, start, log, n - 1, value);
    }
  }

  /** Success is never reported for a value the ref did not have during the episode, also when the
      report comes from a later call that only finishes what a crash interrupted. */
  lemma ReportedWasThere(graph: Graph, start: Observer, log: seq<Event>, j: nat) returns (i: nat)
    requires Allowed(graph, start, log) && start.seen == Values(start.ref) && j < |log| && log[j].Reported?
    ensures i <= j && Allowed(graph, start, log[..i]) && At(graph, start, log, i).ref == Some(log[j].tip)
    ensures forall m :: i <= m < j && log[m] == Call ==>
      Allowed(graph, start, log[..m]) && At(graph, start, log, m).journal != Idle
  {
    PrefixAllowed(graph, start, log, j);
    i := SeenWasThere(graph, start, log, j, log[j].tip);
  }
}

/** The life of one session name (session.rs): create, publish, remove and gc move a record, a root
    directory and a tombstone directory through their stages. Every command has a budget of
    effective system calls; when it is spent the command is cut off, by a failure or a crash. */
module SessionLife {
  import opened Base
  import Journals = Publish

  /** A session directory: its inode, the kinds of the entries left in it in the order in which they
      are removed, and whether its removal has begun. `contained` says that its root has the recorded
      identity and mode, every file in it is the user's and has all its links there, and every
      directory can be read, so that the first pass of `remove_owned_tree` accepts it (module
      OwnedTree); `stays` is how many entries, at the end of that order, no removal gets to because
      the first of them is in a directory that cannot be written; `loads` says that the topology of
      a READY session is intact, and `classifies` that its private objects can be told apart. */
  datatype Node = Node(id: nat, entries: seq<Kind>, stays: nat, cut: bool, contained: bool, loads: bool, classifies: bool)

  datatype Payload =
    | Prepared
    | Materializing(id: nat)
    | Ready(id: nat, journal: Journals.Journal)
    | Tombstoned(id: nat)

  datatype Answer = Created | AlreadyReady | Published | Removed | Refused | CutOff

  /** Where a creation fails without being cut off: nowhere, before the root's identity is recorded,
      or when the n-th entry is due. */
  datatype Fault = NoFault | EarlyFault | FaultAt(n: nat)

  function Rank(payload: Payload): nat {
    match payload
    case Prepared => 1
    case Materializing(_) => 2
    case Ready(_, _) => 3
    case Tombstoned(_) => 4
  }

  /** A journal after at most `n` of the stages, up to where it is idle again. */
  function Followed(journal: Journals.Journal, stages: seq<Journals.Journal>, n: nat): Journals.Journal
    decreases |stages|
  {
    if stages == [] || n == 0 || !Journals.Succeeds(journal, stages[0]) then journal
    else if stages[0] == Journals.Idle then Journals.Idle
    else Followed(stages[0], stages[1..], n - 1)
  }

  /** gc refuses special files, the remove command does not. */
  predicate Accepted(node: Node, gc: bool) {
    node.contained && (gc ==> Special !in node.entries)
  }

  /** An accepted tree whose removal can come to its end. */
  predicate Finishable(node: Node, gc: bool) {
    Accepted(node, gc) && node.stays == 0
  }

  /** A tree that removal takes away: all its links are inside, nothing in it is blocked, and gc finds no
      special file in it. */
  ghost predicate Yields(node: Node, gc: bool) {
    node.contained && node.stays == 0 && (gc ==> forall i :: 0 <= i < |node.entries| ==> node.entries[i] != Special)
  }

  /** `node` after the first `n` entries are gone. */
  function Without(node: Node, n: nat): Node
    requires n <= |node.entries|
  {
    node.(entries := node.entries[n..], cut := node.cut || 0 < n)
  }

  /** What a removal may leave of a tree. */
  predicate LeftOf(left: Node, node: Node) {
    node.stays <= |left.entries| <= |node.entries| && left == Without(node, |node.entries| - |left.entries|)
  }

  lemma LeftKeeps(left: Node, node: Node)
    requires LeftOf(left, node)
    ensures left.contained == node.contained && left.stays == node.stays
    ensures forall gc :: Accepted(node, gc) ==> Accepted(left, gc)
  {
  }

  lemma LeftWhole(node: Node)
    requires node.stays <= |node.entries|
    ensures LeftOf(node, node)
  {
  }

  class Slot {
    var record: Option<Payload>
    var root: Option<Node>
    var tombstone: Option<Node>
    var nextId: nat
    var budget: nat

    constructor ()
      ensures Valid() && record.None?
    {
      record, root, tombstone, nextId, budget := None, None, None, 0, 0;
    }

    predicate Bounded(node: Option<Node>) {
      node.Some? ==> node.value.stays <= |node.value.entries|
    }

    /** Holds at every moment: no directory without its record, never both directories, and each
        directory is the one its record names. */
    predicate Valid()
      reads this
    {
      && (root.Some? || tombstone.Some? ==> record.Some?)
      && (root.Some? ==> tombstone.None? && root.value.id < nextId)
      && (tombstone.Some? ==> record == Some(Tombstoned(tombstone.value.id)))
      && (root.Some? && !record.value.Prepared? ==> record.value.id == root.value.id)
      && (record.Some? && record.value.Ready? ==> root.Some? && !root.value.cut)
      && Bounded(root) && Bounded(tombstone)
    }

    /** The number of steps a removal still has to take. */
    function Measure(): nat
      reads this
    {
      (if record.Some? then 1 else 0)
      + (if root.Some? then |root.value.entries| + 2 else 0)
      + (if tombstone.Some? then |tombstone.value.entries| + 1 else 0)
    }

    predicate Gone()
      reads this
    {
      record.None? && root.None? && tombstone.None?
    }

    /** The session's directory, under whichever of its two names. */
    function Tree(): Option<Node>
      reads this
    {
      if root.Some? then root else tombstone
    }

    predicate Removable(gc: bool)
      reads this
    {
      Tree().Some? ==> Finishable(Tree().value, gc)
    }

    /** A removal has been decided on and cannot be completed. */
    predicate Blocked()
      reads this
    {
      record.Some? && record.value.Tombstoned? && !Removable(false)
    }

    /** A READY session that commands let in: idle journal, intact topology. */
    predicate Serviceable()
      reads this
    {
      record.Some? && record.value.Ready? && record.value.journal == Journals.Idle && root.Some? && root.value.loads
    }

    /** The session was left at an attempted compare-and-swap. */
    predicate Attempted()
      reads this
    {
      record.Some? && record.value.Ready? && record.value.journal.CasAttempted?
    }

    /** A record only ever moves forward, and keeps its root's identity, until it is removed; an
        attempt that was left in the journal stays there. */
    twostate predicate Forward()
      reads this
    {
      && (old(record).Some? && record.Some? ==>
          && Rank(old(record).value) <= Rank(record.value)
          && (!old(record).value.Prepared? ==> record.value.id == old(record).value.id))
      && (old(Attempted()) ==> record == old(record))
    }

    twostate predicate Untouched()
      reads this
    {
      record == old(record) && root == old(root) && tombstone == old(tombstone)
    }

    /** One more effective system call, if the command is not cut off. */
    method Spend() returns (ok: bool)
      modifies this`budget
      ensures ok == (0 < old(budget)) && budget == if ok then old(budget) - 1 else 0
    {
      ok := 0 < budget;
      if ok {
        budget := budget - 1;
      }
    }

    // ---- Removal ----

    /** `remove_owned_tree` and `remove_owned_tree_gc` at the tombstone name: all or nothing first,
        then entry by entry until one cannot be unlinked. */
    method RemoveTombstoneTree(gc: bool) returns (ok: bool)
      requires Valid() && tombstone.Some?
      modifies this`tombstone, this`budget
      ensures Valid() && Forward()
      ensures ok <==> Finishable(old(tombstone).value, gc) && |old(tombstone).value.entries| < old(budget)
      ensures !Accepted(old(tombstone).value, gc) ==> tombstone == old(tombstone) && budget == old(budget)
      ensures Accepted(old(tombstone).value, gc) ==>
        && Measure() + old(budget) == old(Measure()) + budget
        && (ok ==> tombstone.None?)
        && (!ok ==> tombstone.Some? && LeftOf(tombstone.value, old(tombstone).value))
        && (!ok ==> budget == 0 || |tombstone.value.entries| == old(tombstone).value.stays)
    {
      if !Accepted(tombstone.value, gc) {
        return false;
      }
      while tombstone.value.stays < |tombstone.value.entries|
        invariant tombstone.Some? && LeftOf(tombstone.value, old(tombstone).value)
        invariant |tombstone.value.entries| + old(budget) == |old(tombstone).value.entries| + budget
        decreases |tombstone.value.entries|
      {
        ok := Spend();
        if !ok {
          return;
        }
        tombstone := Some(Without(tombstone.value, 1));
      }
      if tombstone.value.entries != [] {
        return false;
      }
      ok := Spend();
      if ok {
        tombstone := None;
      }
    }

    /** `promote_tombstone`. */
    method Promote() returns (ok: bool)
      requires Valid() && record.Some? && record.value.Tombstoned? && (root.Some? || tombstone.Some?)
      modifies this`root, this`tombstone, this`budget
      ensures Valid() && (ok ==> tombstone.Some?) && Tree() == old(Tree())
      ensures Measure() + old(budget) == old(Measure()) + budget && budget <= old(budget)
      ensures !ok ==> budget == 0
    {
      if tombstone.Some? {
        return true;
      }
      ok := Spend();
      if ok {
        root, tombstone := None, root;
      }
    }

    method RemoveRecord() returns (ok: bool)
      requires Valid() && record.Some? && root.None? && tombstone.None?
      modifies this`record, this`budget
      ensures Valid() && Measure() + old(budget) == old(Measure()) + budget
      ensures (ok <==> 0 < old(budget)) && (ok ==> Gone()) && (!ok ==> record == old(record) && budget == 0)
    {
      ok := Spend();
      if ok {
        record := None;
      }
    }

    /** `complete_tombstone`, for the remove command or for gc. On a tree whose removal can come to
        its end each effective step takes the measure down by exactly one, so a run that is cut off
        leaves exactly the rest for the next one. A tree that the operation does not accept stays
        whole. Any other loses at most what is removed before the first entry that cannot be
        unlinked, and no run completes it. */
    method CompleteTombstone(gc: bool) returns (ok: bool)
      requires Valid() && record.Some? && record.value.Tombstoned?
      modifies this
      ensures Valid() && Forward() && nextId == old(nextId)
      ensures ok <==> old(Removable(gc)) && old(Measure()) <= old(budget)
      ensures old(Removable(gc)) ==> Removable(gc) && Measure() == if ok then 0 else old(Measure()) - old(budget)
      ensures old(Tree()).Some? && !Accepted(old(Tree()).value, gc) ==> Tree() == old(Tree())
      ensures !old(Removable(gc)) ==> Tree().Some? && LeftOf(Tree().value, old(Tree()).value)
      ensures old(Tree()).Some? && Accepted(old(Tree()).value, gc) && 0 < old(Tree()).value.stays && old(Measure()) <= old(budget) ==>
        |Tree().value.entries| == old(Tree()).value.stays
      ensures Measure() <= old(Measure())
      ensures if ok then Gone() else record == old(record)
    {
      hide LeftOf, Without, Accepted;
      if root.None? && tombstone.None? {
        ok := RemoveRecord();
        return;
      }
      ghost var whole := Tree().value;
      LeftWhole(whole);
      ok := Promote();
      if !ok {
        return;
      }
      ok := RemoveTombstoneTree(gc);
      if !ok {
        if Accepted(whole, gc) {
          LeftKeeps(tombstone.value, whole);
        }
        return;
      }
      ok := RemoveRecord();
    }

    method TransitionTombstone() returns (ok: bool)
      requires Valid() && record.Some? && (Serviceable() || record.value.Materializing?) && root.Some?
      modifies this`record, this`budget
      ensures Valid() && Forward() && record.Some?
      ensures ok == (0 < old(budget)) && budget == (if ok then old(budget) - 1 else 0)
      ensures if ok then record == Some(Tombstoned(old(record).value.id)) else record == old(record)
    {
      ok := Spend();
      if ok {
        record := Some(Tombstoned(record.value.id));
      }
    }

    /** What `remove --force` takes on: anything but a READY session whose journal is not idle or that
        no longer loads, a root whose record was cut off before its identity was stored, and a
        record whose root a cut-off clean-up has taken. */
    predicate Admitted()
      reads this
    {
      && (record.Some? && record.value.Ready? ==> Serviceable())
      && (record.Some? && record.value.Prepared? ==> root.None?)
      && (record.Some? && record.value.Materializing? ==> root.Some?)
    }

    /** What it can also bring to an end. */
    predicate Recoverable()
      reads this
    {
      Admitted() && Removable(false)
    }

    /** The same in terms of record, root and journal. */
    ghost predicate MayGo()
      reads this
    {
      match record
      case None => true
      case Some(Prepared) => root.None?
      case Some(Materializing(_)) => root.Some? && Yields(root.value, false)
      case Some(Ready(_, journal)) => journal == Journals.Idle && root.Some? && root.value.loads && Yields(root.value, false)
      case Some(Tombstoned(_)) =>
        (root.Some? ==> Yields(root.value, false)) && (tombstone.Some? ==> Yields(tombstone.value, false))
    }

    /** `remove`. Whether discarding is safe is the caller's `clean`. */
    method Remove(force: bool, clean: bool) returns (answer: Answer)
      requires Valid()
      modifies this
      ensures Valid() && Forward() && nextId == old(nextId)
      ensures (answer == Removed <==> Gone()) && (answer == Removed || answer == Refused || answer == CutOff)
      ensures answer == Refused ==> Untouched()
      ensures force && old(Measure()) < old(budget) ==> (Gone() <==> old(Recoverable()))
      ensures old(Measure()) < old(budget) && (force || old(record).None? || old(record).value.Tombstoned? || (old(record).value.Ready? && clean)) ==>
        (Gone() <==> old(MayGo()))
      ensures force ==> (answer == Refused <==> !old(Admitted()))
      ensures old(record).Some? && old(record).value.Ready? && !old(Serviceable()) ==> answer == Refused
      // A session with a file linked from outside, or with something in a directory that cannot be
      // written, is tombstoned all the same, and then stays.
      ensures force && old(Serviceable()) && !old(Removable(false)) && 0 < old(budget) ==>
        record == Some(Tombstoned(old(record).value.id)) && Blocked() && LeftOf(Tree().value, old(Tree()).value)
      ensures old(Blocked()) ==> record == old(record) && Blocked() && LeftOf(Tree().value, old(Tree()).value)
      ensures !force && old(record).Some? && !old(record).value.Tombstoned? && !(old(record).value.Ready? && clean) ==>
        answer == Refused
    {
      if record.None? {
        return Removed;
      }
      if record.value.Ready? && record.value.journal != Journals.Idle {
        return Refused;
      }
      var ok;
      match record.value {
        case Tombstoned(_) =>
        case Ready(_, _) =>
          if !root.value.loads || (!force && !clean) {
            return Refused;
          }
          ok := TransitionTombstone();
          if !ok {
            return CutOff;
          }
        case Materializing(_) =>
          if !force || root.None? {
            return Refused;
          }
          ok := TransitionTombstone();
          if !ok {
            return CutOff;
          }
        case Prepared =>
          if !force || root.Some? {
            return Refused;
          }
          ok := RemoveRecord();
          return if ok then Removed else CutOff;
      }
      ok := CompleteTombstone(false);
      answer := if ok then Removed else CutOff;
    }

    /** What the census of every gc reports as needing recovery, which stops that gc before it
        removes anything anywhere. */
    predicate NeedsRecovery()
      reads this
    {
      match record
      case None => false
      case Some(Prepared) => root.Some?
      case Some(Materializing(_)) => root.None?
      case Some(Ready(_, _)) => !Serviceable() || !root.value.classifies
      case Some(Tombstoned(_)) => false
    }

    /** The same in terms of record, root and journal: a PREPARED record with a root, a MATERIALIZING one
        without, or a READY one whose publish is not over, whose topology is not intact, or whose
        private objects cannot be told apart. */
    ghost predicate Unfinished()
      reads this
    {
      && record.Some?
      && ((record.value == Prepared && root.Some?)
          || (record.value.Materializing? && root.None?)
          || (record.value.Ready?
              && (record.value.journal != Journals.Idle || root.None? || !root.value.loads || !root.value.classifies)))
    }

    ghost predicate Yielding()
      reads this
    {
      Tree().Some? ==> Yields(Tree().value, true)
    }

    lemma YieldingIsRemovable()
      ensures Yielding() <==> Removable(true)
    {
    }

    /** gc for this session, given that nothing else in the state directory stops it: it finishes
        removals and starts none. */
    method Gc(restSafe: bool) returns (ok: bool)
      requires Valid()
      modifies this
      ensures Valid() && Forward() && nextId == old(nextId)
      ensures !restSafe || old(Unfinished()) ==> !ok && Untouched()
      ensures old(record).None? || !old(record).value.Tombstoned? ==> Untouched()
      ensures old(record).Some? && old(record).value.Tombstoned? && old(Measure()) <= old(budget) ==>
        (Gone() <==> restSafe && old(Yielding())) && (ok <==> Gone())
      ensures old(record).Some? && old(record).value.Tombstoned? && !old(Removable(true)) ==>
        record == old(record) && Measure() <= old(Measure()) && forall gc :: Removable(gc) == old(Removable(gc))
      ensures old(Blocked()) ==> record == old(record) && Blocked() && LeftOf(Tree().value, old(Tree()).value)
    {
      if !restSafe || NeedsRecovery() {
        return false;
      }
      ok := true;
      if record.Some? && record.value.Tombstoned? {
        ok := CompleteTombstone(true);
      }
    }

    // ---- Publishing ----

    /** `publish`, as far as the record goes: the journal goes through `stages` as far as it may
        (module Publish says when it does), and an attempt found in it is left alone. */
    method Publish(stages: seq<Journals.Journal>) returns (answer: Answer)
      requires Valid()
      modifies this`record, this`budget
      ensures Valid() && Forward()
      ensures old(record).Some? && old(record).value.Ready? && root.value.loads && !old(Attempted()) ==>
        record == Some(Ready(old(record).value.id, Followed(old(record).value.journal, stages, old(budget))))
      ensures old(record).None? || !old(record).value.Ready? || !root.value.loads || old(Attempted()) ==>
        answer == Refused && record == old(record)
      ensures answer == Published ==> record.Some? && record.value.Ready? && record.value.journal == Journals.Idle
    {
      if record.None? || !record.value.Ready? || !root.value.loads || record.value.journal.CasAttempted? {
        return Refused;
      }
      var id := record.value.id;
      for i := 0 to |stages|
        invariant Valid() && record.Some? && record.value.Ready? && record.value.id == id
        invariant Followed(old(record).value.journal, stages, old(budget)) == Followed(record.value.journal, stages[i..], budget)
      {
        var next := stages[i];
        assert stages[i..][1..] == stages[i + 1..];
        if !Journals.Succeeds(record.value.journal, next) {
          return CutOff;
        }
        var ok := Spend();
        if !ok {
          return CutOff;
        }
        var committed := record.value.journal.CasCommitted?;
        record := Some(Ready(id, next));
        if next == Journals.Idle {
          return if committed then Published else Refused;
        }
      }
      answer := CutOff;
    }

    // ---- Creation ----

    method WriteRecord(next: Payload) returns (ok: bool)
      modifies this`record, this`budget
      ensures ok == (0 < old(budget)) && budget == if ok then old(budget) - 1 else 0
      ensures record == if ok then Some(next) else old(record)
    {
      ok := Spend();
      if ok {
        record := Some(next);
      }
    }

    /** `CreateTxn::abort` for an error that does not retain the session. */
    method AbortCreate()
      requires Valid() && record.Some? && (record.value.Prepared? || record.value.Materializing?)
      requires root.Some? && Finishable(root.value, false)
      modifies this`record, this`root, this`budget
      ensures Valid() && Forward()
      ensures record.None? || record == old(record)
      ensures |old(root).value.entries| + 2 <= old(budget) ==> Gone()
    {
      var ok;
      while root.value.entries != []
        invariant root.Some? && root.value.id == old(root).value.id && record == old(record) && Valid()
        invariant Finishable(root.value, false) && |root.value.entries| + old(budget) == |old(root).value.entries| + budget
        decreases |root.value.entries|
      {
        ok := Spend();
        if !ok {
          return;
        }
        root := Some(root.value.(entries := root.value.entries[1..], cut := true));
      }
      ok := Spend();
      if !ok {
        return;
      }
      root := None;
      ok := RemoveRecord();
    }

    /** `create`. `matches` says whether an existing record is for the same inputs and for an authority
        directory with the same identity, link count included: a rerun with the same inputs is
        refused after the count has changed. `content` is what is built; `fault` is where a step fails without a crash, and `retained` whether that error
        keeps what there is for diagnosis. */
    method Create(matches: bool, content: seq<Kind>, fault: Fault, retained: bool) returns (answer: Answer)
      requires Valid()
      modifies this
      ensures Valid() && Forward()
      ensures answer == Created ==>
        && record == Some(Ready(old(nextId), Journals.Idle))
        && root == Some(Node(old(nextId), content, 0, false, true, true, true)) && Serviceable()
      ensures old(record).Some? ==> Untouched()
      ensures old(record).Some? ==>
        (answer == AlreadyReady <==>
          matches && old(record).value.Ready? && old(record).value.journal == Journals.Idle && old(root).value.loads)
      ensures tombstone == old(tombstone)
      ensures old(record).None? && old(budget) == 2 && fault != EarlyFault ==>
        record == Some(Prepared) && root.Some? && root.value.contained
      // A creation that is not cut off ends READY, or with nothing, or with what was built so far.
      ensures old(record).None? && 2 * |content| + 5 <= old(budget) ==>
        match fault
        case NoFault => answer == Created
        case EarlyFault => if retained then record == Some(Prepared) && root.Some? && root.value.entries == [] else Gone()
        case FaultAt(n) =>
          if |content| < n then answer == Created
          else if retained
          then record == Some(Materializing(old(nextId))) && root.Some? && root.value.entries == content[..n]
          else Gone()
    {
      if record.Some? {
        return if matches && Serviceable() then AlreadyReady else Refused;
      }
      var ok := WriteRecord(Prepared);
      if !ok {
        return CutOff;
      }
      ok := Spend();
      if !ok {
        return CutOff;
      }
      var id := nextId;
      root, nextId := Some(Node(id, [], 0, false, true, true, true)), nextId + 1;
      if fault == EarlyFault {
        if !retained {
          AbortCreate();
        }
        return Refused;
      }
      ok := WriteRecord(Materializing(id));
      if !ok {
        return CutOff;
      }
      var done := 0;
      while true
        invariant Valid() && done <= |content| && root == Some(Node(id, content[..done], 0, false, true, true, true))
        invariant record == Some(Materializing(id)) && tombstone.None?
        invariant fault.FaultAt? ==> done <= fault.n
        invariant old(budget) <= budget + done + 3
        decreases |content| - done
      {
        if fault == FaultAt(done) {
          if !retained {
            AbortCreate();
          }
          return Refused;
        }
        if done == |content| {
          break;
        }
        ok := Spend();
        if !ok {
          return CutOff;
        }
        assert content[..done + 1] == content[..done] + [content[done]];
        root := Some(root.value.(entries := root.value.entries + [content[done]]));
        done := done + 1;
      }
      assert content[..done] == content;
      ok := WriteRecord(Ready(id, Journals.Idle));
      answer := if ok then Created else CutOff;
    }

    /** Whoever works in a READY session may do anything to its tree. */
    method Work(entries: seq<Kind>, stays: nat, contained: bool, loads: bool, classifies: bool)
      requires Valid()
      modifies this`root
      ensures Valid() && Forward()
      ensures root == if record.Some? && record.value.Ready? && stays <= |entries|
        then Some(Node(old(root).value.id, entries, stays, false, contained, loads, classifies)) else old(root)
    {
      if record.Some? && record.value.Ready? && stays <= |entries| {
        root := Some(Node(root.value.id, entries, stays, false, contained, loads, classifies));
      }
    }

    /** The user makes every directory of the session writable. */
    method MakeWritable()
      requires Valid()
      modifies this`root, this`tombstone
      ensures Valid() && Tree().Some? == old(Tree()).Some?
      ensures Tree().Some? ==> Tree().value == old(Tree()).value.(stays := 0)
    {
      if root.Some? {
        root := Some(root.value.(stays := 0));
      }
      if tombstone.Some? {
        tombstone := Some(tombstone.value.(stays := 0));
      }
    }

    // ---- Runs ----

    /** Commands in any order, each cut off anywhere. A session left at an attempted compare-and-swap
        keeps its record, its root and that journal through all of them, and one whose removal is
        blocked is there for good. */
    method Run(commands: seq<Command>)
      requires Valid()
      modifies this
      ensures Valid()
      ensures old(Blocked()) ==> record == old(record) && Blocked() && Tree().value.contained == old(Tree()).value.contained
      ensures old(Attempted()) ==> record == old(record) && root.Some? && root.value.id == old(root).value.id && tombstone.None?
    {
      for i := 0 to |commands|
        invariant Valid()
        invariant old(Attempted()) ==> record == old(record)
        invariant old(Blocked()) ==> record == old(record) && Blocked() && Tree().value.contained == old(Tree()).value.contained
      {
        Do(commands[i]);
      }
    }

    method Do(command: Command)
      requires Valid()
      modifies this
      ensures Valid()
      ensures old(Attempted()) ==> record == old(record)
      ensures old(Blocked()) ==> record == old(record) && Blocked() && Tree().value.contained == old(Tree()).value.contained
    {
      match command {
        case Create(cut, matches, content, fault, retained) =>
          budget := cut;
          var _ := Create(matches, content, fault, retained);
        case Publish(cut, stages) =>
          budget := cut;
          var _ := Publish(stages);
        case Remove(cut, force, clean) =>
          budget := cut;
          var _ := Remove(force, clean);
        case Gc(cut, restSafe) =>
          budget := cut;
          var _ := Gc(restSafe);
        case Work(entries, stays, contained, loads, classifies) =>
          Work(entries, stays, contained, loads, classifies);
      }
    }

    /** Not every cut-off creation can be undone: cut off between its directory and the record
        of the directory's identity, it leaves what `remove --force` refuses for good. */
    method CutBeforeIdentity(matches: bool, content: seq<Kind>, cut: nat) returns (answer: Answer)
      requires Valid() && record.None?
      modifies this
      ensures answer == Refused && root.Some? && !Gone()
    {
      budget := 2;
      var _ := Create(matches, content, NoFault, true);
      budget := cut;
      answer := Remove(true, true);
    }

    /** A program run in a session leaves a read-only directory with a file in it. A forced removal,
        with as many steps as it likes, ends with the session tombstoned. */
    method BlockRemoval(steps: nat) returns (answer: Answer)
      requires Valid() && Serviceable() && 0 < steps
      modifies this
      ensures Valid() && Blocked() && Tree().value.contained && answer == CutOff
    {
      hide LeftOf, Forward, Measure;
      Work([Regular], 1, true, true, true);
      ghost var worked := root.value;
      budget := steps;
      assert Admitted() && Tree() == Some(worked);
      answer := Remove(true, true);
      LeftKeeps(Tree().value, worked);
    }

    /** After that no commands finish it; made writable, the session goes. */
    method ReadOnlyDirectory(steps: nat, commands: seq<Command>) returns (first: Answer, last: Answer)
      requires Valid() && Serviceable() && 0 < steps
      modifies this
      ensures Valid() && Gone() && first == CutOff && last == Removed
    {
      hide Valid, Blocked, Tree, Gone;
      first := BlockRemoval(steps);
      Run(commands);
      last := FinishBlocked();
    }

    /** A removal that is blocked by modes alone ends when the modes are changed. */
    method FinishBlocked() returns (answer: Answer)
      requires Valid() && Blocked() && Tree().value.contained
      modifies this
      ensures Valid() && Gone() && answer == Removed
    {
      MakeWritable();
      budget := Measure() + 1;
      answer := Remove(true, true);
    }

    /** Rerunning the completion of a removal by an operation that can finish it, each run cut off
        after as many steps as `cuts` says but at least one, ends with everything gone after at most
        `Measure` runs. */
    method Converge(gc: bool, cuts: nat -> nat) returns (runs: nat)
      requires Valid() && record.Some? && record.value.Tombstoned? && Removable(gc)
      requires forall i :: 0 < cuts(i)
      modifies this
      ensures Valid() && Gone() && runs <= old(Measure())
    {
      runs := 0;
      while record.Some?
        invariant Valid() && Removable(gc) && runs + Measure() <= old(Measure())
        invariant record.Some? ==> record.value.Tombstoned?
        invariant record.None? ==> Gone()
        decreases Measure()
      {
        budget := cuts(runs);
        var _ := CompleteTombstone(gc);
        runs := runs + 1;
      }
    }

    /** A tombstoned session with a special file in it: gc never finishes it, however often it runs,
        and one removal by the remove command does. */
    method OnlyRemoveFinishes(cuts: seq<nat>) returns (answer: Answer)
      requires Valid() && record.Some? && record.value.Tombstoned? && Removable(false) && !Removable(true)
      modifies this
      ensures Valid() && Gone() && answer == Removed
    {
      for i := 0 to |cuts|
        invariant Valid() && record == old(record) && Removable(false) && !Removable(true)
      {
        budget := cuts[i];
        var ok := Gc(true);
      }
      budget := Measure() + 1;
      answer := Remove(true, true);
    }
  }

  // ---- gc over all sessions ----

  twostate predicate Same(slot: Slot)
    reads slot
  {
    slot.record == old(slot.record) && slot.root == old(slot.root) && slot.tombstone == old(slot.tombstone)
  }

  predicate IsTombstoned(slot: Slot)
    reads slot
  {
    slot.record.Some? && slot.record.value.Tombstoned?
  }

  /** gc first takes a census of all sessions, and then goes through them in order until one fails.
      `restSafe` covers templates and unknown names, `loose` the clean-up of private objects
      (module LooseGc). One session that needs recovery, such as one left at an attempted
      compare-and-swap, stops the collection of every other, and one whose removal is blocked stops
      the collection of those after it. */
  method GcAll(slots: seq<Slot>, restSafe: bool, loose: nat -> bool) returns (ok: bool)
    requires forall i :: 0 <= i < |slots| ==> slots[i].Valid()
    requires forall i, j :: 0 <= i < j < |slots| ==> slots[i] != slots[j]
    modifies set i | 0 <= i < |slots| :: slots[i]
    ensures forall i :: 0 <= i < |slots| ==> slots[i].Valid()
    ensures !restSafe || (exists i :: 0 <= i < |slots| && old(slots[i].Unfinished())) ==>
      !ok && forall i :: 0 <= i < |slots| ==> Same(slots[i])
    ensures forall i :: 0 <= i < |slots| && !old(IsTombstoned(slots[i])) ==> Same(slots[i])
    ensures ok ==> forall i :: 0 <= i < |slots| && old(IsTombstoned(slots[i])) ==> slots[i].Gone()
    ensures forall i, j :: 0 <= i < j < |slots| && old(IsTombstoned(slots[i])) && !old(slots[i].Yielding()) ==>
      !ok && Same(slots[j])
    ensures restSafe && (forall i :: 0 <= i < |slots| ==> !old(slots[i].Unfinished()) && loose(i))
      && (forall i :: 0 <= i < |slots| && old(IsTombstoned(slots[i])) ==>
          old(slots[i].Yielding()) && old(slots[i].Measure()) <= old(slots[i].budget))
      ==> ok
  {
    hide LeftOf, Accepted, Without, Finishable, Yields, Slot.Forward;
    var safe := Census(slots);
    if !restSafe || !safe {
      return false;
    }
    var i := 0;
    while i < |slots|
      invariant i <= |slots|
      invariant forall j :: 0 <= j < |slots| ==> slots[j].Valid()
      invariant forall j :: i <= j < |slots| ==> Same(slots[j]) && slots[j].budget == old(slots[j].budget)
      invariant forall j :: 0 <= j < i && !old(IsTombstoned(slots[j])) ==> Same(slots[j])
      invariant forall j :: 0 <= j < i && old(IsTombstoned(slots[j])) ==> slots[j].Gone() && old(slots[j].Yielding())
    {
      if IsTombstoned(slots[i]) {
        slots[i].YieldingIsRemovable();
        ok := slots[i].CompleteTombstone(true);
        if !ok {
          return;
        }
      } else if slots[i].Serviceable() && !loose(i) {
        return false;
      }
      i := i + 1;
    }
    ok := true;
  }

  method Census(slots: seq<Slot>) returns (safe: bool)
    requires forall i :: 0 <= i < |slots| ==> slots[i].Valid()
    ensures safe <==> forall i :: 0 <= i < |slots| ==> !slots[i].Unfinished()
  {
    for i := 0 to |slots|
      invariant forall j :: 0 <= j < i ==> !slots[j].Unfinished()
    {
      if slots[i].NeedsRecovery() {
        return false;
      }
    }
    safe := true;
  }

  datatype Command =
    | Create(cut: nat, matches: bool, content: seq<Kind>, fault: Fault, retained: bool)
    | Publish(cut: nat, stages: seq<Journals.Journal>)
    | Remove(cut: nat, force: bool, clean: bool)
    | Gc(cut: nat, restSafe: bool)
    | Work(entries: seq<Kind>, stays: nat, contained: bool, loads: bool, classifies: bool)
}

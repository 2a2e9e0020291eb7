/** The life of one template (template.rs): acquire takes it from PREPARED to READY, gc from READY
    to nothing, and either may be cut off after any of its effective system calls. */
module TemplateLife {
  import opened Base

  /** What a record keeps of a sealed root: its inode and its content. The program keeps a digest
      in place of the content (module TreeStream). */
  datatype Receipt = Receipt(root: nat, content: seq<Item>)

  /** One manifest entry as it is materialized. */
  type Item = string

  /** A root directory: its inode, its own mode, and what is in it. */
  datatype Root = Root(id: nat, mode: nat, content: seq<Item>)

  datatype Payload =
    | Prepared
    | Materializing(root: nat)
    | Publishing(sealed: Receipt)
    | Ready(sealed: Receipt)
    | Tombstoned(sealed: Receipt)

  datatype Answer = Acquired(sealed: Receipt) | Incomplete | Rejected | CutOff

  class Slot {
    const macos: bool
    /** The key of a template fixes its manifest. */
    const manifest: seq<Item>
    var record: Option<Payload>
    var building: Option<Root>
    var ready: Option<Root>
    var tombstone: Option<Root>
    var nextId: nat
    var budget: nat

    constructor (macos: bool, manifest: seq<Item>)
      ensures Valid() && record.None? && this.macos == macos && this.manifest == manifest
    {
      this.manifest := manifest;
      this.macos, record, building, ready, tombstone, nextId, budget := macos, None, None, None, None, 0, 0;
    }

    // ---- The checks a rerun makes ----

    /** `publishing_root`: right inode, a mode a publishing root may have, all of the content. */
    predicate PublishingRoot(root: Root, sealed: Receipt) {
      && root.id == sealed.root && root.content == sealed.content
      && (root.mode == MODE_0555 || (macos && root.mode == MODE_0755))
    }

    /** `sealed_root`. */
    predicate SealedRoot(root: Root, sealed: Receipt) {
      root.id == sealed.root && root.content == sealed.content && root.mode == MODE_0555
    }

    /** `validate_template_tombstone_root`: a root that is still read-only must be complete; one
        whose removal has begun is private. */
    predicate TombstoneRoot(root: Root, sealed: Receipt) {
      && root.id == sealed.root && (root.mode == MODE_0555 || root.mode == MODE_0700)
      && (root.mode == MODE_0555 ==> root.content == sealed.content)
    }

    /** Holds at every moment, so at every cut. */
    predicate Valid()
      reads this
    {
      match record
      case None => building.None? && ready.None? && tombstone.None?
      case Some(Prepared) =>
        ready.None? && tombstone.None? && (building.Some? ==> building.value.mode == MODE_0700 && building.value.content == [])
      case Some(Materializing(root)) =>
        ready.None? && tombstone.None? && building.Some? && building.value.id == root
      case Some(Publishing(sealed)) =>
        && sealed.content == manifest && tombstone.None? && (building.Some? <==> ready.None?)
        && (building.Some? ==> PublishingRoot(building.value, sealed))
        && (ready.Some? ==> PublishingRoot(ready.value, sealed))
      case Some(Ready(sealed)) =>
        sealed.content == manifest && building.None? && tombstone.None? && ready.Some? && SealedRoot(ready.value, sealed)
      case Some(Tombstoned(sealed)) =>
        && building.None? && !(ready.Some? && tombstone.Some?)
        && (ready.Some? ==> TombstoneRoot(ready.value, sealed))
        && (tombstone.Some? ==> TombstoneRoot(tombstone.value, sealed))
    }

    method Spend() returns (ok: bool)
      modifies this`budget
      ensures ok == (0 < old(budget)) && budget == if ok then old(budget) - 1 else 0
    {
      ok := 0 < budget;
      if ok {
        budget := budget - 1;
      }
    }

    method WriteRecord(next: Payload) returns (ok: bool)
      modifies this`record, this`budget
      ensures ok == (0 < old(budget)) && budget == if ok then old(budget) - 1 else 0
      ensures record == if ok then Some(next) else old(record)
    {
      ok := Spend();
      if ok {
        record := Some(next);
      }
    }

    // ---- acquire ----

    /** `rename_ready` for the building root, with the mode swing that macOS needs around the
        rename. A rename that fails seals the root again. */
    method RenameReady(sealed: Receipt, renames: bool) returns (answer: Option<Answer>)
      requires Valid() && record == Some(Publishing(sealed)) && building.Some?
      modifies this`building, this`ready, this`budget
      ensures Valid()
      ensures answer.None? ==> building.None? && ready.Some? && SealedRoot(ready.value, sealed)
      ensures answer.None? <==> renames && 3 <= old(budget) + (if macos then 0 else 1)
      ensures answer.None? ==> old(budget) <= budget + 3
      ensures answer.Some? ==> !answer.value.Acquired? && !answer.value.Rejected?
    {
      var ok;
      if macos {
        ok := Spend();
        if !ok {
          return Some(CutOff);
        }
        building := Some(building.value.(mode := MODE_0755));
      }
      if !renames {
        ok := Spend();
        if !ok {
          return Some(CutOff);
        }
        building := Some(building.value.(mode := MODE_0555));
        return Some(Incomplete);
      }
      ok := Spend();
      if !ok {
        return Some(CutOff);
      }
      RenameBuilding(sealed);
      ok := Spend();
      if !ok {
        return Some(CutOff);
      }
      ready := Some(ready.value.(mode := MODE_0555));
      answer := None;
    }

    /** The rename itself; macOS does not rename a directory that cannot be written. */
    method RenameBuilding(sealed: Receipt)
      requires Valid() && record == Some(Publishing(sealed)) && building.Some?
      requires macos ==> building.value.mode == 0x1ED
      modifies this`building, this`ready
      ensures Valid() && building.None? && ready == old(building)
    {
      building, ready := None, building;
    }

    /** `publish_template`. */
    method PublishTemplate(renames: bool) returns (answer: Answer)
      requires Valid() && record.Some? && record.value.Publishing?
      modifies this
      ensures Valid() && nextId == old(nextId) && answer != Rejected
      ensures record == old(record) || record == Some(Ready(old(record).value.sealed))
      ensures answer.Acquired? ==> answer.sealed == old(record).value.sealed && record == Some(Ready(answer.sealed))
      ensures renames && 4 <= old(budget) ==> answer.Acquired?
    {
      var sealed := record.value.sealed;
      if building.Some? && ready.None? {
        if !PublishingRoot(building.value, sealed) {
          return Rejected;
        }
        var failed := RenameReady(sealed, renames);
        if failed.Some? {
          return failed.value;
        }
      } else if building.None? && ready.Some? {
        if !PublishingRoot(ready.value, sealed) {
          return Rejected;
        }
        var ok := Spend();
        if !ok {
          return CutOff;
        }
        ready := Some(ready.value.(mode := MODE_0555));
        if !SealedRoot(ready.value, sealed) {
          return Rejected;
        }
      } else {
        return Rejected;
      }
      var ok := WriteRecord(Ready(sealed));
      if !ok {
        return CutOff;
      }
      answer := ReadyTemplate();
    }

    method ReadyTemplate() returns (answer: Answer)
      requires Valid() && record.Some? && record.value.Ready?
      ensures answer == Acquired(record.value.sealed)
    {
      answer := if ready.Some? && SealedRoot(ready.value, record.value.sealed) then Acquired(record.value.sealed) else Rejected;
    }

    /** `advance_prepared`. `stable` says whether the manifest reads the same the second time and
        materializing succeeds. */
    method AdvancePrepared(stable: bool, renames: bool) returns (answer: Answer)
      requires Valid() && record == Some(Prepared)
      modifies this
      ensures Valid() && answer != Rejected && old(nextId) <= nextId
      ensures answer.Acquired? ==> record == Some(Ready(answer.sealed)) && answer.sealed.content == manifest
      ensures stable && renames && |manifest| + 8 <= old(budget) ==> answer.Acquired?
      ensures record.Some?
    {
      if ready.Some? {
        return Rejected;
      }
      var ok;
      if building.None? {
        ok := Spend();
        if !ok {
          return CutOff;
        }
        building, nextId := Some(Root(nextId, MODE_0700, [])), nextId + 1;
      }
      if building.value.mode != MODE_0700 || building.value.content != [] {
        return Rejected;
      }
      var id := building.value.id;
      ok := WriteRecord(Materializing(id));
      if !ok {
        return CutOff;
      }
      var done := 0;
      while done < |manifest|
        invariant Valid() && record == Some(Materializing(id)) && done <= |manifest|
        invariant building == Some(Root(id, MODE_0700, manifest[..done]))
        invariant old(budget) <= budget + done + 2 && old(nextId) <= nextId
      {
        ok := Spend();
        if !ok {
          return CutOff;
        }
        assert manifest[..done + 1] == manifest[..done] + [manifest[done]];
        building := Some(building.value.(content := building.value.content + [manifest[done]]));
        done := done + 1;
      }
      if !stable {
        return Incomplete;
      }
      ok := Spend();
      if !ok {
        return CutOff;
      }
      building := Some(building.value.(mode := MODE_0555));
      ok := WriteRecord(Publishing(Receipt(id, manifest)));
      if !ok {
        return CutOff;
      }
      answer := PublishTemplate(renames);
    }

    /** `acquire`, whatever an earlier one was cut off in. */
    method Acquire(stable: bool, renames: bool) returns (answer: Answer)
      requires Valid()
      modifies this
      ensures Valid() && old(nextId) <= nextId
      ensures answer.Acquired? ==> record == Some(Ready(answer.sealed)) && ready.Some? && SealedRoot(ready.value, answer.sealed)
      ensures answer == Rejected <==> old(record).Some? && old(record).value.Tombstoned?
      // From PREPARED, and from nothing, a run that is not disturbed ends READY.
      ensures (old(record).None? || old(record).value.Prepared?) && stable && renames && |manifest| + 9 <= old(budget) ==>
        answer.Acquired? && answer.sealed.content == manifest
      // From PUBLISHING too, and under the very receipt that was sealed.
      ensures old(record).Some? && old(record).value.Publishing? ==>
        && (record == old(record) || record == Some(Ready(old(record).value.sealed)))
        && (renames && 4 <= old(budget) ==> answer == Acquired(old(record).value.sealed))
      // MATERIALIZING is never advanced, nor is what gc has begun to remove.
      ensures old(record).Some? && (old(record).value.Materializing? || old(record).value.Tombstoned?) ==>
        && record == old(record) && building == old(building) && ready == old(ready) && tombstone == old(tombstone)
        && !answer.Acquired?
      ensures old(record).Some? && old(record).value.Ready? ==>
        record == old(record) && answer == if stable then Acquired(old(record).value.sealed) else Incomplete
    {
      match record {
        case None =>
          if building.Some? || ready.Some? {
            return Rejected;
          }
          var ok := WriteRecord(Prepared);
          if !ok {
            return CutOff;
          }
          answer := AdvancePrepared(stable, renames);
        case Some(Prepared) =>
          answer := AdvancePrepared(stable, renames);
        case Some(Materializing(_)) =>
          answer := Incomplete;
        case Some(Publishing(_)) =>
          answer := PublishTemplate(renames);
        case Some(Ready(_)) =>
          // The manifest is read once more before a READY template is handed out.
          if !stable {
            return Incomplete;
          }
          answer := ReadyTemplate();
        case Some(Tombstoned(_)) =>
          answer := Rejected;
      }
    }

    // ---- gc ----

    /** The number of steps a removal still has to take. */
    function Measure(): nat
      reads this
    {
      (if record.Some? then 1 else 0)
      + (if ready.Some? then |ready.value.content| + 2 + (if ready.value.mode == MODE_0555 then 1 else 0) else 0)
      + (if tombstone.Some? then |tombstone.value.content| + 1 + (if tombstone.value.mode == MODE_0555 then 1 else 0) else 0)
    }

    predicate Gone()
      reads this
    {
      record.None? && building.None? && ready.None? && tombstone.None?
    }

    /** `prepare_template_tombstone_rename`: macOS cannot rename a read-only directory. */
    method PrepareRename() returns (ok: bool)
      requires Valid() && record.Some? && record.value.Tombstoned? && (ready.Some? || tombstone.Some?)
      modifies this`ready, this`tombstone, this`budget
      ensures Valid() && Measure() + old(budget) == old(Measure()) + budget && (!ok ==> budget == 0)
      ensures ready.Some? == old(ready).Some? && tombstone.Some? == old(tombstone).Some?
      ensures ok && macos ==> Renameable(ready) && Renameable(tombstone)
      ensures !macos ==> ok && ready == old(ready) && tombstone == old(tombstone)
    {
      ok := true;
      if macos {
        if ready.Some? && ready.value.mode == MODE_0555 {
          ok := Spend();
          if ok {
            ready := Some(ready.value.(mode := MODE_0700));
          }
        } else if tombstone.Some? && tombstone.value.mode == MODE_0555 {
          ok := Spend();
          if ok {
            tombstone := Some(tombstone.value.(mode := MODE_0700));
          }
        }
      }
    }

    /** Its owner can write the directory, if it is there. */
    predicate Renameable(root: Option<Root>) {
      root.Some? ==> root.value.mode == 0x1C0
    }

    method Promote() returns (ok: bool)
      requires Valid() && record.Some? && record.value.Tombstoned? && (ready.Some? || tombstone.Some?)
      requires macos ==> Renameable(ready)
      modifies this`ready, this`tombstone, this`budget
      ensures Valid() && Measure() + old(budget) == old(Measure()) + budget
      ensures ok ==> tombstone.Some?
      ensures !ok ==> budget == 0
    {
      if tombstone.Some? {
        return true;
      }
      ok := Spend();
      if ok {
        ready, tombstone := None, ready;
      }
    }

    /** `remove_owned_tree_gc` of a sealed tree: the root becomes private before anything in it goes. */
    method RemoveTree() returns (ok: bool)
      requires Valid() && record.Some? && record.value.Tombstoned? && tombstone.Some?
      modifies this`tombstone, this`budget
      ensures Valid() && Measure() + old(budget) == old(Measure()) + budget
      ensures (ok ==> tombstone.None?) && (!ok ==> budget == 0)
    {
      if tombstone.value.mode == MODE_0555 {
        ok := Spend();
        if !ok {
          return;
        }
        tombstone := Some(tombstone.value.(mode := MODE_0700));
      }
      while tombstone.value.content != []
        invariant Valid() && tombstone.Some? && tombstone.value.mode == MODE_0700
        invariant Measure() + old(budget) == old(Measure()) + budget
        decreases |tombstone.value.content|
      {
        ok := Spend();
        if !ok {
          return;
        }
        tombstone := Some(tombstone.value.(content := tombstone.value.content[1..]));
      }
      ok := Spend();
      if ok {
        tombstone := None;
      }
    }

    /** `complete_template_tombstone`. No check refuses what an earlier run left, and each
        effective step takes the measure down by exactly one: the only way to fail is to be cut off. */
    method CompleteTombstone() returns (ok: bool)
      requires Valid() && record.Some? && record.value.Tombstoned?
      modifies this
      ensures Valid() && nextId == old(nextId)
      ensures ok <==> old(Measure()) <= old(budget)
      ensures Measure() == if ok then 0 else old(Measure()) - old(budget)
      ensures ok ==> Gone()
      ensures !ok ==> record == old(record)
    {
      var sealed := record.value.sealed;
      if ready.None? && tombstone.None? {
        ok := Spend();
        if ok {
          record := None;
        }
        return;
      }
      if ready.Some? && !TombstoneRoot(ready.value, sealed) {
        return false;
      }
      if tombstone.Some? && !TombstoneRoot(tombstone.value, sealed) {
        return false;
      }
      ok := PrepareRename();
      if !ok {
        return;
      }
      ok := Promote();
      if !ok {
        return;
      }
      if !TombstoneRoot(tombstone.value, sealed) {
        return false;
      }
      ok := RemoveTree();
      if !ok {
        return;
      }
      ok := Spend();
      if ok {
        record := None;
      }
    }

    /** What the census of every gc reports as incomplete: it stops that gc before it removes
        anything anywhere. */
    predicate NeedsRecovery()
      reads this
    {
      record.Some? && (record.value.Prepared? || record.value.Materializing? || record.value.Publishing?)
    }

    /** gc for this template, given in `restSafe` that nothing else in the state directory stops it.
        `reachable` is the census answer (module TemplateGc). */
    method Gc(restSafe: bool, reachable: bool) returns (ok: bool)
      requires Valid()
      modifies this
      ensures Valid() && nextId == old(nextId)
      ensures !restSafe || (old(record).Some? && !old(record).value.Ready? && !old(record).value.Tombstoned?) ==>
        !ok && record == old(record) && building == old(building) && ready == old(ready) && tombstone == old(tombstone)
      ensures restSafe && old(record).Some? && old(record).value.Ready? && !reachable && old(Measure()) < old(budget) ==>
        ok && Gone()
      ensures restSafe && old(record).Some? && old(record).value.Tombstoned? && old(Measure()) <= old(budget) ==> ok && Gone()
      // A reachable template is retained, and gc goes on to the next one.
      ensures old(record).Some? && old(record).value.Ready? && reachable ==>
        ok == restSafe && record == old(record) && ready == old(ready) && tombstone == old(tombstone)
      ensures old(record).None? ==> ok == restSafe && Gone()
    {
      if !restSafe || NeedsRecovery() {
        return false;
      }
      ok := true;
      if record.Some? && record.value.Tombstoned? {
        ok := CompleteTombstone();
      } else if record.Some? && record.value.Ready? && !reachable {
        ok := WriteRecord(Tombstoned(record.value.sealed));
        if ok {
          ok := CompleteTombstone();
        }
      }
    }

    // ---- Runs ----

    /** What every cut leaves: a PREPARED root is private and empty, PUBLISHING and READY roots hold all
        of the manifest in the inode that was sealed, and a tombstoned root that is still read-only
        holds all that was sealed. */
    ghost predicate Intact()
      reads this
    {
      match record
      case None => building.None? && ready.None? && tombstone.None?
      case Some(Prepared) => building.Some? ==> building.value.mode == 0x1C0 && building.value.content == []
      case Some(Materializing(root)) => building.Some? && building.value.id == root && ready.None?
      case Some(Publishing(sealed)) =>
        && (building.Some? ==> building.value.id == sealed.root && building.value.content == manifest && ready.None?)
        && (building.None? ==> ready.Some? && ready.value.id == sealed.root && ready.value.content == manifest)
      case Some(Ready(sealed)) => ready == Some(Root(sealed.root, 0x16D, manifest)) && building.None? && tombstone.None?
      case Some(Tombstoned(sealed)) =>
        && (ready.Some? ==> tombstone.None? && ready.value.id == sealed.root
                            && (ready.value.mode == 0x16D ==> ready.value.content == sealed.content))
        && (tombstone.Some? ==> tombstone.value.id == sealed.root
                                && (tombstone.value.mode == 0x16D ==> tombstone.value.content == sealed.content))
    }

    /** Commands in any order, each cut off anywhere. A build that was cut off while MATERIALIZING
        stays through all of them, and with it the reason for every gc to stop. */
    method Run(commands: seq<Command>)
      requires Valid()
      modifies this
      ensures Valid()
      ensures old(record).Some? && old(record).value.Materializing? ==>
        record == old(record) && building == old(building) && NeedsRecovery()
      ensures Intact()
    {
      for i := 0 to |commands|
        invariant Valid()
        invariant old(record).Some? && old(record).value.Materializing? ==> record == old(record) && building == old(building)
      {
        budget := commands[i].cut;
        match commands[i] {
          case Acquire(_, stable, renames) => var _ := Acquire(stable, renames);
          case Gc(_, restSafe, reachable) => var _ := Gc(restSafe, reachable);
        }
      }
    }

    /** Rerunning the removal, each run cut off but making at least one step, ends with nothing left. */
    method Converge(cuts: nat -> nat) returns (runs: nat)
      requires Valid() && record.Some? && record.value.Tombstoned? && forall i :: 0 < cuts(i)
      modifies this
      ensures Valid() && Gone() && runs <= old(Measure())
    {
      runs := 0;
      while record.Some?
        invariant Valid() && runs + Measure() <= old(Measure())
        invariant record.Some? ==> record.value.Tombstoned?
        invariant record.None? ==> Gone()
        decreases Measure()
      {
        budget := cuts(runs);
        var _ := CompleteTombstone();
        runs := runs + 1;
      }
    }
  }

  datatype Command = Acquire(cut: nat, stable: bool, renames: bool) | Gc(cut: nat, restSafe: bool, reachable: bool)
}

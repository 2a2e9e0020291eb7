/** Atomic creation, replacement and removal of a state record (`RecordTxn` in authority.rs) over
    a directory of names and inodes. Every system call may fail, a rename may end with an unknown
    result, and every state the directory goes through is kept: each one is what a crash at that
    moment leaves behind. */
module RecordTxn {
  import opened Base
  import AuthorityRecord

  type Name = string

  // ---- The directory ----

  datatype Inode = Inode(bytes: seq<Byte>, dev: nat, uid: nat, mode: nat, kind: Kind, nlink: nat)

  /** The bytes and the identity found under a name. */
  datatype Binding = Binding(bytes: seq<Byte>, identity: Identity)

  const USER: nat := 1000

  predicate PrivateMode(mode: nat) {
    mode % 64 == 0
  }

  /** `valid_private_record` (which `valid_record` implies). */
  predicate PrivateRecord(identity: Identity) {
    identity.kind.Regular? && identity.uid == USER && PrivateMode(identity.mode) && identity.nlink == 1
  }

  predicate ValidRecord(identity: Identity) {
    identity.kind.Regular? && identity.uid == USER && identity.mode == MODE_0600 && identity.nlink == 1
  }

  datatype State = State(names: map<Name, nat>, inodes: map<nat, Inode>) {
    /** Every name has an inode, and an inode with two names counts at least two links. */
    predicate Valid() {
      && (forall n :: n in names ==> names[n] in inodes)
      && (forall m, n :: m in names && n in names && m != n && names[m] == names[n] ==> 2 <= inodes[names[m]].nlink)
    }

    function IdentityOf(ino: nat): Identity
      requires ino in inodes
    {
      var node := inodes[ino];
      Identity(node.dev, ino, node.uid, node.mode, node.kind, node.nlink)
    }

    function Bound(name: Name): Option<Binding> {
      if name in names && names[name] in inodes
      then Some(Binding(inodes[names[name]].bytes, IdentityOf(names[name])))
      else None
    }

    function Exchanged(left: Name, right: Name): State
      requires left in names && right in names
    {
      this.(names := names[left := names[right]][right := names[left]])
    }

    function Moved(from: Name, to: Name): State
      requires from in names
    {
      this.(names := (names - {from})[to := names[from]])
    }

    function Unlinked(name: Name): State
      requires name in names && names[name] in inodes
    {
      var node := inodes[names[name]];
      State(names - {name}, inodes[names[name] := node.(nlink := if node.nlink == 0 then 0 else node.nlink - 1)])
    }
  }

  predicate HasIdentity(s: State, name: Name, identity: Identity) {
    s.Bound(name).Some? && s.Bound(name).value.identity == identity
  }

  /** The error codes a caller sees: STATE_RECORD_EXISTS, STATE_COMMITTED_RECOVERY_REQUIRED,
      STATE_COMMITTED_UNSYNCED, STATE_CLEANUP_FAILED, and STATE_UNAVAILABLE or STATE_CORRUPT. */
  datatype Code = RecordExists | RecoveryRequired | Unsynced | CleanupFailed | Other

  datatype Renamed = Applied | AlreadyExists | NotApplied | Unknown

  class Directory {
    var now: State
    ghost var history: seq<State>
    /** What an outside writer turns the directory into, at the one point where it may act. */
    var outside: Option<State>

    /** In a calm directory no system call fails, except that where `unreadable` is set no record
        can be read. */
    const calm: bool
    const unreadable: bool

    constructor (start: State, outside: Option<State>, calm: bool, unreadable: bool)
      ensures now == start && this.outside == outside && history == [start]
      ensures this.calm == calm && this.unreadable == unreadable
    {
      now, this.outside, history, this.calm, this.unreadable := start, outside, [start], calm, unreadable;
    }

    method Call() returns (ok: bool)
      ensures calm ==> ok
    {
      ok := calm;
      if !calm {
        ok := *;
      }
    }

    predicate Sound() {
      calm && !unreadable
    }

    method Enter(next: State)
      modifies this`now, this`history
      ensures now == next && history == old(history) + [next]
    {
      now, history := next, history + [next];
    }

    /** `openat` with `O_CREAT | O_EXCL`, mode 0600. The process mask may take bits away. */
    method CreateExclusive(name: Name, ino: nat, mode: nat) returns (ok: bool)
      requires ino !in now.inodes && PrivateMode(mode)
      modifies this`now, this`history
      ensures ok ==>
        && name !in old(now).names && history == old(history) + [now]
        && now == State(old(now).names[name := ino], old(now).inodes[ino := Inode([], 0, USER, mode, Regular, 1)])
      ensures !ok ==> now == old(now) && history == old(history)
      ensures calm && name !in old(now).names ==> ok
    {
      ok := Call();
      if ok && name !in now.names {
        Enter(State(now.names[name := ino], now.inodes[ino := Inode([], 0, USER, mode, Regular, 1)]));
      } else {
        ok := false;
      }
    }

    /** `fchmod` to mode 0600. */
    method Protect(ino: nat) returns (ok: bool)
      requires ino in now.inodes
      modifies this`now, this`history
      ensures ok ==>
        && now == old(now).(inodes := old(now).inodes[ino := old(now).inodes[ino].(mode := MODE_0600)])
        && history == old(history) + [now]
      ensures !ok ==> now == old(now) && history == old(history)
      ensures calm ==> ok
    {
      ok := Call();
      if ok {
        Enter(now.(inodes := now.inodes[ino := now.inodes[ino].(mode := MODE_0600)]));
      }
    }

    /** `write_all`: chunk after chunk, any of which may fail. */
    method WriteAll(ino: nat, bytes: seq<Byte>) returns (ok: bool)
      requires ino in now.inodes && now.inodes[ino].bytes == []
      modifies this`now, this`history
      ensures exists written :: Written(written, ino, bytes, ok)
      ensures |old(history)| <= |history| && history[..|old(history)|] == old(history)
      ensures forall i :: |old(history)| <= i < |history| ==>
        exists written :: history[i] == WithBytes(old(now), ino, written)
      ensures calm ==> ok
    {
      var offset := 0;
      ghost var start := now;
      assert now == WithBytes(start, ino, []);
      while offset < |bytes|
        invariant offset <= |bytes|
        invariant now == WithBytes(start, ino, bytes[..offset])
        invariant |old(history)| <= |history| && history[..|old(history)|] == old(history)
        invariant forall i :: |old(history)| <= i < |history| ==>
          exists written :: history[i] == WithBytes(start, ino, written)
      {
        ok := Call();
        if !ok {
          assert Written(bytes[..offset], ino, bytes, false);
          return;
        }
        var size: nat := *;
        if size <= 0 || |bytes| - offset < size {
          size := |bytes| - offset;
        }
        offset := offset + size;
        Enter(now.(inodes := now.inodes[ino := now.inodes[ino].(bytes := bytes[..offset])]));
        assert now == WithBytes(start, ino, bytes[..offset]);
      }
      assert bytes[..offset] == bytes;
      assert Written(bytes, ino, bytes, true);
      ok := true;
    }

    twostate predicate Written(written: seq<Byte>, ino: nat, bytes: seq<Byte>, ok: bool)
      reads this
    {
      old(ino in now.inodes) && now == WithBytes(old(now), ino, written) && (ok ==> written == bytes)
    }

    /** `read_file_binding`: a private record within the limit, read under an unchanging
        identity; any of its system calls may fail. */
    method ReadBinding(name: Name, limit: nat) returns (found: Option<Binding>)
      ensures found.Some? ==>
        now.Bound(name) == found && PrivateRecord(found.value.identity) && |found.value.bytes| <= limit
      ensures unreadable ==> found.None?
      ensures Sound() && found.None? && now.Bound(name).Some? ==>
        !PrivateRecord(now.Bound(name).value.identity) || limit < |now.Bound(name).value.bytes|
    {
      var ok := Call();
      found := now.Bound(name);
      if !ok || unreadable || found.None? || !PrivateRecord(found.value.identity) || limit < |found.value.bytes| {
        found := None;
      }
    }

    method StatAt(name: Name) returns (found: Option<Identity>)
      ensures found.Some? ==> now.Bound(name).Some? && found.value == now.Bound(name).value.identity
      ensures calm && now.Bound(name).Some? ==> found.Some?
    {
      var ok := Call();
      found := if ok && now.Bound(name).Some? then Some(now.Bound(name).value.identity) else None;
    }

    method RenameNoReplace(from: Name, to: Name) returns (result: Renamed)
      modifies this`now, this`history
      ensures result.Applied? ==> Move(from, to)
      ensures result.Unknown? ==> Kept() || Move(from, to)
      ensures result.AlreadyExists? ==> Kept() && to in now.names
      ensures result.NotApplied? ==> Kept()
      ensures calm && from in old(now).names ==> result == if to in old(now).names then AlreadyExists else Applied
    {
      var ok := Call();
      var known := Call();
      if ok && from in now.names && to !in now.names {
        Enter(now.Moved(from, to));
        return if known then Applied else Unknown;
      }
      result := if !known then Unknown else if to in now.names then AlreadyExists else NotApplied;
    }

    method RenameExchange(left: Name, right: Name) returns (result: Renamed)
      modifies this`now, this`history
      ensures result.Applied? ==> Exchange(left, right)
      ensures result.Unknown? ==> Kept() || Exchange(left, right)
      ensures result.NotApplied? ==> Kept()
      ensures !result.AlreadyExists?
      ensures calm && left in old(now).names && right in old(now).names ==> result == Applied
    {
      var ok := Call();
      var known := Call();
      if ok && left in now.names && right in now.names {
        Enter(now.Exchanged(left, right));
        return if known then Applied else Unknown;
      }
      result := if !known then Unknown else NotApplied;
    }

    /** `unlink_capability`: removes the name only while it has the expected identity. */
    method UnlinkCapability(name: Name, expected: Identity) returns (failure: Option<Code>)
      modifies this`now, this`history
      ensures failure.None? ==>
        && old(now).Bound(name).Some? && old(now).Bound(name).value.identity == expected && PrivateRecord(expected)
        && now == old(now).Unlinked(name) && history == old(history) + [now]
      ensures failure.Some? ==> Kept() && (failure.value == CleanupFailed || failure.value == Other)
      ensures calm && PrivateRecord(expected) && HasIdentity(old(now), name, expected) ==> failure.None?
    {
      var ok := Call();
      var current := StatAt(name);
      if current.None? {
        return Some(Other);
      }
      if !ok || current.value != expected || !PrivateRecord(expected) {
        return Some(CleanupFailed);
      }
      Enter(now.Unlinked(name));
      failure := None;
    }

    method Sync() returns (ok: bool)
      ensures calm ==> ok
    {
      ok := Call();
    }

    /** The outside writer acts, if there is one. */
    method Interfere()
      modifies this
      ensures outside == None
      ensures old(outside).None? ==> Kept()
      ensures old(outside).Some? ==> now == old(outside).value && history == old(history) + [now]
    {
      if outside.Some? {
        Enter(outside.value);
        outside := None;
      }
    }

    twostate predicate Kept()
      reads this
    {
      now == old(now) && history == old(history)
    }

    twostate predicate Move(from: Name, to: Name)
      reads this
    {
      && from in old(now).names && to !in old(now).names
      && now == old(now).Moved(from, to) && history == old(history) + [now]
    }

    twostate predicate Exchange(left: Name, right: Name)
      reads this
    {
      && left in old(now).names && right in old(now).names
      && now == old(now).Exchanged(left, right) && history == old(history) + [now]
    }
  }

  function WithBytes(s: State, ino: nat, bytes: seq<Byte>): State
    requires ino in s.inodes
  {
    s.(inodes := s.inodes[ino := s.inodes[ino].(bytes := bytes)])
  }

  // ---- What a transaction may do to a directory ----

  /** What one transaction is about. */
  datatype Plan = Plan(start: State, final: Name, temporary: Name, ino: nat, bytes: seq<Byte>, prior: Option<Binding>) {
    ghost predicate Valid() {
      && start.Valid() && final != temporary
      && temporary !in start.names && ino !in start.inodes
    }

    /** The identity of the temporary once it is protected. */
    function NewIdentity(): Identity {
      Identity(0, ino, USER, MODE_0600, Regular, 1)
    }

    function New(): Binding {
      Binding(bytes, NewIdentity())
    }

    ghost predicate OthersKept(s: State) {
      && s.Valid()
      && forall n :: n != final && n != temporary ==> s.Bound(n) == start.Bound(n) && (n in s.names ==> s.names[n] != ino)
    }

    /** Nothing published: the record is as it was, the temporary is ours or not there. */
    ghost predicate Before(s: State) {
      && OthersKept(s)
      && s.Bound(final) == start.Bound(final) && (final in s.names ==> s.names[final] != ino)
      && (temporary in s.names ==> s.names[temporary] == ino)
    }

    /** Published: the record is exactly the new binding, which replaced exactly the expected one;
        the temporary is gone or holds the displaced record. */
    ghost predicate After(s: State) {
      && OthersKept(s)
      && start.Bound(final) == prior && s.Bound(final) == Some(New())
      && (temporary in s.names ==> s.Bound(temporary) == prior)
    }

    /** What an error code says about the record. */
    ghost predicate Tells(code: Code, s: State) {
      match code
      case RecordExists => Before(s) && start.Bound(final).Some?
      case CleanupFailed => Before(s)
      case Unsynced => After(s)
      case _ => true
    }

    ghost predicate Legal(s: State) {
      Before(s) || After(s)
    }

    /** Nothing published yet, and the temporary is there. */
    ghost predicate Written(s: State) {
      Before(s) && temporary in s.names && s.names[temporary] == ino && ino in s.inodes
    }
  }

  /** Whatever happens to the temporary's own inode is invisible under every other name. */
  lemma OursChanged(plan: Plan, s: State, node: Inode)
    requires plan.Valid() && plan.Written(s) && node.nlink == s.inodes[plan.ino].nlink
    ensures plan.Written(s.(inodes := s.inodes[plan.ino := node]))
  {
    var t := s.(inodes := s.inodes[plan.ino := node]);
    assert forall n :: n != plan.temporary ==> t.Bound(n) == s.Bound(n);
  }

  datatype Result<T> = Ok(value: T) | Err(code: Code)

  class RecordTxn {
    const dir: Directory
    const finalName: Name
    const temporaryName: Name
    const expectedOld: Option<Binding>
    const bytes: seq<Byte>
    var temporary: Option<nat>
    var temporaryIdentity: Option<Identity>
    var armed: bool

    ghost const plan: Plan
    ghost const since: nat

    /** The descriptor that `begin` has just opened. */
    constructor (dir: Directory, finalName: Name, temporaryName: Name, ino: nat, bytes: seq<Byte>,
                 expectedOld: Option<Binding>, ghost start: State, ghost since: nat)
      ensures this.dir == dir && this.finalName == finalName && this.temporaryName == temporaryName
      ensures this.bytes == bytes && this.expectedOld == expectedOld && this.since == since
      ensures plan == Plan(start, finalName, temporaryName, ino, bytes, expectedOld)
      ensures temporary == Some(ino) && temporaryIdentity == None && armed
    {
      this.dir, this.finalName, this.temporaryName := dir, finalName, temporaryName;
      this.bytes, this.expectedOld, this.since := bytes, expectedOld, since;
      plan := Plan(start, finalName, temporaryName, ino, bytes, expectedOld);
      temporary, temporaryIdentity, armed := Some(ino), None, true;
    }

    ghost predicate Valid()
      reads this
    {
      && plan.Valid()
      && plan.final == finalName && plan.temporary == temporaryName
      && plan.bytes == bytes && plan.prior == expectedOld
      && (temporary.Some? ==> temporary.value == plan.ino)
      && (temporaryIdentity.Some? ==> temporaryIdentity.value == plan.NewIdentity())
    }

    /** Every state since `begin` is legal. */
    ghost predicate Trace()
      reads this, dir
    {
      && since <= |dir.history|
      && (forall i :: since <= i < |dir.history| ==> plan.Legal(dir.history[i]))
      && plan.Legal(dir.now)
    }

    /** While armed nothing has been published, and the temporary is the file `begin` made. */
    ghost predicate Pending()
      reads this, dir
    {
      && armed && plan.Written(dir.now)
      && (var node := dir.now.inodes[plan.ino];
          && node.dev == 0 && node.uid == USER && node.kind.Regular? && node.nlink == 1 && PrivateMode(node.mode)
          && (temporaryIdentity.Some? ==> node.mode == MODE_0600)
          && (temporary.None? ==> temporaryIdentity.Some? && node.bytes == bytes))
    }

    method Initialize() returns (ok: bool)
      requires Valid() && Trace() && Pending() && temporary.Some? && temporaryIdentity.None?
      requires dir.now.inodes[plan.ino].bytes == []
      modifies this, dir`now, dir`history
      ensures Valid() && Trace() && Pending() && Extends(old(dir.history), dir.history)
      ensures ok ==> temporary.None?
      ensures dir.calm ==> ok
    {
      hide State.Valid, State.Bound, Plan.Before, Plan.After, Plan.OthersKept, Plan.Valid;
      ghost var created := dir.now;
      OursChanged(plan, created, created.inodes[plan.ino].(mode := MODE_0600));
      ok := dir.Protect(temporary.value);
      if !ok {
        return;
      }
      ok := dir.Call();
      var identity := dir.now.IdentityOf(temporary.value);
      if !ok || !ValidRecord(identity) {
        return false;
      }
      temporaryIdentity := Some(identity);
      ghost var protected := dir.now;
      forall written: seq<Byte>
        ensures plan.Written(WithBytes(protected, plan.ino, written))
      {
        OursChanged(plan, protected, protected.inodes[plan.ino].(bytes := written));
      }
      ok := dir.WriteAll(temporary.value, bytes);
      if !ok {
        return;
      }
      ok := dir.Sync();
      if !ok {
        return;
      }
      ok := dir.Call();
      if !ok || dir.now.IdentityOf(temporary.value) != identity {
        return false;
      }
      temporary := None;
    }

    /** `abort`: once a rename has happened, or may have, it touches nothing. */
    method Abort(primary: Code) returns (code: Code)
      requires Valid()
      requires armed ==> Trace() && Pending()
      modifies this, dir`now, dir`history
      ensures !armed && Valid()
      ensures !old(armed) ==> dir.Kept() && code == primary
      ensures old(armed) ==> Trace() && plan.Before(dir.now) && Extends(old(dir.history), dir.history)
      ensures code == primary || code in [RecoveryRequired, CleanupFailed, Other]
      ensures dir.calm && old(armed) ==> code == primary && temporaryName !in dir.now.names
      ensures old(armed) && code !in [RecoveryRequired, CleanupFailed, Other] ==> temporaryName !in dir.now.names
    {
      hide State.Valid, Plan.Before, Plan.After, Plan.OthersKept, Plan.Valid;
      if !armed {
        return primary;
      }
      armed := false;
      var identity;
      match temporaryIdentity {
        case Some(known) => identity := known;
        case None =>
          var ok := dir.Call();
          if temporary.None? {
            return CleanupFailed;
          }
          if !ok {
            return Other;
          }
          identity := dir.now.IdentityOf(temporary.value);
          if !PrivateRecord(identity) {
            return CleanupFailed;
          }
      }
      temporary := None;
      LegalIsValid(plan, dir.now);
      UnlinkedTemporary(plan, dir.now);
      code := CleanupUnpublished(identity, primary);
    }

    /** `cleanup_unpublished_record`. */
    method CleanupUnpublished(identity: Identity, primary: Code) returns (code: Code)
      modifies dir`now, dir`history
      ensures dir.Kept() || (
        && old(dir.now).Bound(temporaryName).Some? && old(dir.now).Bound(temporaryName).value.identity == identity
        && PrivateRecord(identity)
        && dir.now == old(dir.now).Unlinked(temporaryName) && dir.history == old(dir.history) + [dir.now])
      ensures code == primary || code in [RecoveryRequired, CleanupFailed, Other]
      ensures dir.calm && PrivateRecord(identity) && HasIdentity(old(dir.now), temporaryName, identity) ==>
        code == primary && temporaryName !in dir.now.names
      ensures code !in [RecoveryRequired, CleanupFailed, Other] ==> temporaryName !in dir.now.names
    {
      var failure := dir.UnlinkCapability(temporaryName, identity);
      if failure.Some? {
        return failure.value;
      }
      var ok := dir.Sync();
      code := if ok then primary else RecoveryRequired;
    }

    /** `Drop`. */
    method Drop()
      requires Valid()
      requires armed ==> Trace() && Pending()
      modifies this, dir`now, dir`history
      ensures !armed && Valid()
      ensures !old(armed) ==> dir.Kept()
      ensures old(armed) ==> Trace() && plan.Before(dir.now) && Extends(old(dir.history), dir.history)
      ensures dir.calm && old(armed) ==> temporaryName !in dir.now.names
    {
      if armed {
        var _ := Abort(Other);
      }
    }

    method VerifyNewBinding(identity: Identity) returns (result: Result<Binding>)
      requires Valid() && identity == plan.NewIdentity()
      ensures result.Ok? ==> result.value == plan.New() && dir.now.Bound(finalName) == Some(plan.New())
      ensures result.Err? ==> result.code == RecoveryRequired || result.code == Other
      ensures dir.Sound() && dir.now.Bound(finalName) == Some(plan.New()) ==> result.Ok?
      ensures dir.unreadable ==> result == Err(Other)
    {
      var found := dir.ReadBinding(finalName, |bytes|);
      if found.None? {
        return Err(Other);
      }
      if found.value.identity != identity || found.value.bytes != bytes {
        return Err(RecoveryRequired);
      }
      result := Ok(found.value);
    }

    method CommitNew(identity: Identity) returns (result: Result<Binding>)
      requires Valid() && Trace() && Pending() && temporary.None? && expectedOld.None?
      requires identity == plan.NewIdentity()
      modifies this, dir`now, dir`history
      ensures Valid() && Trace() && Extends(old(dir.history), dir.history)
      ensures !armed
      ensures result.Ok? ==> Committed(result.value)
      ensures result == Err(RecordExists) ==> Refused()
      ensures result.Err? ==> plan.Tells(result.code, dir.now)
      ensures dir.calm || result == Err(RecordExists) ==> temporaryName !in dir.now.names
      ensures dir.calm && plan.start.Bound(finalName).Some? ==> result == Err(RecordExists)
      ensures dir.calm && plan.start.Bound(finalName).None? ==>
        plan.After(dir.now) && result == if dir.unreadable then Err(Other) else Ok(plan.New())
    {
      hide State.Valid, Plan.OthersKept;
      MovedIsAfter(plan, dir.now);
      var renamed := dir.RenameNoReplace(temporaryName, finalName);
      match renamed {
        case Applied =>
          armed := false;
          var first := VerifyNewBinding(identity);
          if first.Err? {
            return first;
          }
          var ok := dir.Sync();
          if !ok {
            return Err(Unsynced);
          }
          result := VerifyNewBinding(identity);
        case Unknown =>
          armed := false;
          result := Err(RecoveryRequired);
        case AlreadyExists =>
          InNames(dir.now, finalName, plan);
          var code := Abort(RecordExists);
          result := Err(code);
        case NotApplied =>
          var code := Abort(Other);
          result := Err(code);
      }
    }

    /** `rollback_exchange_if_owned`: exchanges back only while both names still hold exactly
        what this transaction put there. */
    method Rollback(identity: Identity, expected: Binding) returns (code: Code)
      requires Valid() && identity == plan.NewIdentity() && expectedOld == Some(expected)
      modifies dir`now, dir`history
      ensures code in [RecoveryRequired, CleanupFailed, Other]
      ensures !Owned(old(dir.now)) ==> dir.Kept() && code == RecoveryRequired
      ensures Owned(old(dir.now)) ==> RolledBack(old(dir.now), dir.now, old(dir.history), dir.history)
      ensures code != RecoveryRequired ==> Owned(old(dir.now)) && Withdrawn(old(dir.now), dir.now)
    {
      hide State.Valid, Plan.Valid;
      var current := dir.ReadBinding(finalName, |bytes|);
      var displaced := dir.ReadBinding(temporaryName, |expected.bytes|);
      if current != Some(Binding(bytes, identity)) || displaced != Some(expected) {
        return RecoveryRequired;
      }
      assert Owned(dir.now);
      var renamed := dir.RenameExchange(temporaryName, finalName);
      if renamed != Applied {
        return RecoveryRequired;
      }
      var restored := dir.ReadBinding(finalName, |expected.bytes|);
      var withdrawn := dir.ReadBinding(temporaryName, |bytes|);
      if restored != Some(expected) || withdrawn != Some(Binding(bytes, identity)) {
        return RecoveryRequired;
      }
      code := CleanupUnpublished(identity, RecoveryRequired);
    }

    /** Both names hold exactly what an applied exchange leaves. */
    ghost predicate Owned(s: State) {
      && expectedOld.Some? && s.Bound(finalName) == Some(plan.New()) && s.Bound(temporaryName) == expectedOld
    }

    /** The exchange has been undone, and the temporary is there or removed. */
    ghost predicate Withdrawn(s: State, t: State)
      requires Owned(s)
    {
      var back := s.Exchanged(temporaryName, finalName);
      || t == back
      || (temporaryName in back.names && back.Bound(temporaryName) == Some(plan.New()) && t == back.Unlinked(temporaryName))
    }

    /** A rollback does nothing, or exchanges back, or exchanges back and removes the temporary. */
    ghost predicate RolledBack(s: State, t: State, before: seq<State>, after: seq<State>)
      requires Owned(s)
    {
      var back := s.Exchanged(temporaryName, finalName);
      || (t == s && after == before)
      || (t == back && after == before + [back])
      || (temporaryName in back.names && back.Bound(temporaryName) == Some(plan.New())
          && t == back.Unlinked(temporaryName) && after == before + [back, t])
    }

    lemma RollbackIsLegal(s: State, t: State, before: seq<State>, after: seq<State>)
      requires Valid() && Owned(s) && plan.After(s) && RolledBack(s, t, before, after)
      ensures plan.Legal(t) && Extends(before, after)
      ensures forall i :: |before| <= i < |after| ==> plan.Legal(after[i])
      ensures Withdrawn(s, t) ==> plan.Before(t)
    {
      var back := s.Exchanged(temporaryName, finalName);
      ExchangedBack(plan, s);
      LegalIsValid(plan, back);
      if temporaryName in back.names && back.Bound(temporaryName) == Some(plan.New()) {
        UnlinkedTemporary(plan, back);
      }
    }

    /** `commit_exchange` after its exchange: remove the displaced record, or roll back. */
    method FinishExchange(identity: Identity, expected: Binding) returns (result: Result<Binding>)
      requires Valid() && !armed && identity == plan.NewIdentity() && expectedOld == Some(expected)
      modifies dir`now, dir`history
      ensures result != Err(RecordExists)
      ensures result == Err(CleanupFailed) ==> Owned(old(dir.now)) && Withdrawn(old(dir.now), dir.now)
      ensures result == Err(Unsynced) ==> Owned(old(dir.now)) && Displaced(old(dir.now), dir.now)
      ensures result.Ok? ==>
        && result.value == plan.New() && dir.now.Bound(finalName) == Some(plan.New())
        && temporaryName !in dir.now.names
      ensures !Owned(old(dir.now)) ==> dir.Kept() && result == Err(RecoveryRequired)
      ensures Owned(old(dir.now)) ==> Finished(old(dir.now), dir.now, old(dir.history), dir.history)
      ensures dir.Sound() && Owned(old(dir.now)) && old(dir.now).Valid() && PrivateRecord(expected.identity) ==> result.Ok?
    {
      assert finalName != temporaryName;
      hide State.Valid, Plan.Valid;
      var published := dir.ReadBinding(finalName, |bytes|);
      var displaced := dir.ReadBinding(temporaryName, |expected.bytes|);
      if published != Some(Binding(bytes, identity)) || displaced != Some(expected) {
        var code := Rollback(identity, expected);
        return Err(code);
      }
      var failure := dir.UnlinkCapability(temporaryName, expected.identity);
      if failure.Some? {
        return Err(RecoveryRequired);
      }
      if old(dir.now).Valid() {
        UnlinkFrame(old(dir.now), temporaryName);
      }
      var ok := dir.Sync();
      if !ok {
        return Err(Unsynced);
      }
      result := VerifyNewBinding(identity);
    }

    /** The displaced record has been removed. */
    ghost predicate Displaced(s: State, t: State) {
      && temporaryName in s.names && temporaryName !in t.names
      && s.inodes.Keys >= {s.names[temporaryName]} && s.inodes[s.names[temporaryName]].nlink == 1
      && t == s.Unlinked(temporaryName)
    }

    ghost predicate Finished(s: State, t: State, before: seq<State>, after: seq<State>)
      requires Owned(s)
    {
      || RolledBack(s, t, before, after)
      || (Displaced(s, t) && after == before + [t])
    }

    lemma FinishIsLegal(s: State, t: State, before: seq<State>, after: seq<State>)
      requires Valid() && Owned(s) && plan.After(s) && Finished(s, t, before, after)
      ensures plan.Legal(t) && Extends(before, after)
      ensures forall i :: |before| <= i < |after| ==> plan.Legal(after[i])
      ensures temporaryName !in t.names && t.Bound(finalName) == Some(plan.New()) ==> plan.After(t)
      ensures Withdrawn(s, t) ==> plan.Before(t)
      ensures Displaced(s, t) ==> plan.After(t)
    {
      LegalIsValid(plan, s);
      if RolledBack(s, t, before, after) {
        RollbackIsLegal(s, t, before, after);
        if t.Bound(finalName) == Some(plan.New()) {
          BoundToOurs(plan, t);
        }
      } else {
        UnlinkedTemporary(plan, s);
      }
    }

    /** `commit_exchange` up to its exchange. */
    method ApplyExchange(expected: Binding) returns (failure: Option<Code>)
      requires Valid() && Trace() && Pending() && temporary.None? && expectedOld == Some(expected)
      modifies this, dir`now, dir`history
      ensures Valid() && !armed && Trace() && Extends(old(dir.history), dir.history)
      ensures failure.None? ==> Owned(dir.now) && plan.After(dir.now)
      ensures failure.Some? ==> failure != Some(RecordExists) && plan.Tells(failure.value, dir.now)
      ensures dir.Sound() && Replaces() ==> failure.None?
      ensures dir.calm && failure.Some? ==> temporaryName !in dir.now.names
    {
      hide State.Valid, State.Bound, State.Exchanged, Plan.OthersKept, Plan.Before;
      Unpublished(plan, dir.now);
      var current := dir.ReadBinding(finalName, if |expected.bytes| < |bytes| then |bytes| else |expected.bytes|);
      if current.None? || current.value != expected {
        var code := Abort(Other);
        return Some(code);
      }
      ExchangedIsAfter(plan, dir.now);
      var renamed := dir.RenameExchange(temporaryName, finalName);
      if renamed == Unknown {
        armed := false;
        return Some(RecoveryRequired);
      }
      if renamed != Applied {
        var code := Abort(Other);
        return Some(code);
      }
      armed := false;
      failure := None;
    }

    /** `commit_exchange`, with the outside writer acting right after the exchange. */
    method CommitExchange(identity: Identity, expected: Binding) returns (result: Result<Binding>)
      requires Valid() && Trace() && Pending() && temporary.None? && expectedOld == Some(expected)
      requires identity == plan.NewIdentity()
      modifies this, dir
      ensures Valid() && !armed && result != Err(RecordExists)
      ensures result.Ok? ==> result.value == plan.New() && dir.now.Bound(finalName) == Some(plan.New())
      ensures dir.outside == old(dir.outside) ==>
        && Trace() && Extends(old(dir.history), dir.history)
        && (result.Ok? ==> Committed(result.value))
        && (result.Err? ==> plan.Tells(result.code, dir.now))
      ensures dir.Sound() && old(dir.outside).None? && Replaces() ==> result.Ok? && temporaryName !in dir.now.names
      ensures dir.outside != old(dir.outside) ==> dir.outside.None?
      ensures dir.outside != old(dir.outside) && !Owned(old(dir.outside).value) ==>
        dir.now == old(dir.outside).value && result == Err(RecoveryRequired)
    {
      hide State.Valid, State.Bound, State.Exchanged, Plan.OthersKept, Plan.Before;
      var failure := ApplyExchange(expected);
      if failure.Some? {
        return Err(failure.value);
      }
      LegalIsValid(plan, dir.now);
      dir.Interfere();
      ghost var drifted, seen := dir.now, dir.history;
      result := FinishExchange(identity, expected);
      if dir.outside == old(dir.outside) {
        FinishIsLegal(drifted, dir.now, seen, dir.history);
      }
    }

    /** `commit`. A failed first `stat` leaves the transaction armed. */
    method Commit() returns (result: Result<Binding>)
      requires Valid() && Trace() && Pending() && temporary.None?
      modifies this, dir
      ensures Valid()
      ensures armed ==> dir.Kept() && dir.outside == old(dir.outside) && Pending()
      ensures armed ==> !dir.calm && (result == Err(Other) || result == Err(CleanupFailed))
      ensures result.Ok? ==> result.value == plan.New() && dir.now.Bound(finalName) == Some(plan.New())
      ensures dir.outside == old(dir.outside) ==>
        && Trace() && Extends(old(dir.history), dir.history)
        && (result.Ok? ==> Committed(result.value))
        && (result == Err(RecordExists) ==> Refused())
        && (result.Err? ==> plan.Tells(result.code, dir.now))
      ensures dir.calm && old(dir.outside).None? && expectedOld.None? ==> Answers(result)
      ensures dir.Sound() && old(dir.outside).None? && Replaces() ==> result.Ok?
      ensures dir.calm && (expectedOld.None? || (dir.Sound() && old(dir.outside).None? && Replaces())) ==>
        temporaryName !in dir.now.names
      ensures result == Err(RecordExists) ==> temporaryName !in dir.now.names
      ensures dir.outside != old(dir.outside) ==> dir.outside.None? && expectedOld.Some?
      ensures dir.outside != old(dir.outside) && !Owned(old(dir.outside).value) ==>
        dir.now == old(dir.outside).value && result == Err(RecoveryRequired)
    {
      hide State.Valid, Plan.Valid, Plan.OthersKept, Plan.Before;
      if temporaryIdentity.None? {
        return Err(CleanupFailed);
      }
      var found := dir.StatAt(temporaryName);
      if found.None? || found.value != temporaryIdentity.value {
        // Still armed: `Drop` aborts.
        return Err(Other);
      }
      match expectedOld {
        case None => result := CommitNew(temporaryIdentity.value);
        case Some(expected) => result := CommitExchange(temporaryIdentity.value, expected);
      }
    }

    /** `initialize`, `commit` and `Drop`. */
    method Complete() returns (result: Result<Binding>)
      requires Valid() && Trace() && Pending() && temporary.Some? && temporaryIdentity.None?
      requires dir.now.inodes[plan.ino].bytes == [] && dir.outside.None?
      modifies this, dir
      ensures Valid() && !armed && Trace() && Extends(old(dir.history), dir.history)
      ensures result.Ok? ==> Committed(result.value)
      ensures result == Err(RecordExists) ==> Refused()
      ensures result.Err? ==> plan.Tells(result.code, dir.now)
      ensures dir.calm && expectedOld.None? ==> Answers(result)
      ensures dir.Sound() && Replaces() ==> result.Ok?
      ensures dir.calm && (expectedOld.None? || (dir.Sound() && Replaces())) ==> temporaryName !in dir.now.names
      ensures result == Err(RecordExists) ==> temporaryName !in dir.now.names
    {
      hide State.Valid, Plan.Valid, Plan.Before, Plan.After;
      var ok := Initialize();
      if !ok {
        var code := Abort(Other);
        return Err(code);
      }
      result := Commit();
      Drop();
    }

    /** A calm creation: refused where there is a record, and otherwise published, which a reader
        that fails afterwards reports as any other failure. */
    ghost predicate Answers(result: Result<Binding>)
      reads this, dir
    {
      if plan.start.Bound(finalName).Some? then result == Err(RecordExists)
      else plan.After(dir.now) && result == if dir.unreadable then Err(Other) else Ok(plan.New())
    }

    /** The record to be replaced was there when the transaction began. */
    ghost predicate Replaces() {
      expectedOld.Some? && PrivateRecord(expectedOld.value.identity) && plan.start.Bound(finalName) == expectedOld
    }

    /** A new record was asked for where there is one. */
    ghost predicate Refused()
      reads this, dir
    {
      && !armed && expectedOld.None?
      && plan.start.Bound(finalName).Some? && dir.now.Bound(finalName) == plan.start.Bound(finalName)
    }

    /** Legal states in the caller's terms. */
    lemma WhatItMeans()
      requires Valid() && Trace()
      ensures forall i :: since <= i < |dir.history| ==> Safe(dir.history[i])
      ensures Safe(dir.now)
      ensures plan.After(dir.now) ==>
        && plan.start.Bound(finalName) == expectedOld && dir.now.Bound(finalName) == Some(plan.New())
        && Renewed(plan.start, finalName, bytes, dir.now)
      ensures plan.Before(dir.now) ==> dir.now.Bound(finalName) == plan.start.Bound(finalName)
      ensures plan.After(dir.now) && temporaryName !in dir.now.names ==> SameElsewhere(plan.start, dir.now, {finalName})
    {
      forall i | since <= i < |dir.history|
        ensures Safe(dir.history[i])
      {
        LegalIsSafe(dir.history[i]);
      }
      LegalIsSafe(dir.now);
    }

    lemma LegalIsSafe(s: State)
      requires Valid() && plan.Legal(s)
      ensures Safe(s)
    {
    }

    ghost predicate Safe(s: State)
      reads this
    {
      && OldOrNew(plan.start, finalName, bytes, s)
      && SameElsewhere(plan.start, s, {finalName, temporaryName})
    }

    /** The transaction is finished: the name holds the new binding, which replaced the expected one. */
    ghost predicate Committed(binding: Binding)
      reads this, dir
    {
      && binding == plan.New() && plan.After(dir.now) && temporaryName !in dir.now.names
    }
  }

  ghost predicate Extends(before: seq<State>, after: seq<State>) {
    |before| <= |after| && after[..|before|] == before
  }

  lemma UnlinkFrame(s: State, name: Name)
    requires s.Valid() && name in s.names && s.inodes[s.names[name]].nlink == 1
    ensures
      var t := s.Unlinked(name);
      && t.Valid() && t.names.Keys == s.names.Keys - {name}
      && forall n :: n != name ==> t.Bound(n) == s.Bound(n) && (n in t.names ==> t.names[n] == s.names[n])
  {
    var t := s.Unlinked(name);
    forall n | n in t.names
      ensures n in s.names && t.names[n] == s.names[n] && t.names[n] != s.names[name] && t.Bound(n) == s.Bound(n)
    {
    }
  }

  lemma MoveFrame(s: State, from: Name, to: Name)
    requires s.Valid() && from in s.names && to !in s.names
    ensures
      var t := s.Moved(from, to);
      && t.Valid() && t.names.Keys == s.names.Keys - {from} + {to}
      && t.Bound(to) == s.Bound(from) && t.names[to] == s.names[from]
      && forall n :: n != from && n != to ==> t.Bound(n) == s.Bound(n) && (n in t.names ==> t.names[n] == s.names[n])
  {
  }

  lemma ExchangeFrame(s: State, left: Name, right: Name)
    requires s.Valid() && left in s.names && right in s.names && left != right
    ensures
      var t := s.Exchanged(left, right);
      && t.Valid() && t.names.Keys == s.names.Keys
      && t.Bound(left) == s.Bound(right) && t.names[left] == s.names[right]
      && t.Bound(right) == s.Bound(left) && t.names[right] == s.names[left]
      && forall n :: n != left && n != right ==>
        t.Bound(n) == s.Bound(n) && (n in t.names ==> t.names[n] == s.names[n])
  {
  }

  /** Removing the temporary name keeps a directory on its side of the commit. */
  lemma UnlinkedTemporary(plan: Plan, s: State)
    requires plan.Valid() && s.Valid() && plan.temporary in s.names
    requires s.inodes[s.names[plan.temporary]].nlink == 1
    ensures plan.Before(s) ==> plan.Before(s.Unlinked(plan.temporary))
    ensures plan.After(s) ==> plan.After(s.Unlinked(plan.temporary))
    ensures plan.temporary !in s.Unlinked(plan.temporary).names
  {
    UnlinkFrame(s, plan.temporary);
    hide State.Valid, State.Bound, State.Unlinked;
  }

  predicate Complete(plan: Plan, s: State) {
    plan.ino in s.inodes && s.inodes[plan.ino] == Inode(plan.bytes, 0, USER, MODE_0600, Regular, 1)
  }

  lemma MovedIsAfter(plan: Plan, s: State)
    requires plan.Valid() && plan.Written(s) && Complete(plan, s) && plan.prior.None?
    ensures plan.final !in s.names ==>
      plan.After(s.Moved(plan.temporary, plan.final)) && plan.temporary !in s.Moved(plan.temporary, plan.final).names
  {
    if plan.final !in s.names {
      MoveFrame(s, plan.temporary, plan.final);
      assert s.Bound(plan.temporary) == Some(plan.New());
      assert s.Bound(plan.final) == None;
      hide State.Valid, State.Bound, State.Moved;
    }
  }

  /** An exchange publishes when the record is still the expected one. */
  lemma ExchangedIsAfter(plan: Plan, s: State)
    requires plan.Valid() && plan.Written(s) && Complete(plan, s)
    requires plan.prior.Some? && s.Bound(plan.final) == plan.prior
    ensures plan.final in s.names
    ensures
      var t := s.Exchanged(plan.temporary, plan.final);
      plan.After(t) && plan.temporary in t.names && t.Bound(plan.temporary) == plan.prior
  {
    ExchangeFrame(s, plan.temporary, plan.final);
    assert s.Bound(plan.temporary) == Some(plan.New());
    hide State.Valid, State.Bound, State.Exchanged;
  }

  /** Exchanging back withdraws what was published. */
  lemma ExchangedBack(plan: Plan, s: State)
    requires plan.Valid() && plan.After(s) && plan.temporary in s.names
    ensures plan.final in s.names
    ensures plan.Written(s.Exchanged(plan.temporary, plan.final))
  {
    ExchangeFrame(s, plan.temporary, plan.final);
    assert s.names[plan.final] == plan.ino;
    assert s.names[plan.temporary] != plan.ino;
    hide State.Bound, State.Exchanged;
  }

  /** The record name leads to our inode only after the commit. */
  lemma BoundToOurs(plan: Plan, s: State)
    requires plan.Legal(s) && s.Bound(plan.final) == Some(plan.New())
    ensures plan.After(s)
  {
  }

  lemma LegalIsValid(plan: Plan, s: State)
    requires plan.Legal(s)
    ensures s.Valid()
  {
  }

  lemma Unpublished(plan: Plan, s: State)
    requires plan.Before(s)
    ensures s.Bound(plan.final) == plan.start.Bound(plan.final)
  {
  }

  lemma InNames(s: State, name: Name, plan: Plan)
    requires plan.Before(s) && name in s.names && name == plan.final
    ensures plan.start.Bound(name).Some?
  {
  }

  // ---- Whole operations ----

  /** The expectation a caller of `begin` states about the present record. */
  datatype Expected = Absent | Bytes(bytes: seq<Byte>) | Exactly(binding: Binding)

  /** `read_expected_old` and `read_bound_expected_old`. */
  method ReadExpected(dir: Directory, name: Name, bytes: seq<Byte>, expected: Expected)
    returns (result: Result<Option<Binding>>)
    ensures result.Ok? && expected.Absent? ==> result.value == None
    ensures result.Ok? && !expected.Absent? ==>
      && result.value.Some? && dir.now.Bound(name) == result.value
      && (expected.Bytes? ==> result.value.value.bytes == expected.bytes)
      && (expected.Exactly? ==> result.value.value == expected.binding)
      && PrivateRecord(result.value.value.identity)
    ensures result != Err(RecordExists)
    ensures result.Err? ==> result.code == Other
    ensures dir.calm && expected.Absent? ==> result.Ok?
    ensures dir.unreadable && !expected.Absent? ==> result.Err?
    ensures dir.Sound() && Allows(expected, dir.now.Bound(name)) ==> result.Ok?
  {
    var size := match expected case Absent => 0 case Bytes(prior) => |prior| case Exactly(binding) => |binding.bytes|;
    if expected.Absent? {
      return Ok(None);
    }
    var current := dir.ReadBinding(name, if size < |bytes| then |bytes| else size);
    if current.None? {
      return Err(Other);
    }
    match expected {
      case Absent =>
      case Bytes(prior) =>
        if current.value.bytes != prior {
          return Err(Other);
        }
      case Exactly(binding) =>
        if current.value != binding {
          return Err(Other);
        }
    }
    result := Ok(current);
  }

  /** What the record name may hold, at every moment of a run that begins in `start`: the binding
      of `start`, or `bytes` in a file that did not exist in `start`. */
  ghost predicate OldOrNew(start: State, name: Name, bytes: seq<Byte>, s: State) {
    s.Bound(name) == start.Bound(name) || Renewed(start, name, bytes, s)
  }

  /** The record is the new one. */
  ghost predicate Renewed(start: State, name: Name, bytes: seq<Byte>, s: State) {
    s.Bound(name).Some? && s.Bound(name).value.bytes == bytes && s.Bound(name).value.identity.ino !in start.inodes
  }

  ghost predicate SameElsewhere(start: State, s: State, names: set<Name>) {
    forall n :: n !in names ==> s.Bound(n) == start.Bound(n)
  }

  /** `begin`, `commit` and `Drop` in a row, as every caller writes a record. Whatever fails and
      wherever a crash cuts it off, the record is its old self or complete and new; success
      means new, and only when the record was what the caller expected. */
  method WriteRecord(dir: Directory, basename: Name, bytes: seq<Byte>, expected: Expected,
                     pid: nat, counter: nat, ino: nat, umasked: nat)
    returns (result: Result<Binding>)
    requires basename != "" && dir.now.Valid() && ino !in dir.now.inodes && PrivateMode(umasked)
    requires AuthorityRecord.TemporaryName(basename, pid, counter) !in dir.now.names
    requires dir.outside.None?
    modifies dir
    ensures Extends(old(dir.history), dir.history)
    ensures
      var temporary := AuthorityRecord.TemporaryName(basename, pid, counter);
      forall i :: |old(dir.history)| <= i < |dir.history| ==>
        && OldOrNew(old(dir.now), basename, bytes, dir.history[i])
        && SameElsewhere(old(dir.now), dir.history[i], {basename, temporary})
    ensures OldOrNew(old(dir.now), basename, bytes, dir.now)
    ensures result.Ok? ==>
      && result.value == Binding(bytes, Identity(0, ino, USER, 0x180, Regular, 1)) && dir.now.Bound(basename) == Some(result.value)
      && SameElsewhere(old(dir.now), dir.now, {basename})
      && Meets(expected, old(dir.now).Bound(basename)) && Allows(expected, old(dir.now).Bound(basename))
    ensures dir.Sound() ==> (result.Ok? <==> Allows(expected, old(dir.now).Bound(basename)) && Meets(expected, old(dir.now).Bound(basename)))
    ensures dir.calm && expected.Absent? && old(dir.now).Bound(basename).Some? ==> result == Err(RecordExists)
    ensures dir.calm || result == Err(RecordExists) ==> AuthorityRecord.TemporaryName(basename, pid, counter) !in dir.now.names
    // Three error codes promise one record; the others come with either, as two runs show.
    ensures result == Err(RecordExists) || result == Err(CleanupFailed) ==>
      dir.now.Bound(basename) == old(dir.now).Bound(basename)
    ensures result == Err(Unsynced) ==> Renewed(old(dir.now), basename, bytes, dir.now)
    ensures dir.calm && dir.unreadable && expected.Absent? && old(dir.now).Bound(basename).None? ==>
      result == Err(Other) && Renewed(old(dir.now), basename, bytes, dir.now)
    ensures dir.unreadable && !expected.Absent? ==>
      result == Err(Other) && dir.now.Bound(basename) == old(dir.now).Bound(basename)
    ensures result == Err(RecordExists) ==>
      expected.Absent? && dir.now.Bound(basename) == old(dir.now).Bound(basename) && old(dir.now).Bound(basename).Some?
  {
    hide State.Valid, Plan.After, Plan.Before;
    var temporaryName := AuthorityRecord.TemporaryName(basename, pid, counter);
    ghost var start, since := dir.now, |dir.history|;
    var read := ReadExpected(dir, basename, bytes, expected);
    if read.Err? {
      return Err(read.code);
    }
    var ok := dir.CreateExclusive(temporaryName, ino, umasked);
    if !ok {
      return Err(Other);
    }
    assert temporaryName != basename by {
      assert |temporaryName| > |basename|;
    }
    var txn := new RecordTxn(dir, basename, temporaryName, ino, bytes, read.value, start, since);
    CreatedIsWritten(txn.plan, umasked);
    ok := dir.Call();
    if !ok {
      // The parent could not be duplicated: the empty temporary stays behind.
      txn.WhatItMeans();
      return Err(Other);
    }
    result := txn.Complete();
    txn.WhatItMeans();
  }

  /** The present record is one that may be read against the expectation; no reading is needed
      where none is expected. */
  ghost predicate Allows(expected: Expected, found: Option<Binding>) {
    expected.Absent? || (found.Some? && OwnersOnly(found.value.identity) && Meets(expected, found))
  }

  /** A regular file with one link that nobody but its owner, the user, may access. */
  ghost predicate OwnersOnly(identity: Identity) {
    identity.kind == Regular && identity.uid == USER && identity.mode % 0x40 == 0 && identity.nlink == 1
  }

  ghost predicate Meets(expected: Expected, found: Option<Binding>) {
    match expected
    case Absent => found.None?
    case Bytes(bytes) => found.Some? && found.value.bytes == bytes
    case Exactly(binding) => found == Some(binding)
  }

  lemma CreatedIsWritten(plan: Plan, mode: nat)
    requires plan.Valid()
    ensures plan.Written(State(
      plan.start.names[plan.temporary := plan.ino],
      plan.start.inodes[plan.ino := Inode([], 0, USER, mode, Regular, 1)]))
  {
  }

  /** `remove_record_bound`: the record goes only while it is exactly the expected one, and at
      every moment it is there unchanged or gone. */
  method RemoveRecord(dir: Directory, basename: Name, expected: Binding) returns (ok: bool)
    requires dir.now.Valid()
    modifies dir`now, dir`history
    ensures ok ==> dir.now.Bound(basename) == None && old(dir.now).Bound(basename) == Some(expected)
    ensures dir.Kept() || (
      && old(dir.now).Bound(basename) == Some(expected) && dir.now.Bound(basename) == None
      && dir.history == old(dir.history) + [dir.now] && SameElsewhere(old(dir.now), dir.now, {basename}))
    ensures dir.Sound() && old(dir.now).Bound(basename) == Some(expected) && OwnersOnly(expected.identity) ==> ok
  {
    var found := dir.ReadBinding(basename, |expected.bytes|);
    if found != Some(expected) {
      return false;
    }
    var failure := dir.UnlinkCapability(basename, expected.identity);
    if failure.Some? {
      return false;
    }
    UnlinkFrame(old(dir.now), basename);
    ok := dir.Sync();
  }
}

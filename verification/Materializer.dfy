/** Building a template's content (template.rs): one pass makes every directory, then a dispatcher
    deals the manifest out to workers over bounded queues. Workers may fail, panic or run into the
    deadline at any step, and one shared flag tells the others to stop. */
module Materializer {
  import opened Base

  type Name = string
  type Path = seq<Name>

  const QUEUE_DEPTH: nat := 16

  // ---- The destination ----

  /** Directories, and files with the manifest entry each was written for. `fold` is how the
      volume compares names. */
  datatype Tree = Tree(fold: Path -> Path, dirs: set<Path>, files: map<Path, nat>) {
    predicate Occupied(path: Path) {
      (exists d :: d in dirs && fold(d) == fold(path)) || (exists f :: f in files && fold(f) == fold(path))
    }

    predicate Opens(path: Path) {
      exists d :: d in dirs && fold(d) == fold(path)
    }

    /** No two nodes that the volume takes for the same. */
    predicate Valid() {
      && (forall d, e :: d in dirs && e in dirs && fold(d) == fold(e) ==> d == e)
      && (forall f, g :: f in files && g in files && fold(f) == fold(g) ==> f == g)
      && (forall d, f :: d in dirs && f in files ==> fold(d) != fold(f))
    }

    /** The directories above `path` are all there, spelled as in `path`. */
    predicate HasParents(path: Path) {
      forall i :: 0 < i < |path| ==> path[..i] in dirs
    }
  }

  /** `destination_parent` from the n-th component on: opens each directory under its exact name,
      or makes it where nothing is. */
  function WithParents(tree: Tree, path: Path, n: nat): (result: Option<Tree>)
    decreases |path| - n
  {
    if |path| <= n + 1 then Some(tree)
    else
      var prefix := path[..n + 1];
      if tree.Opens(prefix) then
        if prefix in tree.dirs then WithParents(tree, path, n + 1) else None
      else if tree.Occupied(prefix) then None
      else WithParents(tree.(dirs := tree.dirs + {prefix}), path, n + 1)
  }

  lemma {:induction false} ParentsMade(tree: Tree, path: Path, n: nat)
    requires tree.Valid() && forall i :: 0 < i <= n && i < |path| ==> path[..i] in tree.dirs
    ensures match WithParents(tree, path, n)
            case None => true
            case Some(t) => t.Valid() && t.HasParents(path) && tree.dirs <= t.dirs && t.files == tree.files && t.fold == tree.fold
    decreases |path| - n
  {
    if n + 1 < |path| {
      var prefix := path[..n + 1];
      if tree.Opens(prefix) {
        if prefix in tree.dirs {
          ParentsMade(tree, path, n + 1);
        }
      } else if !tree.Occupied(prefix) {
        ParentsMade(tree.(dirs := tree.dirs + {prefix}), path, n + 1);
      }
    }
  }

  /** Where the directories are there already, none is made. */
  lemma {:induction false} ParentsFound(tree: Tree, path: Path, n: nat)
    requires tree.HasParents(path)
    ensures WithParents(tree, path, n) == Some(tree)
    decreases |path| - n
  {
    if n + 1 < |path| {
      assert path[..n + 1] in tree.dirs;
      ParentsFound(tree, path, n + 1);
    }
  }

  /** The directories to be there above the last component, from the (n+1)-th on. */
  function Above(path: Path, n: nat): set<Path> {
    set k | n < k < |path| :: path[..k]
  }

  function AllAbove(entries: seq<Path>): set<Path> {
    set i, k | 0 <= i < |entries| && 0 < k < |entries[i]| :: entries[i][..k]
  }

  /** The volume can hold these directories besides what it holds: it takes none of them for a file or
      for a directory of another name, and no two of them for the same. */
  ghost predicate Fits(tree: Tree, paths: set<Path>) {
    && (forall p, f :: p in paths && f in tree.files ==> tree.fold(p) != tree.fold(f))
    && (forall p, d :: p in paths && d in tree.dirs && tree.fold(p) == tree.fold(d) ==> p == d)
    && (forall p, q :: p in paths && q in paths && tree.fold(p) == tree.fold(q) ==> p == q)
  }

  lemma FitsTogether(tree: Tree, a: set<Path>, b: set<Path>)
    ensures Fits(tree, a + b) <==> Fits(tree, a) && Fits(tree.(dirs := tree.dirs + a), b)
  {
  }

  lemma FitsOne(tree: Tree, p: Path)
    requires tree.Valid()
    ensures Fits(tree, {p}) <==> p in tree.dirs || !tree.Occupied(p)
    ensures tree.Opens(p) && p !in tree.dirs ==> !Fits(tree, {p})
    ensures tree.Occupied(p) && !tree.Opens(p) ==> !Fits(tree, {p})
    ensures tree.Opens(p) ==> tree.Occupied(p)
    ensures p in tree.dirs ==> tree.Opens(p)
  {
  }

  /** The directories above a path can be had exactly where they fit, and are then all that is new. */
  lemma {:induction false} ParentsFit(tree: Tree, path: Path, n: nat)
    requires tree.Valid() && forall i :: 0 < i <= n && i < |path| ==> path[..i] in tree.dirs
    ensures WithParents(tree, path, n).Some? <==> Fits(tree, Above(path, n))
    ensures WithParents(tree, path, n).Some? ==>
      WithParents(tree, path, n).value == tree.(dirs := tree.dirs + Above(path, n))
    decreases |path| - n
  {
    hide Tree.Occupied, Tree.Opens, Tree.Valid, Fits, Above;
    if |path| <= n + 1 {
      NothingAbove(tree, path, n);
    } else {
      var prefix := path[..n + 1];
      FitsStep(tree, path, n);
      OneComponent(tree, prefix);
      if prefix in tree.dirs {
        assert tree.(dirs := tree.dirs + {prefix}) == tree;
      }
      if prefix in tree.dirs || !tree.Occupied(prefix) {
        ParentsFit(tree.(dirs := tree.dirs + {prefix}), path, n + 1);
      }
    }
  }

  lemma NothingAbove(tree: Tree, path: Path, n: nat)
    requires |path| <= n + 1
    ensures Fits(tree, Above(path, n)) && tree.dirs + Above(path, n) == tree.dirs
  {
    assert Above(path, n) == {};
  }

  /** The next directory fits if it is there or nothing is, and the rest must fit beside it. */
  lemma FitsStep(tree: Tree, path: Path, n: nat)
    requires tree.Valid() && n + 1 < |path|
    ensures
      var prefix := path[..n + 1];
      var t := tree.(dirs := tree.dirs + {prefix});
      && (Fits(tree, Above(path, n)) <==> (prefix in tree.dirs || !tree.Occupied(prefix)) && Fits(t, Above(path, n + 1)))
      && t.dirs + Above(path, n + 1) == tree.dirs + Above(path, n)
  {
    var prefix := path[..n + 1];
    assert Above(path, n) == {prefix} + Above(path, n + 1);
    hide Above;
    FitsTogether(tree, {prefix}, Above(path, n + 1));
    FitsOne(tree, prefix);
  }

  /** One component: what opens is occupied, what is there opens, and making one directory where
      nothing is keeps the volume consistent. */
  lemma OneComponent(tree: Tree, prefix: Path)
    requires tree.Valid()
    ensures tree.Opens(prefix) ==> tree.Occupied(prefix)
    ensures prefix in tree.dirs ==> tree.Opens(prefix)
    ensures !tree.Occupied(prefix) ==> tree.(dirs := tree.dirs + {prefix}).Valid()
  {
  }

  /** `destination_parent`. Opening may fail for reasons of its own; then the directory is taken
      to be absent. */
  method DestinationParent(tree: Tree, path: Path, calm: bool) returns (ok: bool, result: Tree)
    requires tree.Valid()
    ensures calm ==> (ok <==> WithParents(tree, path, 0).Some?)
    ensures result.Valid() && tree.dirs <= result.dirs && result.files == tree.files && result.fold == tree.fold
    ensures ok ==> WithParents(tree, path, 0) == Some(result) && result.HasParents(path)
    ensures tree.HasParents(path) ==> result == tree
  {
    result := tree;
    hide Tree.Valid, Tree.Occupied, Tree.Opens;
    var i := 0;
    while i + 1 < |path|
      invariant i == 0 || i < |path|
      invariant result.Valid() && tree.dirs <= result.dirs && result.files == tree.files && result.fold == tree.fold
      invariant WithParents(tree, path, 0) == WithParents(result, path, i)
      invariant forall j :: 0 < j <= i ==> path[..j] in result.dirs
      invariant tree.HasParents(path) ==> result == tree
    {
      var prefix := path[..i + 1];
      OneComponent(result, prefix);
      var opens := calm;
      if !calm {
        opens := *;
      }
      if opens && result.Opens(prefix) {
        if prefix !in result.dirs {
          return false, result;
        }
      } else {
        if result.Occupied(prefix) {
          return false, result;
        }
        result := result.(dirs := result.dirs + {prefix});
      }
      i := i + 1;
    }
    ok := true;
  }

  /** Every entry's directories, in manifest order; none where two of them collide. */
  function SkeletonOf(tree: Tree, entries: seq<Path>): Option<Tree> {
    if entries == [] then Some(tree)
    else
      match SkeletonOf(tree, entries[..|entries| - 1])
      case None => None
      case Some(t) => WithParents(t, entries[|entries| - 1], 0)
  }

  lemma {:induction false} SkeletonPrefix(tree: Tree, entries: seq<Path>, n: nat)
    requires n <= |entries| && SkeletonOf(tree, entries[..n]).None?
    ensures SkeletonOf(tree, entries).None?
    decreases |entries|
  {
    if n == |entries| {
      assert entries[..n] == entries;
    } else {
      assert entries[..|entries| - 1][..n] == entries[..n];
      SkeletonPrefix(tree, entries[..|entries| - 1], n);
    }
  }

  lemma SkeletonNext(tree: Tree, entries: seq<Path>, n: nat)
    requires n < |entries|
    ensures SkeletonOf(tree, entries[..n + 1]) ==
      match SkeletonOf(tree, entries[..n])
      case None => None
      case Some(t) => WithParents(t, entries[n], 0)
  {
    assert entries[..n + 1][..n] == entries[..n];
  }

  /** A skeleton can be had exactly where all directories of all entries fit, and consists of these. */
  lemma {:induction false} SkeletonFits(tree: Tree, entries: seq<Path>)
    requires tree.Valid()
    ensures SkeletonOf(tree, entries).Some? <==> Fits(tree, AllAbove(entries))
    ensures SkeletonOf(tree, entries).Some? ==>
      && SkeletonOf(tree, entries).value == tree.(dirs := tree.dirs + AllAbove(entries))
      && SkeletonOf(tree, entries).value.Valid()
    decreases |entries|
  {
    if entries == [] {
      assert AllAbove(entries) == {} && tree.dirs + {} == tree.dirs;
    } else {
      var n := |entries| - 1;
      var front, last := entries[..n], entries[n];
      SkeletonFits(tree, front);
      AllAboveStep(entries, n);
      FitsTogether(tree, AllAbove(front), Above(last, 0));
      if SkeletonOf(tree, front).Some? {
        var t := SkeletonOf(tree, front).value;
        ParentsFit(t, last, 0);
        ParentsMade(t, last, 0);
        assert t.dirs + Above(last, 0) == tree.dirs + AllAbove(entries);
      }
    }
  }

  lemma AllAboveStep(entries: seq<Path>, n: nat)
    requires n + 1 == |entries|
    ensures AllAbove(entries) == AllAbove(entries[..n]) + Above(entries[n], 0)
  {
    forall p | p in AllAbove(entries)
      ensures p in AllAbove(entries[..n]) + Above(entries[n], 0)
    {
      var i, k :| 0 <= i < |entries| && 0 < k < |entries[i]| && p == entries[i][..k];
      if i < n {
        assert entries[..n][i] == entries[i];
      }
    }
    forall p | p in AllAbove(entries[..n])
      ensures p in AllAbove(entries)
    {
      var i, k :| 0 <= i < n && 0 < k < |entries[..n][i]| && p == entries[..n][i][..k];
      assert entries[i][..k] == p;
    }
  }

  /** `prepare_destination_skeleton`: afterwards no entry needs a directory that is not there. */
  method PrepareSkeleton(tree: Tree, entries: seq<Path>, calm: bool) returns (ok: bool, result: Tree)
    requires tree.Valid()
    ensures ok ==> SkeletonOf(tree, entries) == Some(result)
    ensures calm ==> (ok <==> Fits(tree, AllAbove(entries)))
    ensures ok ==> result == tree.(dirs := tree.dirs + AllAbove(entries))
    ensures result.Valid() && result.files == tree.files && result.fold == tree.fold
    ensures ok ==> forall i :: 0 <= i < |entries| ==> result.HasParents(entries[i])
  {
    hide WithParents, Tree.Valid, Fits, AllAbove, Above;
    SkeletonFits(tree, entries);
    result := tree;
    for n := 0 to |entries|
      invariant result.Valid() && result.files == tree.files && result.fold == tree.fold
      invariant forall i :: 0 <= i < n ==> result.HasParents(entries[i])
      invariant SkeletonOf(tree, entries[..n]) == Some(result)
    {
      SkeletonNext(tree, entries, n);
      ok, result := DestinationParent(result, entries[n], calm);
      if !ok {
        if SkeletonOf(tree, entries[..n + 1]).None? {
          SkeletonPrefix(tree, entries, n + 1);
        }
        return;
      }
    }
    assert entries[..|entries|] == entries;
    ok := calm;
    if !calm {
      ok := *;
    }
  }

  // ---- The worker pool ----

  /** Indices into the manifest stand for its entries. A worker that has taken an entry first
      writes it and then counts it. */
  datatype Worker =
    | Idle(count: nat)
    | Taken(count: nat, entry: nat)
    | Wrote(count: nat, entry: nat)
    | Reported(count: nat)
    | Failed
    | Panicked

  datatype Dispatch = Sending | Finished | Broken

  /** A worker with its queue, and the set of entries it has counted. */
  datatype Lane = Lane(worker: Worker, queue: seq<nat>, done: set<nat>) {
    /** An entry the worker has in its hands. */
    predicate Holds(e: nat) {
      (worker.Taken? || worker.Wrote?) && worker.entry == e
    }

    predicate Alive() {
      worker.Idle? || worker.Taken? || worker.Wrote?
    }

    predicate Lost() {
      worker.Failed? || worker.Panicked?
    }
  }

  /** `writes` records every write to the destination, in order. */
  datatype State = State(
    tree: Tree, next: nat, dispatch: Dispatch, cancelled: bool, lanes: seq<Lane>, writes: seq<nat>)

  datatype Action =
    | Send
    | Break
    | Close
    | Take(w: nat)
    | Write(w: nat)
    | Count(w: nat)
    | SeeCancelled(w: nat)
    | Drain(w: nat)
    | Fail(w: nat)
    | Panic(w: nat)

  /** The worker an entry is dealt to. */
  function Share(e: nat, k: nat): (w: nat)
    requires 0 < k
    ensures w < k
  {
    e % k
  }

  /** The write of an entry: its directories are there or are made, and its own name must be free. */
  function Written(tree: Tree, path: Path, entry: nat): Option<Tree> {
    match WithParents(tree, path, 0)
    case None => None
    case Some(t) => if t.Occupied(path) then None else Some(t.(files := t.files[path := entry]))
  }

  predicate Enabled(entries: seq<Path>, s: State, a: Action)
    requires 0 < |s.lanes|
  {
    match a
    case Send =>
      && s.dispatch.Sending? && s.next < |entries| && !s.cancelled
      && var lane := s.lanes[Share(s.next, |s.lanes|)]; lane.Alive() && |lane.queue| < QUEUE_DEPTH
    // Cancelled, past the deadline, or the worker's end of the queue is gone.
    case Break => s.dispatch.Sending? && s.next < |entries|
    case Close => s.dispatch.Sending? && s.next == |entries|
    case Take(w) => w < |s.lanes| && s.lanes[w].worker.Idle? && s.lanes[w].queue != []
    case Write(w) =>
      && w < |s.lanes| && s.lanes[w].worker.Taken? && s.lanes[w].worker.entry < |entries|
      && Written(s.tree, entries[s.lanes[w].worker.entry], s.lanes[w].worker.entry).Some?
    case Count(w) => w < |s.lanes| && s.lanes[w].worker.Wrote?
    case SeeCancelled(w) => w < |s.lanes| && s.lanes[w].worker.Idle? && s.cancelled
    case Drain(w) => w < |s.lanes| && s.lanes[w].worker.Idle? && s.lanes[w].queue == [] && !s.dispatch.Sending?
    case Fail(w) => w < |s.lanes| && s.lanes[w].Alive()
    case Panic(w) => w < |s.lanes| && s.lanes[w].Alive()
  }

  /** What an action does to the lane of the worker it is about. */
  function Moved(lane: Lane, a: Action): Lane {
    match a
    case Take(_) =>
      if lane.worker.Idle? && lane.queue != []
      then Lane(Taken(lane.worker.count, lane.queue[0]), lane.queue[1..], lane.done) else lane
    case Write(_) => if lane.worker.Taken? then lane.(worker := Wrote(lane.worker.count, lane.worker.entry)) else lane
    case Count(_) =>
      if lane.worker.Wrote?
      then Lane(Idle(lane.worker.count + 1), lane.queue, lane.done + {lane.worker.entry}) else lane
    case SeeCancelled(_) => if lane.worker.Idle? then lane.(worker := Reported(lane.worker.count)) else lane
    case Drain(_) => if lane.worker.Idle? then lane.(worker := Reported(lane.worker.count)) else lane
    case Fail(_) => lane.(worker := Worker.Failed)
    case Panic(_) => lane.(worker := Panicked)
    case _ => lane
  }

  function Apply(entries: seq<Path>, s: State, a: Action): State
    requires 0 < |s.lanes| && Enabled(entries, s, a)
  {
    match a
    case Send =>
      var w := Share(s.next, |s.lanes|);
      s.(lanes := s.lanes[w := s.lanes[w].(queue := s.lanes[w].queue + [s.next])], next := s.next + 1)
    case Break => s.(dispatch := Broken, cancelled := true)
    case Close => s.(dispatch := Finished)
    case Write(w) =>
      var entry := s.lanes[w].worker.entry;
      s.(lanes := s.lanes[w := Moved(s.lanes[w], a)], writes := s.writes + [entry],
         tree := Written(s.tree, entries[entry], entry).value)
    case Fail(w) => s.(lanes := s.lanes[w := Moved(s.lanes[w], a)], cancelled := true)
    case _ => s.(lanes := s.lanes[a.w := Moved(s.lanes[a.w], a)])
  }

  /** All workers have been joined. */
  predicate Joined(s: State) {
    !s.dispatch.Sending? && forall w :: 0 <= w < |s.lanes| ==> !s.lanes[w].Alive()
  }

  predicate NothingFailed(s: State) {
    !s.dispatch.Broken? && forall w :: 0 <= w < |s.lanes| ==> !s.lanes[w].Lost()
  }

  /** What the workers report, added up. */
  function Total(lanes: seq<Lane>): nat {
    if lanes == [] then 0
    else
      var last := lanes[|lanes| - 1];
      Total(lanes[..|lanes| - 1]) + if last.Lost() then 0 else last.worker.count
  }

  /** `materialize_entries` returns Ok. */
  predicate ReturnsOk(entries: seq<Path>, s: State) {
    Joined(s) && NothingFailed(s) && Total(s.lanes) == |entries|
  }

  // ---- Invariant ----

  /** A worker goes through its share of the manifest in order: what it has counted, then the entry
      in its hands, then its queue, then what has not been sent. */
  ghost predicate LaneInv(lane: Lane, w: nat, k: nat, next: nat)
    requires 0 < k
  {
    && |lane.queue| <= QUEUE_DEPTH
    && (forall i :: 0 <= i < |lane.queue| ==> lane.queue[i] < next && Share(lane.queue[i], k) == w)
    && (forall i, j :: 0 <= i < j < |lane.queue| ==> lane.queue[i] < lane.queue[j])
    && (forall e :: e in lane.done ==> e < next && Share(e, k) == w)
    && (forall e, i :: e in lane.done && 0 <= i < |lane.queue| ==> e < lane.queue[i])
    && (lane.worker.Taken? || lane.worker.Wrote? ==>
        && lane.worker.entry < next && Share(lane.worker.entry, k) == w
        && (forall e :: e in lane.done ==> e < lane.worker.entry)
        && (forall i :: 0 <= i < |lane.queue| ==> lane.worker.entry < lane.queue[i]))
    && (!lane.Lost() ==> lane.worker.count == |lane.done|)
  }

  /** Where an entry that has been sent is. */
  ghost predicate Accounted(lane: Lane, e: nat, cancelled: bool, writes: seq<nat>) {
    && (cancelled || lane.Lost() || e in lane.done || e in lane.queue || lane.Holds(e))
    && (lane.worker.Reported? && !cancelled ==> e in lane.done)
    && (e in lane.done ==> e in writes)
    && (lane.worker.Wrote? && lane.worker.entry == e ==> e in writes)
    && (lane.Alive() && e in writes ==> e in lane.done || (lane.worker.Wrote? && lane.worker.entry == e))
  }

  ghost predicate TreeInv(entries: seq<Path>, start: Tree, s: State) {
    && (forall i :: 0 <= i < |entries| ==> s.tree.HasParents(entries[i]))
    && s.tree.Valid() && s.tree.dirs == start.dirs && s.tree.fold == start.fold
    && (forall i, j :: 0 <= i < j < |s.writes| ==> s.writes[i] != s.writes[j])
    && (forall e :: e in s.writes ==> e < s.next)
    && Matches(entries, s.tree.files, s.writes)
  }

  /** The files are exactly the entries written, each under its own path. */
  ghost predicate Matches(entries: seq<Path>, files: map<Path, nat>, writes: seq<nat>) {
    && (forall e :: e in writes ==> e < |entries| && entries[e] in files && files[entries[e]] == e)
    && (forall p :: p in files ==> files[p] in writes && entries[files[p]] == p)
  }

  ghost predicate Shape(entries: seq<Path>, s: State) {
    && 0 < |s.lanes| && s.next <= |entries|
    && (s.dispatch.Finished? ==> s.next == |entries|)
    && (s.cancelled ==> !NothingFailed(s))
    && (s.dispatch.Sending? && !s.cancelled ==> forall w :: 0 <= w < |s.lanes| ==> !s.lanes[w].worker.Reported?)
  }

  ghost predicate Inv(entries: seq<Path>, start: Tree, s: State) {
    && Shape(entries, s)
    && (forall w :: 0 <= w < |s.lanes| ==> LaneInv(s.lanes[w], w, |s.lanes|, s.next))
    && (forall e :: 0 <= e < s.next ==> Accounted(s.lanes[Share(e, |s.lanes|)], e, s.cancelled, s.writes))
    && TreeInv(entries, start, s)
  }

  lemma ShapeStep(entries: seq<Path>, s: State, a: Action)
    requires Shape(entries, s) && Enabled(entries, s, a)
    ensures Shape(entries, Apply(entries, s, a))
  {
    var t := Apply(entries, s, a);
    hide Share;
    if s.cancelled && !s.dispatch.Broken? {
      var w :| 0 <= w < |s.lanes| && s.lanes[w].Lost();
      assert t.lanes[w].Lost();
    }
    if a.Fail? {
      assert t.lanes[a.w].Lost();
    }
  }

  lemma LaneMoves(lane: Lane, a: Action, w: nat, k: nat, next: nat)
    requires 0 < k && LaneInv(lane, w, k, next)
    ensures LaneInv(Moved(lane, a), w, k, next)
  {
    if a.Take? {
      LaneTakes(lane, w, k, next);
    } else if a.Count? {
      LaneCounts(lane, w, k, next);
    } else {
      hide Share;
    }
  }

  lemma LaneTakes(lane: Lane, w: nat, k: nat, next: nat)
    requires 0 < k && LaneInv(lane, w, k, next)
    ensures lane.worker.Idle? && lane.queue != [] ==>
      LaneInv(Lane(Taken(lane.worker.count, lane.queue[0]), lane.queue[1..], lane.done), w, k, next)
  {
    hide Share;
    if lane.queue != [] {
      assert forall i :: 0 <= i < |lane.queue[1..]| ==> lane.queue[1..][i] == lane.queue[i + 1];
    }
  }

  lemma LaneCounts(lane: Lane, w: nat, k: nat, next: nat)
    requires 0 < k && LaneInv(lane, w, k, next)
    ensures lane.worker.Wrote? ==>
      LaneInv(Lane(Idle(lane.worker.count + 1), lane.queue, lane.done + {lane.worker.entry}), w, k, next)
  {
    hide Share;
  }

  lemma LaneReceives(lane: Lane, w: nat, k: nat, next: nat)
    requires 0 < k && LaneInv(lane, w, k, next)
    ensures LaneInv(lane, w, k, next + 1)
    ensures Share(next, k) == w && |lane.queue| < QUEUE_DEPTH ==>
      LaneInv(lane.(queue := lane.queue + [next]), w, k, next + 1)
  {
    hide Share;
  }

  /** An entry stays accounted for while the worker that has it moves. */
  lemma AccountMoves(lane: Lane, a: Action, w: nat, k: nat, next: nat, e: nat, cancelled: bool, writes: seq<nat>)
    requires 0 < k && LaneInv(lane, w, k, next) && e < next && Share(e, k) == w && Accounted(lane, e, cancelled, writes)
    requires a.Drain? ==> lane.worker.Idle? && lane.queue == []
    requires a.SeeCancelled? ==> cancelled
    ensures !a.Write? ==> Accounted(Moved(lane, a), e, cancelled || a.Fail?, writes)
    ensures a.Write? && lane.worker.Taken? ==> Accounted(Moved(lane, a), e, cancelled, writes + [lane.worker.entry])
  {
    hide Share;
    if a.Take? && lane.worker.Idle? && lane.queue != [] && e in lane.queue {
      assert e == lane.queue[0] || e in lane.queue[1..];
    }
  }

  /** An entry that the worker has in its hands has not been written yet. */
  lemma NotYetWritten(s: State, w: nat, entries: seq<Path>, start: Tree)
    requires Inv(entries, start, s) && w < |s.lanes| && s.lanes[w].worker.Taken?
    ensures s.lanes[w].worker.entry !in s.writes && s.lanes[w].worker.entry < |entries|
  {
    var e := s.lanes[w].worker.entry;
    assert LaneInv(s.lanes[w], w, |s.lanes|, s.next);
    assert Accounted(s.lanes[Share(e, |s.lanes|)], e, s.cancelled, s.writes);
  }

  /** After the skeleton pass a write makes no directory: it adds its file, under a name that was free. */
  lemma WriteAddsAFile(tree: Tree, path: Path, entry: nat)
    requires tree.HasParents(path) && tree.Valid()
    ensures Written(tree, path, entry).Some? ==>
      && !tree.Occupied(path)
      && Written(tree, path, entry) == Some(tree.(files := tree.files[path := entry]))
      && Written(tree, path, entry).value.Valid()
  {
    ParentsFound(tree, path, 0);
  }

  lemma TreeStep(entries: seq<Path>, start: Tree, s: State, a: Action)
    requires Inv(entries, start, s) && Enabled(entries, s, a)
    ensures TreeInv(entries, start, Apply(entries, s, a))
  {
    if a.Write? {
      var e := s.lanes[a.w].worker.entry;
      NotYetWritten(s, a.w, entries, start);
      assert LaneInv(s.lanes[a.w], a.w, |s.lanes|, s.next);
      WriteAddsAFile(s.tree, entries[e], e);
      FileAdded(entries, start, s, Apply(entries, s, a), e);
    }
  }

  lemma FileAdded(entries: seq<Path>, start: Tree, s: State, t: State, e: nat)
    requires TreeInv(entries, start, s) && e < s.next && e < |entries| && e !in s.writes && !s.tree.Occupied(entries[e])
    requires t.writes == s.writes + [e] && t.next == s.next
    requires t.tree == s.tree.(files := s.tree.files[entries[e] := e]) && t.tree.Valid()
    ensures TreeInv(entries, start, t)
  {
    assert entries[e] !in s.tree.files;
    forall i | 0 <= i < |entries|
      ensures t.tree.HasParents(entries[i])
    {
      assert s.tree.HasParents(entries[i]);
    }
    hide Tree.Valid, Tree.HasParents, Tree.Occupied;
    MatchesMore(entries, s.tree.files, s.writes, e);
  }

  lemma MatchesMore(entries: seq<Path>, files: map<Path, nat>, writes: seq<nat>, e: nat)
    requires Matches(entries, files, writes) && e < |entries| && entries[e] !in files
    ensures Matches(entries, files[entries[e] := e], writes + [e])
  {
    var after := files[entries[e] := e];
    forall f | f in writes + [e]
      ensures f < |entries| && entries[f] in after && after[entries[f]] == f
    {
      assert f == e || f in writes;
    }
    forall p | p in after
      ensures after[p] in writes + [e] && entries[after[p]] == p
    {
      assert p != entries[e] ==> after[p] in writes;
    }
  }

  /** What an action does to the lanes, lane by lane. */
  lemma LanesAfter(entries: seq<Path>, s: State, a: Action, w: nat)
    requires 0 < |s.lanes| && Enabled(entries, s, a) && w < |s.lanes|
    ensures
      var t := Apply(entries, s, a);
      && |t.lanes| == |s.lanes|
      && t.lanes[w] == (
        if a.Send? then
          if w == Share(s.next, |s.lanes|) then s.lanes[w].(queue := s.lanes[w].queue + [s.next]) else s.lanes[w]
        else if a.Break? || a.Close? || a.w != w then s.lanes[w]
        else Moved(s.lanes[w], a))
      && t.next == s.next + (if a.Send? then 1 else 0)
      && t.cancelled == (s.cancelled || a.Break? || a.Fail?)
      && (a.Send? ==> |s.lanes[Share(s.next, |s.lanes|)].queue| < QUEUE_DEPTH)
      && (a.Write? ==> a.w < |s.lanes| && s.lanes[a.w].worker.Taken? && t.writes == s.writes + [s.lanes[a.w].worker.entry])
      && (!a.Write? ==> t.writes == s.writes)
      && (a.Drain? ==> a.w < |s.lanes| && s.lanes[a.w].worker.Idle? && s.lanes[a.w].queue == [])
      && (a.SeeCancelled? ==> s.cancelled)
  {
    hide Moved, Share, Written;
  }

  lemma LaneStep(entries: seq<Path>, start: Tree, s: State, a: Action, w: nat)
    requires Inv(entries, start, s) && Enabled(entries, s, a) && w < |s.lanes|
    ensures |Apply(entries, s, a).lanes| == |s.lanes|
    ensures LaneInv(Apply(entries, s, a).lanes[w], w, |s.lanes|, Apply(entries, s, a).next)
  {
    hide LaneInv, Accounted, TreeInv, Share, Moved, Apply, Enabled;
    LanesAfter(entries, s, a, w);
    LaneMoves(s.lanes[w], a, w, |s.lanes|, s.next);
    LaneReceives(s.lanes[w], w, |s.lanes|, s.next);
  }

  lemma AccountStep(entries: seq<Path>, start: Tree, s: State, a: Action, e: nat)
    requires Inv(entries, start, s) && Enabled(entries, s, a) && e < Apply(entries, s, a).next
    ensures |Apply(entries, s, a).lanes| == |s.lanes|
    ensures
      var t := Apply(entries, s, a);
      Accounted(t.lanes[Share(e, |s.lanes|)], e, t.cancelled, t.writes)
  {
    hide LaneInv, Accounted, TreeInv, Share, Moved, Apply, Enabled;
    var w := Share(e, |s.lanes|);
    LanesAfter(entries, s, a, w);
    if a.Send? {
      Sent(entries, start, s, e);
    } else if a.Break? || a.Close? {
      StillAccounted(s.lanes[w], e, s.cancelled, s.writes);
    } else if a.w == w {
      AccountMoves(s.lanes[w], a, w, |s.lanes|, s.next, e, s.cancelled, s.writes);
    } else {
      StillAccounted(s.lanes[w], e, s.cancelled, s.writes);
      if a.Write? {
        AnotherWrite(s.lanes[w], s.lanes[a.w], e, w, a.w, |s.lanes|, s);
      }
    }
  }

  lemma StepKeepsInv(entries: seq<Path>, start: Tree, s: State, a: Action)
    requires Inv(entries, start, s) && Enabled(entries, s, a)
    ensures Inv(entries, start, Apply(entries, s, a))
  {
    var t := Apply(entries, s, a);
    ShapeStep(entries, s, a);
    TreeStep(entries, start, s, a);
    hide LaneInv, Accounted, TreeInv, Shape, Share, Apply, Enabled;
    LaneStep(entries, start, s, a, 0);
    forall w | 0 <= w < |s.lanes|
      ensures LaneInv(t.lanes[w], w, |s.lanes|, t.next)
    {
      LaneStep(entries, start, s, a, w);
    }
    forall e | 0 <= e < t.next
      ensures Accounted(t.lanes[Share(e, |s.lanes|)], e, t.cancelled, t.writes)
    {
      AccountStep(entries, start, s, a, e);
    }
  }

  lemma StillAccounted(lane: Lane, e: nat, cancelled: bool, writes: seq<nat>)
    requires Accounted(lane, e, cancelled, writes)
    ensures Accounted(lane, e, true, writes)
  {
  }

  /** A write by another worker is of another entry. */
  lemma AnotherWrite(lane: Lane, other: Lane, e: nat, w: nat, v: nat, k: nat, s: State)
    requires 0 < k && w != v && Share(e, k) == w && LaneInv(other, v, k, s.next) && other.worker.Taken?
    requires Accounted(lane, e, s.cancelled, s.writes)
    ensures Accounted(lane, e, s.cancelled, s.writes + [other.worker.entry])
  {
    hide Share;
  }

  lemma Sent(entries: seq<Path>, start: Tree, s: State, e: nat)
    requires Inv(entries, start, s) && Enabled(entries, s, Send) && e <= s.next
    ensures
      var t := Apply(entries, s, Send);
      Accounted(t.lanes[Share(e, |s.lanes|)], e, t.cancelled, t.writes)
  {
    var k := |s.lanes|;
    var w := Share(e, k);
    assert LaneInv(s.lanes[w], w, k, s.next);
    if e < s.next {
      assert Accounted(s.lanes[w], e, s.cancelled, s.writes);
    } else {
      assert e !in s.writes;
    }
    hide Share;
  }

  // ---- Runs ----

  /** Before the first step: the skeleton is there and nothing else. */
  ghost predicate Initial(entries: seq<Path>, s: State) {
    && s.tree.Valid() && s.tree.files == map[] && (forall i :: 0 <= i < |entries| ==> s.tree.HasParents(entries[i]))
    && s.next == 0 && s.dispatch.Sending? && !s.cancelled && s.writes == []
    && 0 < |s.lanes| && forall w :: 0 <= w < |s.lanes| ==> s.lanes[w] == Lane(Idle(0), [], {})
  }

  function Execute(entries: seq<Path>, s: State, actions: seq<Action>): (result: Option<State>)
    requires 0 < |s.lanes|
    ensures result.Some? ==> |result.value.lanes| == |s.lanes|
  {
    if actions == [] then Some(s)
    else
      var before := Execute(entries, s, actions[..|actions| - 1]);
      var a := actions[|actions| - 1];
      if before.Some? && Enabled(entries, before.value, a) then Some(Apply(entries, before.value, a)) else None
  }

  lemma {:induction false} RunKeepsInv(entries: seq<Path>, s: State, actions: seq<Action>)
    requires Initial(entries, s) && Execute(entries, s, actions).Some?
    ensures Inv(entries, s.tree, Execute(entries, s, actions).value)
    decreases |actions|
  {
    if actions != [] {
      var front := actions[..|actions| - 1];
      RunKeepsInv(entries, s, front);
      StepKeepsInv(entries, s.tree, Execute(entries, s, front).value, actions[|actions| - 1]);
    }
  }

  // ---- Adding up the reports ----

  /** Everything counted by the first workers. */
  function Counted(lanes: seq<Lane>): set<nat> {
    if lanes == [] then {} else Counted(lanes[..|lanes| - 1]) + lanes[|lanes| - 1].done
  }

  lemma {:induction false} CountedIn(lanes: seq<Lane>, e: nat)
    ensures e in Counted(lanes) <==> exists w :: 0 <= w < |lanes| && e in lanes[w].done
    decreases |lanes|
  {
    if lanes != [] {
      var n := |lanes| - 1;
      CountedIn(lanes[..n], e);
      if exists w :: 0 <= w < |lanes| && e in lanes[w].done {
        var w :| 0 <= w < |lanes| && e in lanes[w].done;
        assert w < n ==> lanes[..n][w] == lanes[w];
      }
    }
  }

  /** Shares are disjoint, so the reports add up to the number of entries counted. */
  lemma {:induction false} TotalIsCounted(lanes: seq<Lane>, k: nat, next: nat)
    requires 0 < k && forall w :: 0 <= w < |lanes| ==> LaneInv(lanes[w], w, k, next) && !lanes[w].Lost()
    ensures Total(lanes) == |Counted(lanes)|
    decreases |lanes|
  {
    if lanes != [] {
      var n := |lanes| - 1;
      var front := lanes[..n];
      TotalIsCounted(front, k, next);
      forall e | e in Counted(front)
        ensures e !in lanes[n].done
      {
        CountedIn(front, e);
      }
      assert Counted(front) !! lanes[n].done;
    }
  }

  lemma {:induction false} FullSet(s: set<nat>, n: nat)
    requires forall e :: e in s ==> e < n
    ensures |s| <= n && (|s| == n ==> forall e :: 0 <= e < n ==> e in s)
    ensures (forall e :: 0 <= e < n ==> e in s) ==> |s| == n
  {
    if n == 0 {
      assert s == {};
    } else {
      FullSet(s - {n - 1}, n - 1);
      if n - 1 in s {
        assert s == (s - {n - 1}) + {n - 1};
      } else {
        assert s == s - {n - 1};
      }
    }
  }

  /** Success means that every entry of the manifest was written exactly once: the files of the
      destination are exactly the manifest's, each from its own entry, and no worker made a directory. */
  lemma OkMeansComplete(entries: seq<Path>, s: State, actions: seq<Action>)
    requires Initial(entries, s) && Execute(entries, s, actions).Some?
    requires ReturnsOk(entries, Execute(entries, s, actions).value)
    ensures
      var t := Execute(entries, s, actions).value;
      && (forall e :: 0 <= e < |entries| ==> e in t.writes)
      && (forall i, j :: 0 <= i < j < |t.writes| ==> t.writes[i] != t.writes[j])
      && |t.writes| == |entries|
      && (forall e :: 0 <= e < |entries| ==> entries[e] in t.tree.files && t.tree.files[entries[e]] == e)
      && (forall p :: p in t.tree.files ==> p in entries)
      && t.tree.dirs == s.tree.dirs
  {
    RunKeepsInv(entries, s, actions);
    var t := Execute(entries, s, actions).value;
    AllCounted(entries, s.tree, t);
    OnlyManifest(entries, s.tree, t);
  }

  lemma OnlyManifest(entries: seq<Path>, start: Tree, t: State)
    requires TreeInv(entries, start, t) && forall e :: 0 <= e < |entries| ==> e in t.writes
    ensures |t.writes| == |entries| && forall p :: p in t.tree.files ==> p in entries
  {
    assert forall i :: 0 <= i < |t.writes| ==> t.writes[i] in t.writes;
    WritesAreManifest(entries, t.writes);
    forall p | p in t.tree.files
      ensures p in entries
    {
      assert t.tree.files[p] in t.writes && entries[t.tree.files[p]] == p;
    }
  }

  lemma WritesAreManifest(entries: seq<Path>, writes: seq<nat>)
    requires forall e :: 0 <= e < |entries| ==> e in writes
    requires forall i :: 0 <= i < |writes| ==> writes[i] < |entries|
    requires forall i, j :: 0 <= i < j < |writes| ==> writes[i] != writes[j]
    ensures |writes| == |entries|
  {
    NoRepeats(writes);
    FullSet(Elements(writes), |entries|);
  }

  lemma AllCounted(entries: seq<Path>, start: Tree, t: State)
    requires Inv(entries, start, t) && ReturnsOk(entries, t)
    ensures forall e :: 0 <= e < |entries| ==> e in t.writes
  {
    var k := |t.lanes|;
    forall e | e in Counted(t.lanes)
      ensures e < |entries|
    {
      CountedIn(t.lanes, e);
    }
    TotalIsCounted(t.lanes, k, t.next);
    FullSet(Counted(t.lanes), |entries|);
    forall e | 0 <= e < |entries|
      ensures e in t.writes
    {
      CountedIn(t.lanes, e);
      var w :| 0 <= w < k && e in t.lanes[w].done;
      assert LaneInv(t.lanes[w], w, k, t.next);
      assert Accounted(t.lanes[Share(e, k)], e, t.cancelled, t.writes);
    }
  }

  function Elements(writes: seq<nat>): set<nat> {
    set e | e in writes
  }

  lemma {:induction false} NoRepeats(writes: seq<nat>)
    requires forall i, j :: 0 <= i < j < |writes| ==> writes[i] != writes[j]
    ensures |Elements(writes)| == |writes|
  {
    if writes == [] {
      assert Elements(writes) == {};
    } else {
      var front := writes[..|writes| - 1];
      NoRepeats(front);
      assert writes == front + [writes[|writes| - 1]];
      assert Elements(writes) == Elements(front) + {writes[|writes| - 1]};
    }
  }

  /** The last check of `materialize_entries` never decides: when all workers have been joined and
      nothing has failed, their reports do account for the whole manifest. */
  lemma NothingFailedMeansOk(entries: seq<Path>, s: State, actions: seq<Action>)
    requires Initial(entries, s) && Execute(entries, s, actions).Some?
    requires Joined(Execute(entries, s, actions).value)
    ensures
      var t := Execute(entries, s, actions).value;
      ReturnsOk(entries, t) <==> NothingFailed(t)
  {
    RunKeepsInv(entries, s, actions);
    var t := Execute(entries, s, actions).value;
    if NothingFailed(t) {
      hide Execute;
      var k := |t.lanes|;
      TotalIsCounted(t.lanes, k, t.next);
      forall e | e in Counted(t.lanes)
        ensures e < |entries|
      {
        CountedIn(t.lanes, e);
      }
      forall e | 0 <= e < |entries|
        ensures e in Counted(t.lanes)
      {
        var w := Share(e, k);
        assert Accounted(t.lanes[w], e, t.cancelled, t.writes);
        CountedIn(t.lanes, e);
      }
      FullSet(Counted(t.lanes), |entries|);
    }
  }

  /** The bounded queues cannot block each other: as long as nothing has failed, the entries in
      hand can be written and not all workers have been joined, some step that is not a failure is
      possible. */
  lemma NoDeadlock(entries: seq<Path>, s: State, actions: seq<Action>)
    requires Initial(entries, s) && Execute(entries, s, actions).Some?
    requires !Joined(Execute(entries, s, actions).value) && NothingFailed(Execute(entries, s, actions).value)
    requires
      var t := Execute(entries, s, actions).value;
      forall w :: 0 <= w < |t.lanes| && t.lanes[w].worker.Taken? && t.lanes[w].worker.entry < |entries| ==>
        Written(t.tree, entries[t.lanes[w].worker.entry], t.lanes[w].worker.entry).Some?
    ensures exists a :: Enabled(entries, Execute(entries, s, actions).value, a) && !a.Break? && !a.Fail? && !a.Panic?
  {
    RunKeepsInv(entries, s, actions);
    var a := NextStep(entries, s.tree, Execute(entries, s, actions).value);
  }

  lemma NextStep(entries: seq<Path>, start: Tree, t: State) returns (a: Action)
    requires Inv(entries, start, t) && !Joined(t) && NothingFailed(t)
    requires forall w :: 0 <= w < |t.lanes| && t.lanes[w].worker.Taken? && t.lanes[w].worker.entry < |entries| ==>
      Written(t.tree, entries[t.lanes[w].worker.entry], t.lanes[w].worker.entry).Some?
    ensures Enabled(entries, t, a) && !a.Break? && !a.Fail? && !a.Panic?
  {
    var w: nat := 0;
    if t.dispatch.Sending? {
      w := if t.next < |entries| then Share(t.next, |t.lanes|) else 0;
    } else {
      w :| 0 <= w < |t.lanes| && t.lanes[w].Alive();
    }
    LaneIsAlive(entries, t, w);
    assert LaneInv(t.lanes[w], w, |t.lanes|, t.next);
    assert t.lanes[w].worker.Taken? ==> t.lanes[w].worker.entry < |entries|;
    hide *;
    a := StepOfLane(entries, t, w);
  }

  /** As long as nothing has failed and entries are still being sent, every worker is alive. */
  lemma LaneIsAlive(entries: seq<Path>, t: State, w: nat)
    requires Shape(entries, t) && NothingFailed(t) && w < |t.lanes|
    ensures !t.cancelled && t.next <= |entries|
    ensures t.dispatch.Sending? ==> t.lanes[w].Alive()
  {
  }

  lemma StepOfLane(entries: seq<Path>, t: State, w: nat) returns (a: Action)
    requires w < |t.lanes| && t.lanes[w].Alive() && t.next <= |entries| && !t.cancelled
    requires t.dispatch.Sending? && t.next < |entries| ==> w == Share(t.next, |t.lanes|)
    requires t.lanes[w].worker.Taken? ==>
      && t.lanes[w].worker.entry < |entries|
      && Written(t.tree, entries[t.lanes[w].worker.entry], t.lanes[w].worker.entry).Some?
    ensures Enabled(entries, t, a) && !a.Break? && !a.Fail? && !a.Panic?
  {
    hide Written, Share;
    a := if t.lanes[w].worker.Taken? then Write(w)
    else if t.lanes[w].worker.Wrote? then Count(w)
    else if t.lanes[w].queue != [] then Take(w)
    else if !t.dispatch.Sending? then Drain(w)
    else if t.next == |entries| then Close
    else Send;
  }

  /** At every moment of every run no worker has made a directory, no queue is over its bound, and
      what has been written is part of the manifest. */
  lemma AlwaysWithinManifest(entries: seq<Path>, s: State, actions: seq<Action>, w: nat)
    requires Initial(entries, s) && Execute(entries, s, actions).Some? && w < |s.lanes|
    ensures
      var t := Execute(entries, s, actions).value;
      && t.tree.dirs == s.tree.dirs && |t.lanes[w].queue| <= QUEUE_DEPTH
      && (forall p :: p in t.tree.files ==> t.tree.files[p] < |entries| && entries[t.tree.files[p]] == p)
      && (t.lanes[w].worker.Taken? ==> t.lanes[w].worker.entry < |entries|)
      && (t.lanes[w].worker.Taken? ==> WithParents(t.tree, entries[t.lanes[w].worker.entry], 0) == Some(t.tree))
  {
    RunKeepsInv(entries, s, actions);
    var t := Execute(entries, s, actions).value;
    hide Execute;
    assert LaneInv(t.lanes[w], w, |t.lanes|, t.next);
    if t.lanes[w].worker.Taken? {
      ParentsFound(t.tree, entries[t.lanes[w].worker.entry], 0);
    }
  }
}

/** Two-phase deletion of an owned tree (storage.rs): a first pass counts the links of every regular
    file with more than one, and nothing is touched unless all of them lie inside the tree; the
    second pass unlinks while the counters go down with the files' own link counts. */
module OwnedTree {
  import opened Base

  type Ino = nat
  type Name = string

  /** `local` stands for the right owner on the right device. A link count of zero is a file that is gone. */
  datatype Inode = Inode(kind: Kind, nlink: nat, mode: nat, local: bool)

  type Inodes = map<Ino, Inode>

  /** Directories cannot be linked twice, so they form a tree; its leaves are references to inodes. */
  datatype Tree = Dir(ino: Ino, entries: seq<Entry>) | Leaf(ino: Ino)

  datatype Entry = Entry(name: Name, node: Tree)

  /** How often each file inode occurs in a tree. */
  function Links(tree: Tree): multiset<Ino> {
    match tree
    case Leaf(ino) => multiset{ino}
    case Dir(_, entries) => EntriesLinks(entries)
  }

  function EntriesLinks(entries: seq<Entry>): multiset<Ino> {
    if entries == [] then multiset{} else Links(entries[0].node) + EntriesLinks(entries[1..])
  }

  // ---- What may be removed ----

  /** The owner may list a directory and look up names in it. */
  predicate Readable(mode: nat) {
    mode / 64 % 8 in [5, 7]
  }

  /** The owner may also unlink names in it. */
  predicate Writable(mode: nat) {
    mode / 64 % 8 == 7
  }

  /** A directory the walk accepts: right owner and device, open to its owner, and in a sealed tree
      of one of two modes. */
  predicate Home(inodes: Inodes, sealed: bool, ino: Ino) {
    && ino in inodes && inodes[ino].local && inodes[ino].kind.Directory? && Readable(inodes[ino].mode)
    && (sealed ==> inodes[ino].mode in [MODE_0555, MODE_0700])
  }

  /** A tree the walk accepts. */
  predicate Accepts(inodes: Inodes, sealed: bool, reject: bool, tree: Tree)
    decreases tree
  {
    match tree
    case Leaf(ino) =>
      ino in inodes && inodes[ino].local && !inodes[ino].kind.Directory? && (reject ==> !inodes[ino].kind.Special?)
    case Dir(ino, entries) => Home(inodes, sealed, ino) && AcceptsAll(inodes, sealed, reject, entries)
  }

  predicate AcceptsAll(inodes: Inodes, sealed: bool, reject: bool, entries: seq<Entry>)
    decreases entries
  {
    entries == [] || (Accepts(inodes, sealed, reject, entries[0].node) && AcceptsAll(inodes, sealed, reject, entries[1..]))
  }

  /** Files other than regular ones have one link. */
  ghost predicate Single(inodes: Inodes, links: multiset<Ino>) {
    forall ino :: ino in links && ino in inodes && !inodes[ino].kind.Regular? ==> inodes[ino].nlink == 1
  }

  /** All links of every regular file are among `links`. */
  ghost predicate Contained(inodes: Inodes, links: multiset<Ino>) {
    forall ino :: ino in links && ino in inodes && inodes[ino].kind.Regular? ==> inodes[ino].nlink == links[ino]
  }

  ghost predicate Removable(inodes: Inodes, sealed: bool, reject: bool, tree: Tree) {
    Accepts(inodes, sealed, reject, tree) && Single(inodes, Links(tree)) && Contained(inodes, Links(tree))
  }

  /** Every directory with entries lets its owner unlink them. In a sealed tree the removal sees to
      that itself; in any other it changes no mode. */
  predicate Clearable(inodes: Inodes, tree: Tree)
    decreases tree
  {
    tree.Dir? ==>
      && (tree.entries != [] ==> tree.ino in inodes && Writable(inodes[tree.ino].mode))
      && ClearableAll(inodes, tree.entries)
  }

  predicate ClearableAll(inodes: Inodes, entries: seq<Entry>)
    decreases entries
  {
    entries == [] || (Clearable(inodes, entries[0].node) && ClearableAll(inodes, entries[1..]))
  }

  /** `left` is what is left of the entries of directory `ino` after a removal that was stopped: names
      are gone in their order, from the front, only out of directories that can be written, and
      what the last one that was begun has lost is lost in the same way. */
  ghost predicate Remains(inodes: Inodes, ino: Ino, left: seq<Entry>, entries: seq<Entry>)
    decreases entries
  {
    || left == entries
    || (entries != [] && ino in inodes && Writable(inodes[ino].mode) && Remains(inodes, ino, left, entries[1..]))
    || (entries != [] && left != [] && left[1..] == entries[1..] && Shrunk(inodes, left[0], entries[0]))
  }

  ghost predicate Shrunk(inodes: Inodes, left: Entry, entry: Entry)
    decreases entry
  {
    && left.name == entry.name && left.node.Dir? && entry.node.Dir? && left.node.ino == entry.node.ino
    && Remains(inodes, entry.node.ino, left.node.entries, entry.node.entries)
  }

  /** The kernel's own bookkeeping: a file has at least the links found in the tree. */
  ghost predicate Counted(inodes: Inodes, links: multiset<Ino>) {
    forall ino :: ino in links && ino in inodes ==> links[ino] <= inodes[ino].nlink < U64_LIMIT
  }

  // ---- The counters ----

  datatype Link = Link(identity: Inode, remaining: nat)

  /** `same_regular_binding`. */
  predicate SameBinding(a: Inode, b: Inode) {
    a.kind.Regular? && b.kind.Regular? && a.mode == b.mode && a.local == b.local
  }

  class OwnedRegularLinks {
    var entries: map<Ino, Link>

    constructor ()
      ensures entries == map[]
    {
      entries := map[];
    }

    method Record(ino: Ino, identity: Inode) returns (ok: bool)
      modifies this
      ensures ino !in old(entries) ==>
        ok && entries == if identity.nlink == 1 then old(entries) else old(entries)[ino := Link(identity, 1)]
      ensures ino in old(entries) ==>
        var link := old(entries)[ino];
        && ok == (SameBinding(identity, link.identity) && identity.nlink == link.identity.nlink
                  && link.remaining + 1 < U64_LIMIT)
        && entries == if ok then old(entries)[ino := link.(remaining := link.remaining + 1)] else old(entries)
    {
      if ino !in entries {
        if identity.nlink != 1 {
          entries := entries[ino := Link(identity, 1)];
        }
        return true;
      }
      var link := entries[ino];
      if !SameBinding(identity, link.identity) || identity.nlink != link.identity.nlink {
        return false;
      }
      if U64_LIMIT <= link.remaining + 1 {
        return false;
      }
      entries := entries[ino := link.(remaining := link.remaining + 1)];
      ok := true;
    }

    predicate FullyContained()
      reads this
    {
      forall ino :: ino in entries ==> entries[ino].identity.nlink == entries[ino].remaining
    }

    method TakeForCleanup(ino: Ino, identity: Inode) returns (ok: bool)
      modifies this
      ensures ino !in old(entries) ==> ok == (identity.nlink == 1) && entries == old(entries)
      ensures ino in old(entries) ==>
        var link := old(entries)[ino];
        && ok == (SameBinding(identity, link.identity) && identity.nlink == link.remaining && 0 < link.remaining)
        && entries == if ok then old(entries)[ino := link.(remaining := link.remaining - 1)] else old(entries)
    {
      if ino !in entries {
        return identity.nlink == 1;
      }
      var link := entries[ino];
      if !SameBinding(identity, link.identity) || identity.nlink != link.remaining || link.remaining == 0 {
        return false;
      }
      entries := entries[ino := link.(remaining := link.remaining - 1)];
      ok := true;
    }

    predicate Drained()
      reads this
    {
      forall ino :: ino in entries ==> entries[ino].remaining == 0
    }
  }

  // ---- The volume ----

  class Volume {
    var inodes: Inodes
    /** On a calm volume no system call fails. */
    const calm: bool

    constructor (inodes: Inodes, calm: bool)
      ensures this.inodes == inodes && this.calm == calm
    {
      this.inodes, this.calm := inodes, calm;
    }

    method Call() returns (ok: bool)
      ensures calm ==> ok
    {
      ok := calm;
      if !calm {
        ok := *;
      }
    }

    /** The counters after the files in `seen` have been recorded. */
    ghost predicate Recorded(links: OwnedRegularLinks, seen: multiset<Ino>)
      reads this, links
    {
      && (forall ino :: ino in seen && ino in inodes && inodes[ino].kind.Regular? && inodes[ino].nlink != 1 ==> ino in links.entries)
      && (forall ino :: ino in links.entries ==>
          && ino in inodes && inodes[ino].kind.Regular? && inodes[ino].nlink != 1
          && links.entries[ino] == Link(inodes[ino], seen[ino]) && 0 < seen[ino])
    }

    /** `preflight_owned_tree`: changes nothing but the counters. */
    method Preflight(tree: Tree, sealed: bool, reject: bool, links: OwnedRegularLinks, ghost seen: multiset<Ino>)
      returns (ok: bool)
      requires Counted(inodes, seen + Links(tree)) && Recorded(links, seen)
      modifies links
      ensures ok ==> Accepts(inodes, sealed, reject, tree) && Single(inodes, Links(tree))
      ensures ok ==> Recorded(links, seen + Links(tree))
      ensures calm && Accepts(inodes, sealed, reject, tree) && Single(inodes, Links(tree)) ==> ok
      decreases tree
    {
      ok := Call();
      if !ok || tree.ino !in inodes || !inodes[tree.ino].local {
        return false;
      }
      match tree {
        case Leaf(ino) =>
          ok := PreflightLeaf(ino, reject, links, seen);
        case Dir(ino, entries) =>
          if !Home(inodes, sealed, ino) {
            return false;
          }
          ok := PreflightEntries(entries, sealed, reject, links, seen);
      }
    }

    method PreflightLeaf(ino: Ino, reject: bool, links: OwnedRegularLinks, ghost seen: multiset<Ino>) returns (ok: bool)
      requires ino in inodes && Counted(inodes, seen + multiset{ino}) && Recorded(links, seen)
      modifies links
      ensures ok ==> !inodes[ino].kind.Directory? && (reject ==> !inodes[ino].kind.Special?)
      ensures ok ==> Single(inodes, multiset{ino}) && Recorded(links, seen + multiset{ino})
      ensures !inodes[ino].kind.Directory? && (reject ==> !inodes[ino].kind.Special?) && Single(inodes, multiset{ino}) ==> ok
    {
      var identity := inodes[ino];
      assert (seen + multiset{ino})[ino] == seen[ino] + 1;
      match identity.kind {
        case Directory =>
          ok := false;
        case Regular =>
          ok := links.Record(ino, identity);
        case Symlink =>
          ok := identity.nlink == 1;
        case Special =>
          ok := !reject && identity.nlink == 1;
      }
      assert Single(inodes, multiset{ino}) ==> identity.kind.Regular? || identity.nlink == 1 by {
        assert ino in multiset{ino};
      }
    }

    method PreflightEntries(entries: seq<Entry>, sealed: bool, reject: bool, links: OwnedRegularLinks, ghost seen: multiset<Ino>)
      returns (ok: bool)
      requires Counted(inodes, seen + EntriesLinks(entries)) && Recorded(links, seen)
      modifies links
      ensures ok ==> AcceptsAll(inodes, sealed, reject, entries) && Single(inodes, EntriesLinks(entries))
      ensures ok ==> Recorded(links, seen + EntriesLinks(entries))
      ensures calm && AcceptsAll(inodes, sealed, reject, entries) && Single(inodes, EntriesLinks(entries)) ==> ok
      decreases entries
    {
      if entries == [] {
        assert seen + EntriesLinks(entries) == seen;
        return true;
      }
      var node := entries[0].node;
      ghost var rest := EntriesLinks(entries[1..]);
      assert seen + EntriesLinks(entries) == seen + Links(node) + rest;
      CountedPart(inodes, seen + Links(node), rest);
      ok := Preflight(node, sealed, reject, links, seen);
      if !ok {
        return;
      }
      ok := PreflightEntries(entries[1..], sealed, reject, links, seen + Links(node));
    }

    // ---- The second phase ----

    /** `prepare_sealed_cleanup_directory`: a read-only directory becomes private before anything in
        it goes. */
    method PrepareDirectory(ino: Ino) returns (ok: bool)
      requires ino in inodes && inodes[ino].mode in [MODE_0555, MODE_0700]
      modifies this`inodes
      ensures ok ==> ino in inodes && inodes[ino].mode == MODE_0700
      ensures calm ==> ok
      ensures inodes == old(inodes) || inodes == old(inodes)[ino := old(inodes)[ino].(mode := MODE_0700)]
    {
      ok := Call();
      if !ok {
        return;
      }
      if inodes[ino].mode == MODE_0555 {
        inodes := inodes[ino := inodes[ino].(mode := MODE_0700)];
        ok := Call();
      }
    }

    /** One file of directory `parent`: its counter goes down, and then its link. */
    method RemoveLeaf(parent: Ino, ino: Ino, reject: bool, links: OwnedRegularLinks,
                      ghost files: set<Ino>, ghost total: multiset<Ino>)
      returns (ok: bool)
      requires Alive(inodes, files, total) && Counting(inodes, links.entries, total) && ino in total
      requires parent in inodes && (reject ==> !inodes[ino].kind.Special?)
      modifies this`inodes, links
      ensures ok ==> inodes == Unlinked(old(inodes), ino)
      ensures ok ==> Counting(inodes, links.entries, total - multiset{ino}) && Alive(inodes, files, total - multiset{ino})
      ensures !ok ==> inodes == old(inodes)
      ensures ok ==> Writable(old(inodes)[parent].mode)
      ensures calm ==> (ok <==> Writable(old(inodes)[parent].mode))
    {
      var identity := inodes[ino];
      ok := Call();
      if !ok {
        return;
      }
      if identity.kind.Regular? {
        ok := links.TakeForCleanup(ino, identity);
      } else {
        ok := identity.nlink == 1 && (identity.kind.Symlink? || !reject);
      }
      if !ok {
        return;
      }
      ok := Call();
      ok := ok && Writable(inodes[parent].mode);
      if ok {
        inodes := Unlinked(inodes, ino);
      }
    }

    /** `remove_owned_children`. `outside` are the links in the rest of the tree. Wherever it
        stops, what is left of the directory is `rest`, and every file in what is left of the tree
        has all its links there. */
    method RemoveChildren(ino: Ino, entries: seq<Entry>, sealed: bool, reject: bool, links: OwnedRegularLinks,
                          ghost files: set<Ino>, ghost outside: multiset<Ino>)
      returns (ok: bool, rest: seq<Entry>)
      requires Alive(inodes, files, EntriesLinks(entries) + outside) && Counting(inodes, links.entries, EntriesLinks(entries) + outside)
      requires Home(inodes, sealed, ino) && AcceptsAll(inodes, sealed, reject, entries)
      modifies this`inodes, links
      ensures Alive(inodes, files, EntriesLinks(rest) + outside)
      ensures Home(inodes, sealed, ino) && AcceptsAll(inodes, sealed, reject, rest)
      ensures ok ==> rest == [] && Counting(inodes, links.entries, outside)
      ensures !sealed ==> Clearable(inodes, Dir(ino, rest)) == Clearable(old(inodes), Dir(ino, entries))
      ensures calm ==> (ok <==> sealed || Clearable(old(inodes), Dir(ino, entries)))
      ensures Remains(inodes, ino, rest, entries)
      ensures Kept(old(inodes), inodes, EntriesLinks(entries), sealed)
      ensures sealed && ino in inodes && inodes[ino].mode != MODE_0700 ==> !ok && inodes == old(inodes) && rest == entries
      decreases entries, 1
    {
      hide Home, AcceptsAll, Alive, Counting, Kept, EntriesLinks, Clearable, Remains, Writable;
      ghost var before := inodes;
      ghost var total := EntriesLinks(entries) + outside;
      rest := entries;
      RemainsAll(inodes, ino, entries);
      KeptSelf(inodes, EntriesLinks(entries), sealed);
      if sealed {
        HomeModes(inodes, ino);
        ok := PrepareDirectory(ino);
        Prepared(before, inodes, ino, reject, entries, files, total, links.entries);
        RemainsAll(inodes, ino, entries);
        if !ok {
          return;
        }
      }
      var i := 0;
      while i < |entries|
        invariant i <= |entries| && rest == entries[i..]
        invariant Alive(inodes, files, EntriesLinks(rest) + outside) && Counting(inodes, links.entries, EntriesLinks(rest) + outside)
        invariant Home(inodes, sealed, ino) && AcceptsAll(inodes, sealed, reject, rest)
        invariant Kept(before, inodes, EntriesLinks(entries), sealed)
        invariant sealed ==> ino in inodes && inodes[ino].mode == MODE_0700
        invariant !sealed ==> Clearable(inodes, Dir(ino, rest)) == Clearable(before, Dir(ino, entries))
        invariant 0 < i ==> ino in inodes && Writable(inodes[ino].mode)
      {
        ghost var middle := inodes;
        var left;
        HomeIn(inodes, sealed, ino);
        ok, left := RemoveEntry(ino, entries, i, sealed, reject, links, files, outside);
        if !sealed {
          ClearableKept(middle, inodes, Links(entries[i].node), Dir(ino, entries[i + 1..]));
        }
        ClearableSplit(middle, ino, [entries[i]], entries[i + 1..]);
        ClearableSplit(inodes, ino, left, entries[i + 1..]);
        assert [entries[i]] + entries[i + 1..] == entries[i..];
        KeptAgain(before, middle, inodes, entries, i, sealed);
        HomeKept(middle, inodes, Links(entries[i].node), sealed, ino);
        PrivateKept(middle, inodes, Links(entries[i].node), sealed, ino);
        rest := left + entries[i + 1..];
        if !ok {
          KeptModes(middle, inodes, Links(entries[i].node), sealed, ino);
          PrivateIsWritable();
          RemainsFrom(inodes, ino, left[0], entries, i);
          assert [left[0]] == left;
          return;
        }
        i := i + 1;
      }
      assert rest == [];
      RemainsNothing(inodes, ino, entries);
      ClearableEmpty(inodes, ino);
      NoLinks(outside);
      ok := Call();
    }

    /** One entry of a directory. `left` is what is left of it when a step fails. */
    method RemoveEntry(parent: Ino, entries: seq<Entry>, i: nat, sealed: bool, reject: bool, links: OwnedRegularLinks,
                       ghost files: set<Ino>, ghost outside: multiset<Ino>)
      returns (ok: bool, left: seq<Entry>)
      requires i < |entries| && AcceptsAll(inodes, sealed, reject, entries[i..])
      requires parent in inodes && (sealed ==> inodes[parent].mode == MODE_0700)
      requires Alive(inodes, files, EntriesLinks(entries[i..]) + outside)
      requires Counting(inodes, links.entries, EntriesLinks(entries[i..]) + outside)
      modifies this`inodes, links
      ensures AcceptsAll(inodes, sealed, reject, left + entries[i + 1..])
      ensures Alive(inodes, files, EntriesLinks(left + entries[i + 1..]) + outside)
      ensures ok ==> left == [] && Counting(inodes, links.entries, EntriesLinks(entries[i + 1..]) + outside)
      ensures ok ==> parent in inodes && Writable(inodes[parent].mode)
      ensures !ok ==> |left| == 1 && (left[0] == entries[i] || Shrunk(inodes, left[0], entries[i]))
      ensures !sealed ==> Clearable(inodes, Dir(parent, left)) == Clearable(old(inodes), Dir(parent, [entries[i]]))
      ensures calm ==> (ok <==> sealed || Clearable(old(inodes), Dir(parent, [entries[i]])))
      ensures Kept(old(inodes), inodes, Links(entries[i].node), sealed)
      decreases entries, 0
    {
      hide Home, AcceptsAll, Alive, Counting, Kept, EntriesLinks, Clearable, Remains, Writable;
      var node := entries[i].node;
      var tail := entries[i + 1..];
      ghost var before, others := inodes, EntriesLinks(tail) + outside;
      assert entries[i..] == [entries[i]] + tail;
      Split(inodes, sealed, reject, entries[i], tail, outside);
      KeptSelf(before, Links(node), sealed);
      PrivateIsWritable();
      ClearableOne(before, parent, entries[i]);
      ClearableEmpty(before, parent);
      match node {
        case Leaf(ino) =>
          ok := RemoveLeaf(parent, ino, reject, links, files, Links(node) + others);
          left := if ok then [] else [entries[i]];
          assert Links(node) + others - multiset{ino} == others;
          UnlinkedKept(before, ino, sealed);
          ClearableLeaf(before, ino);
          KeptModes(before, inodes, Links(node), sealed, parent);
          ClearableEmpty(inodes, parent);
          AcceptsAllKept(before, inodes, Links(node), sealed, reject, tail);
          assert [] + tail == tail;
        case Dir(ino, children) =>
          left := [entries[i]];
          ok := Call();
          if !ok {
            return;
          }
          var below;
          ok, below := RemoveChildren(ino, children, sealed, reject, links, files, others);
          AcceptsAllKept(before, inodes, Links(node), sealed, reject, tail);
          left := [Entry(entries[i].name, Dir(ino, below))];
          KeptModes(before, inodes, Links(node), sealed, parent);
          ClearableOne(inodes, parent, left[0]);
          Split(inodes, sealed, reject, left[0], tail, outside);
          if !ok {
            return;
          }
          ok := Call();
          ok := ok && Writable(inodes[parent].mode);
          if ok {
            left := [];
            ClearableEmpty(inodes, ino);
            ClearableEmpty(inodes, parent);
            NoLinks(others);
            assert [] + tail == tail;
          }
      }
    }

    /** The root is the directory its record names, in a mode that fits the recorded one. */
    predicate Bound(tree: Tree, rootMode: nat)
      reads this
    {
      && tree.Dir? && tree.ino in inodes && inodes[tree.ino].local && inodes[tree.ino].kind.Directory?
      && ((rootMode == MODE_0700 && inodes[tree.ino].mode == MODE_0700)
          || (rootMode == MODE_0555 && inodes[tree.ino].mode in [MODE_0555, MODE_0700]))
    }

    /** The second pass over an admitted tree. */
    method RemoveAdmitted(tree: Tree, rootMode: nat, reject: bool, links: OwnedRegularLinks) returns (ok: bool, left: Tree)
      requires tree.Dir? && Counted(inodes, Links(tree)) && Bound(tree, rootMode)
      requires Removable(inodes, rootMode == MODE_0555, reject, tree)
      requires Alive(inodes, Files(tree), Links(tree)) && Counting(inodes, links.entries, Links(tree))
      modifies this`inodes, links
      ensures Bound(left, rootMode) && Removable(inodes, rootMode == MODE_0555, reject, left)
      ensures left.Dir? && left.ino == tree.ino && Counted(inodes, Links(left))
      ensures Kept(old(inodes), inodes, Links(tree), rootMode == MODE_0555)
      ensures Remains(inodes, tree.ino, left.entries, tree.entries)
      ensures rootMode != MODE_0555 ==> Clearable(inodes, left) == Clearable(old(inodes), tree)
      ensures calm ==> (ok <==> rootMode == MODE_0555 || Clearable(old(inodes), tree))
      ensures ok ==> Gone(inodes, tree) && links.Drained() && left.entries == []
      ensures rootMode == MODE_0555 && tree.ino in inodes && inodes[tree.ino].mode == MODE_0555 ==>
        !ok && inodes == old(inodes) && left == tree
    {
      var sealed := rootMode == MODE_0555;
      ghost var files := Files(tree);
      assert EntriesLinks(tree.entries) + multiset{} == Links(tree);
      var rest;
      hide Remains, Clearable, Writable;
      ok, rest := RemoveChildren(tree.ino, tree.entries, sealed, reject, links, files, multiset{});
      left := Dir(tree.ino, rest);
      assert EntriesLinks(rest) + multiset{} == Links(left);
      StillRemovable(old(inodes), inodes, sealed, reject, tree, left, files);
      hide *;
      if ok {
        NothingLeft(inodes, links.entries, tree);
      }
    }

    /** `remove_owned_tree`. On a calm volume it succeeds exactly when every regular file has all its
        links in the tree, every other file has one, and in a tree that is not sealed every
        directory with entries is writable. A tree that it does not let in is left exactly as it
        was. One that it lets in loses entries from the front, in the order of their names; when it
        stops half way, for a system call that fails or for a directory that cannot be written,
        what is left is again a tree that it lets in, and as writable as before. As long as the
        root of a sealed tree is still read-only nothing has been removed or changed. */
    method RemoveOwnedTree(tree: Tree, rootMode: nat, reject: bool) returns (ok: bool, left: Option<Tree>)
      requires tree.Dir? && Counted(inodes, Links(tree))
      modifies this`inodes
      ensures calm ==> (ok <==> Deletable(old(inodes), tree, rootMode, reject))
      ensures !(old(Bound(tree, rootMode)) && Removable(old(inodes), rootMode == MODE_0555, reject, tree)) ==>
        !ok && inodes == old(inodes) && left == Some(tree)
      ensures ok ==> left.None?
      ensures left.None? ==> Gone(inodes, tree) && (rootMode == MODE_0555 || Clearable(old(inodes), tree))
      ensures left.Some? ==> left.value.Dir? && left.value.ino == tree.ino && Counted(inodes, Links(left.value))
      ensures left.Some? && old(Bound(tree, rootMode)) && Removable(old(inodes), rootMode == MODE_0555, reject, tree) ==>
        Bound(left.value, rootMode) && Removable(inodes, rootMode == MODE_0555, reject, left.value)
      ensures left.Some? ==> Remains(inodes, tree.ino, left.value.entries, tree.entries)
      ensures left.Some? && rootMode != MODE_0555 ==> Clearable(inodes, left.value) == Clearable(old(inodes), tree)
      ensures Kept(old(inodes), inodes, Links(tree), rootMode == MODE_0555)
      ensures left.Some? && rootMode == MODE_0555 && tree.ino in inodes && inodes[tree.ino].mode == MODE_0555 ==>
        inodes == old(inodes) && left == Some(tree)
    {
      hide Removable, Counted, Alive, Counting, Kept, Remains, Clearable, Gone, Links, Deletable;
      DeletableByStat(this, tree, rootMode, reject);
      var sealed := rootMode == MODE_0555;
      KeptSelf(inodes, Links(tree), sealed);
      RemainsAll(inodes, tree.ino, tree.entries);
      left := Some(tree);
      ok := Call();
      if !ok || !Bound(tree, rootMode) {
        return false, left;
      }
      var links;
      ok, links := Admit(tree, sealed, reject);
      if !ok {
        return;
      }
      var rest;
      ok, rest := RemoveAdmitted(tree, rootMode, reject, links);
      left := Some(rest);
      ClearableEmpty(inodes, tree.ino);
      if !ok {
        return;
      }
      ok := links.Drained();
      if !ok {
        return;
      }
      ok := Call();
      if !ok {
        return;
      }
      left := None;
      ok := Call();
    }

    /** Any number of removals of a sealed tree, each of which may fail anywhere: at the end of each
        the root is gone, or private, or read-only with everything in it exactly as it was sealed,
        so a check of the receipt never rejects what an earlier run left. */
    method RemoveAgain(tree: Tree, reject: bool, runs: nat) returns (left: Option<Tree>)
      requires tree.Dir? && Counted(inodes, Links(tree))
      requires Bound(tree, MODE_0555) && Removable(inodes, true, reject, tree)
      modifies this`inodes
      ensures left.Some? ==> Bound(left.value, MODE_0555) && Removable(inodes, true, reject, left.value)
      ensures left.Some? && inodes[left.value.ino].mode == MODE_0555 ==> inodes == old(inodes) && left == Some(tree)
      ensures calm && 0 < runs ==> left.None?
    {
      left := Some(tree);
      var i := 0;
      while i < runs && left.Some?
        invariant left.Some? ==> Bound(left.value, MODE_0555) && Removable(inodes, true, reject, left.value)
        invariant left.Some? ==> Counted(inodes, Links(left.value))
        invariant left.Some? && inodes[left.value.ino].mode == MODE_0555 ==> inodes == old(inodes) && left == Some(tree)
        invariant left.Some? && inodes[left.value.ino].mode != MODE_0555 ==> inodes[left.value.ino].mode == MODE_0700
        invariant calm && 0 < i ==> left.None?
        decreases runs - i
      {
        ghost var middle, present := inodes, left.value;
        DeletableByStat(this, left.value, MODE_0555, reject);
        hide Deletable;
        var _, rest := RemoveOwnedTree(left.value, MODE_0555, reject);
        PrivateKept(middle, inodes, Links(present), true, present.ino);
        left := rest;
        i := i + 1;
      }
    }

    /** A directory with entries that its owner cannot write keeps an unsealed tree alive for ever:
        any number of removals, by the remove command or by gc and with or without failing steps,
        end with the tree still there, still let in by the first pass, and still blocked. */
    method RemoveBlocked(tree: Tree, reject: nat -> bool, runs: nat) returns (left: Tree, oks: seq<bool>)
      requires tree.Dir? && Counted(inodes, Links(tree))
      requires Bound(tree, MODE_0700) && Removable(inodes, false, false, tree) && !Clearable(inodes, tree)
      modifies this`inodes
      ensures Bound(left, MODE_0700) && Removable(inodes, false, false, left) && !Clearable(inodes, left)
      ensures |oks| == runs && forall i :: 0 <= i < runs ==> !oks[i]
    {
      hide Removable, Counted, Alive, Counting, Kept, Remains, Clearable, Gone, Links;
      left, oks := tree, [];
      for i := 0 to runs
        invariant left.Dir? && Counted(inodes, Links(left)) && Bound(left, MODE_0700)
        invariant Removable(inodes, false, false, left) && !Clearable(inodes, left)
        invariant |oks| == i && forall k :: 0 <= k < i ==> !oks[k]
      {
        GcRejectsSpecial(inodes, false, left);
        var ok, rest := RemoveOwnedTree(left, MODE_0700, reject(i));
        left, oks := rest.value, oks + [ok];
        GcRejectsSpecial(inodes, false, left);
      }
    }

    /** The first pass and its verdict: nothing is changed, and the counters are ready. */
    method Admit(tree: Tree, sealed: bool, reject: bool) returns (ok: bool, links: OwnedRegularLinks)
      requires tree.Dir? && Counted(inodes, Links(tree))
      ensures fresh(links)
      ensures ok ==> Removable(inodes, sealed, reject, tree)
      ensures calm ==> (ok <==> Removable(inodes, sealed, reject, tree))
      ensures ok ==> Alive(inodes, Files(tree), Links(tree)) && Counting(inodes, links.entries, Links(tree))
    {
      links := new OwnedRegularLinks();
      ok := Preflight(tree, sealed, reject, links, multiset{});
      assert multiset{} + Links(tree) == Links(tree);
      if !ok {
        return;
      }
      ContainedByCounters(inodes, links.entries, Links(tree));
      if !links.FullyContained() {
        return false, links;
      }
      StartCounting(inodes, links.entries, sealed, reject, tree, Files(tree));
    }
  }

  /** No file of the tree has a link any more. */
  ghost predicate Gone(inodes: Inodes, tree: Tree) {
    forall ino :: ino in Links(tree) ==> ino in inodes && inodes[ino].nlink == 0
  }

  function Files(tree: Tree): set<Ino> {
    set ino | ino in Links(tree)
  }

  /** When the second pass is through, every file of the tree is gone and every counter is empty. */
  lemma NothingLeft(inodes: Inodes, counters: map<Ino, Link>, tree: Tree)
    requires Alive(inodes, Files(tree), multiset{}) && Counting(inodes, counters, multiset{})
    ensures Gone(inodes, tree)
    ensures forall ino :: ino in counters ==> counters[ino].remaining == 0
  {
    forall ino | ino in Links(tree)
      ensures ino in inodes && inodes[ino].nlink == 0
    {
      assert ino in Files(tree);
    }
  }

  /** What the counters say about containment, when every file has been recorded. */
  lemma ContainedByCounters(inodes: Inodes, counters: map<Ino, Link>, links: multiset<Ino>)
    requires Counted(inodes, links)
    requires forall ino :: ino in links && ino in inodes && inodes[ino].kind.Regular? && inodes[ino].nlink != 1 ==> ino in counters
    requires forall ino :: ino in counters ==>
      ino in inodes && inodes[ino].kind.Regular? && counters[ino] == Link(inodes[ino], links[ino]) && 0 < links[ino]
    ensures Contained(inodes, links) <==> forall ino :: ino in counters ==> counters[ino].identity.nlink == counters[ino].remaining
  {
    if Contained(inodes, links) {
      forall ino | ino in counters
        ensures counters[ino].identity.nlink == counters[ino].remaining
      {
        assert ino in links;
      }
    }
  }

  lemma {:induction false} LinksAccepted(inodes: Inodes, sealed: bool, reject: bool, tree: Tree, ino: Ino)
    requires Accepts(inodes, sealed, reject, tree) && ino in Links(tree)
    ensures ino in inodes && !inodes[ino].kind.Directory?
    decreases tree
  {
    if tree.Dir? {
      EntriesLinksAccepted(inodes, sealed, reject, tree.entries, ino);
    }
  }

  lemma {:induction false} EntriesLinksAccepted(inodes: Inodes, sealed: bool, reject: bool, entries: seq<Entry>, ino: Ino)
    requires AcceptsAll(inodes, sealed, reject, entries) && ino in EntriesLinks(entries)
    ensures ino in inodes && !inodes[ino].kind.Directory?
    decreases entries
  {
    if ino in Links(entries[0].node) {
      LinksAccepted(inodes, sealed, reject, entries[0].node, ino);
    } else {
      EntriesLinksAccepted(inodes, sealed, reject, entries[1..], ino);
    }
  }

  /** After the first pass, counters and link counts agree everywhere. */
  lemma StartCounting(inodes: Inodes, counters: map<Ino, Link>, sealed: bool, reject: bool, tree: Tree, files: set<Ino>)
    requires Removable(inodes, sealed, reject, tree) && Counted(inodes, Links(tree))
    requires forall ino :: ino in Links(tree) && ino in inodes && inodes[ino].kind.Regular? && inodes[ino].nlink != 1 ==> ino in counters
    requires forall ino :: ino in counters ==>
      && ino in inodes && inodes[ino].kind.Regular?
      && counters[ino] == Link(inodes[ino], Links(tree)[ino]) && 0 < Links(tree)[ino]
    requires forall ino :: ino in files <==> ino in Links(tree)
    ensures Alive(inodes, files, Links(tree)) && Counting(inodes, counters, Links(tree))
  {
    forall ino | ino in Links(tree)
      ensures ino in inodes && inodes[ino].nlink == Links(tree)[ino] && !inodes[ino].kind.Directory?
    {
      LinksAccepted(inodes, sealed, reject, tree, ino);
    }
  }

  lemma StillRemovable(before: Inodes, after: Inodes, sealed: bool, reject: bool, tree: Tree, left: Tree, files: set<Ino>)
    requires Removable(before, sealed, reject, tree) && Counted(before, Links(tree)) && Kept(before, after, Links(tree), sealed)
    requires forall ino :: ino in files <==> ino in Links(tree)
    requires Accepts(after, sealed, reject, left) && Alive(after, files, Links(left))
    ensures Removable(after, sealed, reject, left) && Counted(after, Links(left))
  {
  }

  lemma Split(inodes: Inodes, sealed: bool, reject: bool, entry: Entry, tail: seq<Entry>, outside: multiset<Ino>)
    ensures EntriesLinks([entry] + tail) + outside == Links(entry.node) + (EntriesLinks(tail) + outside)
    ensures AcceptsAll(inodes, sealed, reject, [entry] + tail)
      <==> Accepts(inodes, sealed, reject, entry.node) && AcceptsAll(inodes, sealed, reject, tail)
  {
    assert ([entry] + tail)[1..] == tail;
  }

  lemma UnlinkedKept(inodes: Inodes, ino: Ino, sealed: bool)
    ensures Kept(inodes, Unlinked(inodes, ino), multiset{ino}, sealed)
  {
  }

  lemma KeptSelf(inodes: Inodes, links: multiset<Ino>, sealed: bool)
    ensures Kept(inodes, inodes, links, sealed)
  {
  }

  lemma NoLinks(outside: multiset<Ino>)
    ensures EntriesLinks([]) + outside == outside
  {
  }

  lemma HomeModes(inodes: Inodes, ino: Ino)
    requires Home(inodes, true, ino)
    ensures ino in inodes && inodes[ino].mode in [MODE_0555, MODE_0700]
  {
  }

  /** A directory that has become private stays private. */
  lemma PrivateKept(before: Inodes, after: Inodes, links: multiset<Ino>, sealed: bool, ino: Ino)
    requires Kept(before, after, links, sealed)
    ensures ino in before && before[ino].mode == MODE_0700 ==> ino in after && after[ino].mode == MODE_0700
  {
  }

  lemma HomeKept(before: Inodes, after: Inodes, links: multiset<Ino>, sealed: bool, ino: Ino)
    requires Home(before, sealed, ino) && Kept(before, after, links, sealed)
    ensures Home(after, sealed, ino)
  {
  }

  lemma KeptModes(before: Inodes, after: Inodes, links: multiset<Ino>, sealed: bool, ino: Ino)
    requires Kept(before, after, links, sealed) && ino in before
    ensures ino in after
    ensures after[ino].mode == before[ino].mode || (sealed && after[ino].mode == MODE_0700)
  {
  }

  lemma HomeIn(inodes: Inodes, sealed: bool, ino: Ino)
    requires Home(inodes, sealed, ino)
    ensures ino in inodes
  {
  }

  lemma PrivateIsWritable()
    ensures Writable(MODE_0700)
  {
  }

  // ---- What is left of a directory ----

  lemma ClearableEmpty(inodes: Inodes, ino: Ino)
    ensures Clearable(inodes, Dir(ino, []))
  {
  }

  lemma ClearableLeaf(inodes: Inodes, ino: Ino)
    ensures Clearable(inodes, Leaf(ino))
  {
  }

  lemma ClearableOne(inodes: Inodes, ino: Ino, entry: Entry)
    ensures Clearable(inodes, Dir(ino, [entry])) <==> ino in inodes && Writable(inodes[ino].mode) && Clearable(inodes, entry.node)
  {
    assert [entry][1..] == [];
    assert ClearableAll(inodes, [entry]) == Clearable(inodes, entry.node);
  }

  lemma ClearableSplit(inodes: Inodes, ino: Ino, left: seq<Entry>, tail: seq<Entry>)
    requires |left| <= 1
    ensures Clearable(inodes, Dir(ino, left + tail)) <==> Clearable(inodes, Dir(ino, left)) && Clearable(inodes, Dir(ino, tail))
  {
    if left == [] {
      assert left + tail == tail;
    } else {
      assert (left + tail)[1..] == tail && left[1..] == [];
      assert ClearableAll(inodes, left) == Clearable(inodes, left[0].node);
    }
  }

  /** Outside sealed trees a removal does not change whether a tree can be emptied. */
  lemma {:induction false} ClearableKept(before: Inodes, after: Inodes, links: multiset<Ino>, tree: Tree)
    requires Kept(before, after, links, false)
    ensures Clearable(before, tree) == Clearable(after, tree)
    decreases tree
  {
    if tree.Dir? {
      ClearableAllKept(before, after, links, tree.entries);
    }
  }

  lemma {:induction false} ClearableAllKept(before: Inodes, after: Inodes, links: multiset<Ino>, entries: seq<Entry>)
    requires Kept(before, after, links, false)
    ensures ClearableAll(before, entries) == ClearableAll(after, entries)
    decreases entries
  {
    if entries != [] {
      ClearableKept(before, after, links, entries[0].node);
      ClearableAllKept(before, after, links, entries[1..]);
    }
  }

  lemma RemainsAll(inodes: Inodes, ino: Ino, entries: seq<Entry>)
    ensures Remains(inodes, ino, entries, entries)
  {
  }

  lemma {:induction false} RemainsFrom(inodes: Inodes, ino: Ino, first: Entry, entries: seq<Entry>, i: nat)
    requires i < |entries| && (first == entries[i] || Shrunk(inodes, first, entries[i]))
    requires 0 < i ==> ino in inodes && Writable(inodes[ino].mode)
    ensures Remains(inodes, ino, [first] + entries[i + 1..], entries)
    decreases i
  {
    hide Shrunk;
    if i == 0 {
      assert first == entries[0] ==> [first] + entries[1..] == entries;
    } else {
      RemainsFrom(inodes, ino, first, entries[1..], i - 1);
      assert entries[1..][i..] == entries[i + 1..];
    }
  }

  lemma {:induction false} RemainsNothing(inodes: Inodes, ino: Ino, entries: seq<Entry>)
    requires entries != [] ==> ino in inodes && Writable(inodes[ino].mode)
    ensures Remains(inodes, ino, [], entries)
  {
    if entries != [] {
      RemainsNothing(inodes, ino, entries[1..]);
    }
  }

  lemma CountedPart(inodes: Inodes, a: multiset<Ino>, b: multiset<Ino>)
    requires Counted(inodes, a + b)
    ensures Counted(inodes, a)
  {
    forall ino | ino in a && ino in inodes
      ensures a[ino] <= inodes[ino].nlink < U64_LIMIT
    {
      assert ino in a + b;
    }
  }

  /** Every file of the tree has exactly as many links as `total` counts, which is none for a file
      that is gone. */
  ghost predicate Alive(inodes: Inodes, files: set<Ino>, total: multiset<Ino>) {
    && (forall ino :: ino in total ==> ino in files)
    && (forall ino :: ino in files ==> ino in inodes && inodes[ino].nlink == total[ino] && !inodes[ino].kind.Directory?)
  }

  function Unlinked(inodes: Inodes, ino: Ino): Inodes {
    if ino in inodes && 0 < inodes[ino].nlink
    then inodes[ino := inodes[ino].(nlink := inodes[ino].nlink - 1)] else inodes
  }

  /** Only the files in `links` have lost links, and only directories of a sealed tree have
      changed their mode. */
  ghost predicate Kept(before: Inodes, after: Inodes, links: multiset<Ino>, sealed: bool) {
    && after.Keys == before.Keys
    && forall ino :: ino in before ==>
      && after[ino].kind == before[ino].kind && after[ino].local == before[ino].local
      && (after[ino].mode == before[ino].mode || (sealed && after[ino].mode == MODE_0700 && before[ino].kind.Directory?))
      && after[ino].nlink <= before[ino].nlink && (ino !in links ==> after[ino].nlink == before[ino].nlink)
  }

  /** Each counter equals the links its file still has, and a file without one has a single link. */
  ghost predicate Counting(inodes: Inodes, counters: map<Ino, Link>, total: multiset<Ino>) {
    && (forall ino :: ino in counters ==>
        ino in inodes && SameBinding(inodes[ino], counters[ino].identity) && counters[ino].remaining == total[ino])
    && (forall ino :: ino in total && ino in inodes && ino !in counters ==> inodes[ino].nlink == 1)
  }

  lemma Prepared(before: Inodes, after: Inodes, ino: Ino, reject: bool, entries: seq<Entry>, files: set<Ino>, total: multiset<Ino>,
                 counters: map<Ino, Link>)
    requires Accepts(before, true, reject, Dir(ino, entries)) && Alive(before, files, total) && Counting(before, counters, total)
    requires after == before || after == before[ino := before[ino].(mode := MODE_0700)]
    ensures Kept(before, after, EntriesLinks(entries), true) && Alive(after, files, total) && Counting(after, counters, total)
    ensures Accepts(after, true, reject, Dir(ino, entries))
  {
    AcceptsAllKept(before, after, EntriesLinks(entries), true, reject, entries);
  }

  lemma KeptAgain(before: Inodes, middle: Inodes, after: Inodes, entries: seq<Entry>, i: nat, sealed: bool)
    requires i < |entries|
    requires Kept(before, middle, EntriesLinks(entries), sealed) && Kept(middle, after, Links(entries[i].node), sealed)
    ensures Kept(before, after, EntriesLinks(entries), sealed)
  {
    EntryIn(entries, i);
  }

  lemma {:induction false} EntryIn(entries: seq<Entry>, i: nat)
    requires i < |entries|
    ensures Links(entries[i].node) <= EntriesLinks(entries)
  {
    if i > 0 {
      EntryIn(entries[1..], i - 1);
    }
  }

  lemma {:induction false} AcceptsKept(before: Inodes, after: Inodes, links: multiset<Ino>, sealed: bool, reject: bool, tree: Tree)
    requires Accepts(before, sealed, reject, tree) && Kept(before, after, links, sealed)
    ensures Accepts(after, sealed, reject, tree)
    decreases tree
  {
    if tree.Dir? {
      AcceptsAllKept(before, after, links, sealed, reject, tree.entries);
    }
  }

  lemma {:induction false} AcceptsAllKept(
    before: Inodes, after: Inodes, links: multiset<Ino>, sealed: bool, reject: bool, entries: seq<Entry>)
    requires AcceptsAll(before, sealed, reject, entries) && Kept(before, after, links, sealed)
    ensures AcceptsAll(after, sealed, reject, entries)
    decreases entries
  {
    if entries != [] {
      AcceptsKept(before, after, links, sealed, reject, entries[0].node);
      AcceptsAllKept(before, after, links, sealed, reject, entries[1..]);
    }
  }

  // ---- What may be removed, from `stat` alone ----

  /** The directories of a tree. */
  function Dirs(tree: Tree): set<Ino> {
    match tree
    case Leaf(_) => {}
    case Dir(ino, entries) => {ino} + EntriesDirs(entries)
  }

  function EntriesDirs(entries: seq<Entry>): set<Ino> {
    if entries == [] then {} else Dirs(entries[0].node) + EntriesDirs(entries[1..])
  }

  /** Those that are not empty. */
  function FilledDirs(tree: Tree): set<Ino> {
    match tree
    case Leaf(_) => {}
    case Dir(ino, entries) => (if entries == [] then {} else {ino}) + EntriesFilledDirs(entries)
  }

  function EntriesFilledDirs(entries: seq<Entry>): set<Ino> {
    if entries == [] then {} else FilledDirs(entries[0].node) + EntriesFilledDirs(entries[1..])
  }

  /** Every directory is the user's, on the volume, and open to its owner, which in a sealed tree
      means mode 0555 or 0700. */
  ghost predicate GoodDirs(inodes: Inodes, sealed: bool, dirs: set<Ino>) {
    forall ino :: ino in dirs ==>
      && ino in inodes && inodes[ino].local && inodes[ino].kind == Directory
      && (inodes[ino].mode / 0x40 % 8 == 5 || inodes[ino].mode / 0x40 % 8 == 7)
      && (sealed ==> inodes[ino].mode == 0x16D || inodes[ino].mode == 0x1C0)
  }

  /** Everything else is the user's and on the volume, and is a regular file, a symbolic link or,
      where these are let in, a special file. */
  ghost predicate GoodLeaves(inodes: Inodes, reject: bool, leaves: multiset<Ino>) {
    forall ino :: ino in leaves ==>
      && ino in inodes && inodes[ino].local
      && (inodes[ino].kind == Regular || inodes[ino].kind == Symlink || (inodes[ino].kind == Special && !reject))
  }

  lemma {:induction false} AcceptsByStat(inodes: Inodes, sealed: bool, reject: bool, tree: Tree)
    ensures Accepts(inodes, sealed, reject, tree) <==> GoodDirs(inodes, sealed, Dirs(tree)) && GoodLeaves(inodes, reject, Links(tree))
    decreases tree
  {
    match tree
    case Leaf(ino) =>
      assert ino in Links(tree);
    case Dir(ino, entries) =>
      AcceptsAllByStat(inodes, sealed, reject, entries);
      HomeIsGood(inodes, sealed, ino);
      hide GoodDirs, GoodLeaves, Home, AcceptsAll;
      GoodTogether(inodes, sealed, reject, {ino}, EntriesDirs(entries), multiset{}, EntriesLinks(entries));
  }

  lemma HomeIsGood(inodes: Inodes, sealed: bool, ino: Ino)
    ensures Home(inodes, sealed, ino) <==> GoodDirs(inodes, sealed, {ino})
  {
    assert ino in {ino};
  }

  lemma {:induction false} AcceptsAllByStat(inodes: Inodes, sealed: bool, reject: bool, entries: seq<Entry>)
    ensures AcceptsAll(inodes, sealed, reject, entries)
      <==> GoodDirs(inodes, sealed, EntriesDirs(entries)) && GoodLeaves(inodes, reject, EntriesLinks(entries))
    decreases entries
  {
    if entries != [] {
      AcceptsByStat(inodes, sealed, reject, entries[0].node);
      AcceptsAllByStat(inodes, sealed, reject, entries[1..]);
      GoodTogether(inodes, sealed, reject, Dirs(entries[0].node), EntriesDirs(entries[1..]),
                   Links(entries[0].node), EntriesLinks(entries[1..]));
      hide GoodDirs, GoodLeaves, Accepts, Dirs, Links;
    }
  }

  lemma GoodTogether(inodes: Inodes, sealed: bool, reject: bool, a: set<Ino>, b: set<Ino>, m: multiset<Ino>, n: multiset<Ino>)
    ensures GoodDirs(inodes, sealed, a + b) <==> GoodDirs(inodes, sealed, a) && GoodDirs(inodes, sealed, b)
    ensures GoodLeaves(inodes, reject, m + n) <==> GoodLeaves(inodes, reject, m) && GoodLeaves(inodes, reject, n)
  {
    assert forall ino :: ino in a + b <==> ino in a || ino in b;
    assert forall ino :: ino in m + n <==> ino in m || ino in n;
  }

  lemma {:induction false} ClearableByStat(inodes: Inodes, tree: Tree)
    ensures Clearable(inodes, tree) <==> forall ino :: ino in FilledDirs(tree) ==> ino in inodes && inodes[ino].mode / 0x40 % 8 == 7
    decreases tree
  {
    if tree.Dir? {
      ClearableAllByStat(inodes, tree.entries);
    }
  }

  lemma {:induction false} ClearableAllByStat(inodes: Inodes, entries: seq<Entry>)
    ensures ClearableAll(inodes, entries)
      <==> forall ino :: ino in EntriesFilledDirs(entries) ==> ino in inodes && inodes[ino].mode / 0x40 % 8 == 7
    decreases entries
  {
    if entries != [] {
      ClearableByStat(inodes, entries[0].node);
      ClearableAllByStat(inodes, entries[1..]);
    }
  }

  /** When a removal can succeed, in terms of kinds, owners, modes and link counts. The root is private
      or, where the record has it sealed, sealed or private; directories and leaves are good ones;
      every regular file has as many links as there are in the tree, and any other leaf has one;
      and in a tree that is not sealed all directories with entries can be written. */
  ghost predicate Deletable(inodes: Inodes, tree: Tree, rootMode: nat, reject: bool) {
    && tree.Dir? && GoodDirs(inodes, rootMode == 0x16D, Dirs(tree)) && GoodLeaves(inodes, reject, Links(tree))
    && (rootMode == 0x16D || (rootMode == 0x1C0 && tree.ino in inodes && inodes[tree.ino].mode == 0x1C0))
    && (forall ino :: ino in Links(tree) && ino in inodes ==>
        inodes[ino].nlink == if inodes[ino].kind == Regular then Links(tree)[ino] else 1)
    && (rootMode != 0x16D ==> forall ino :: ino in FilledDirs(tree) && ino in inodes ==> inodes[ino].mode / 0x40 % 8 == 7)
  }

  lemma DeletableByStat(volume: Volume, tree: Tree, rootMode: nat, reject: bool)
    requires tree.Dir?
    ensures Deletable(volume.inodes, tree, rootMode, reject) <==>
      && volume.Bound(tree, rootMode) && Removable(volume.inodes, rootMode == MODE_0555, reject, tree)
      && (rootMode == MODE_0555 || Clearable(volume.inodes, tree))
  {
    AcceptsByStat(volume.inodes, rootMode == MODE_0555, reject, tree);
    ClearableByStat(volume.inodes, tree);
    FilledIsDir(tree);
    assert tree.ino in Dirs(tree);
    hide Accepts, Clearable, Dirs, FilledDirs, Links;
  }

  lemma {:induction false} FilledIsDir(tree: Tree)
    ensures FilledDirs(tree) <= Dirs(tree)
    decreases tree
  {
    if tree.Dir? {
      EntriesFilledAreDirs(tree.entries);
    }
  }

  lemma {:induction false} EntriesFilledAreDirs(entries: seq<Entry>)
    ensures EntriesFilledDirs(entries) <= EntriesDirs(entries)
    decreases entries
  {
    if entries != [] {
      FilledIsDir(entries[0].node);
      EntriesFilledAreDirs(entries[1..]);
    }
  }

  // ---- Special files ----

  /** Whether a tree holds anything but directories, regular files and symbolic links. */
  ghost predicate HasSpecial(inodes: Inodes, tree: Tree) {
    exists ino :: ino in Links(tree) && ino in inodes && inodes[ino].kind.Special?
  }

  lemma {:induction false} AcceptsWithout(inodes: Inodes, sealed: bool, tree: Tree)
    requires Accepts(inodes, sealed, false, tree)
    ensures Accepts(inodes, sealed, true, tree) <==> forall ino :: ino in Links(tree) && ino in inodes ==> !inodes[ino].kind.Special?
    ensures forall ino :: ino in Links(tree) ==> ino in inodes
    decreases tree
  {
    if tree.Dir? {
      AcceptsAllWithout(inodes, sealed, tree.entries);
    } else {
      assert tree.ino in Links(tree);
    }
  }

  lemma {:induction false} AcceptsAllWithout(inodes: Inodes, sealed: bool, entries: seq<Entry>)
    requires AcceptsAll(inodes, sealed, false, entries)
    ensures AcceptsAll(inodes, sealed, true, entries) <==> forall ino :: ino in EntriesLinks(entries) && ino in inodes ==> !inodes[ino].kind.Special?
    ensures forall ino :: ino in EntriesLinks(entries) ==> ino in inodes
    decreases entries
  {
    if entries != [] {
      AcceptsWithout(inodes, sealed, entries[0].node);
      AcceptsAllWithout(inodes, sealed, entries[1..]);
      assert forall ino :: ino in EntriesLinks(entries) <==> ino in Links(entries[0].node) || ino in EntriesLinks(entries[1..]);
    }
  }

  lemma {:induction false} AcceptsAnyway(inodes: Inodes, sealed: bool, tree: Tree)
    requires Accepts(inodes, sealed, true, tree)
    ensures Accepts(inodes, sealed, false, tree)
    decreases tree
  {
    if tree.Dir? {
      AcceptsAllAnyway(inodes, sealed, tree.entries);
    }
  }

  lemma {:induction false} AcceptsAllAnyway(inodes: Inodes, sealed: bool, entries: seq<Entry>)
    requires AcceptsAll(inodes, sealed, true, entries)
    ensures AcceptsAll(inodes, sealed, false, entries)
    decreases entries
  {
    if entries != [] {
      AcceptsAnyway(inodes, sealed, entries[0].node);
      AcceptsAllAnyway(inodes, sealed, entries[1..]);
    }
  }

  /** What gc removes and what the remove command removes differ in special files only. */
  lemma GcRejectsSpecial(inodes: Inodes, sealed: bool, tree: Tree)
    ensures Removable(inodes, sealed, true, tree) <==> Removable(inodes, sealed, false, tree) && !HasSpecial(inodes, tree)
  {
    if Accepts(inodes, sealed, true, tree) {
      AcceptsAnyway(inodes, sealed, tree);
    }
    if Accepts(inodes, sealed, false, tree) {
      AcceptsWithout(inodes, sealed, tree);
    }
  }
}

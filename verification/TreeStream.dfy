/** The canonical tree walk that seals, verifies and clones a template (storage.rs): the byte
    stream it feeds to the content hash, and what it leaves behind. */
module TreeStream {
  import opened Base

  const MAX_SYMLINK: nat := 4096
  const SLASH: Byte := 47
  const DOT: Byte := 46

  type Name = seq<Byte>

  /** What the walk inspects on every node besides its kind: permission bits, link count,
      whether owner and volume are the expected ones, and whether extended attributes,
      access lists or file flags are absent. */
  datatype Attr = Attr(mode: nat, nlink: nat, owned: bool, plain: bool)

  datatype Entry = Entry(name: Name, node: Tree)

  /** A file tree. A directory is the listing of its entries; `Ordered` fixes their order. */
  datatype Tree =
    | Dir(attr: Attr, entries: seq<Entry>)
    | File(attr: Attr, content: seq<Byte>)
    | Link(attr: Attr, target: seq<Byte>)
    | Special(attr: Attr)

  datatype Walk = Seal | Verify | Publishing(macos: bool) | Clone

  datatype Outcome = Done | Unsupported | IoFailed

  // ---- Names and paths ----

  function LowerCase(b: Byte): Byte {
    if 65 <= b <= 90 then b + 32 else b
  }

  predicate IsDotGit(name: Name) {
    |name| == 4 && name[0] == DOT && LowerCase(name[1]) == 103 && LowerCase(name[2]) == 105 && LowerCase(name[3]) == 116
  }

  predicate ValidName(name: Name) {
    && name != [] && name != [DOT] && name != [DOT, DOT]
    && (forall i :: 0 <= i < |name| ==> name[i] != SLASH && name[i] != 0)
    && !IsDotGit(name)
  }

  /** The byte order in which a listing is walked. */
  predicate Less(a: Name, b: Name) {
    if a == [] || b == [] then a == [] && b != []
    else a[0] < b[0] || (a[0] == b[0] && Less(a[1..], b[1..]))
  }

  function Child(prefix: seq<Byte>, name: Name): seq<Byte> {
    if prefix == [] then name else prefix + [SLASH] + name
  }

  // ---- What the walk accepts ----

  predicate DirectoryMode(walk: Walk, root: bool, mode: nat) {
    match walk
    case Seal => mode == MODE_0700
    case Publishing(macos) => mode == MODE_0555 || (root && macos && mode == MODE_0755)
    case _ => mode == MODE_0555
  }

  predicate AcceptableFile(attr: Attr) {
    attr.owned && attr.plain && attr.nlink == 1 && attr.mode in [MODE_0444, MODE_0555]
  }

  predicate AcceptableLink(attr: Attr, target: seq<Byte>) {
    && attr.owned && attr.plain && attr.nlink == 1
    && |target| <= MAX_SYMLINK && (forall i :: 0 <= i < |target| ==> target[i] != 0)
  }

  predicate AcceptableDirectory(walk: Walk, root: bool, attr: Attr) {
    attr.owned && attr.plain && 2 <= attr.nlink && DirectoryMode(walk, root, attr.mode)
  }

  predicate Acceptable(walk: Walk, root: bool, tree: Tree) {
    match tree
    case Dir(attr, entries) =>
      && AcceptableDirectory(walk, root, attr)
      && (forall i :: 0 <= i < |entries| ==> ValidName(entries[i].name) && Acceptable(walk, false, entries[i].node))
    case File(attr, content) => AcceptableFile(attr) && |content| < U64_LIMIT
    case Link(attr, target) => AcceptableLink(attr, target)
    case Special(_) => false
  }

  // ---- The stream ----

  function Text(s: string): (bytes: seq<Byte>)
    requires forall i :: 0 <= i < |s| ==> s[i] < 128 as char
    ensures |bytes| == |s|
  {
    seq(|s|, i requires 0 <= i < |s| => s[i] as nat)
  }

  function BigEndian(n: nat, width: nat): (bytes: seq<Byte>)
    ensures |bytes| == width
  {
    if width == 0 then [] else BigEndian(n / 256, width - 1) + [n % 256]
  }

  /** A length-prefixed field. */
  function Lp(bytes: seq<Byte>): seq<Byte> {
    BigEndian(|bytes|, 8) + bytes
  }

  function Octal(n: nat): string {
    if n < 8 then ["01234567"[n]] else Octal(n / 8) + ["01234567"[n % 8]]
  }

  lemma OctalIsAscii(n: nat)
    ensures forall i :: 0 <= i < |Octal(n)| ==> Octal(n)[i] < 128 as char
  {
  }

  function OctalText(mode: nat): seq<Byte> {
    OctalIsAscii(mode);
    Text(Octal(mode))
  }

  /** Length-prefixed fields, one after the other. */
  function Fields(fields: seq<seq<Byte>>): seq<Byte> {
    if fields == [] then [] else Lp(fields[0]) + Fields(fields[1..])
  }

  function FileHeader(path: seq<Byte>, mode: nat, size: nat): seq<Byte> {
    Fields([Text("file"), path, OctalText(mode), BigEndian(size, 8)])
  }

  function LinkHeader(path: seq<Byte>, size: nat): seq<Byte> {
    Fields([Text("symlink"), path, Text("120000"), BigEndian(size, 8)])
  }

  function DirectoryTrailer(path: seq<Byte>): seq<Byte> {
    Fields([Text("directory"), path, Text("555")])
  }

  /** What the hash receives for a node at `path`; a directory comes after its entries. */
  function Stream(path: seq<Byte>, tree: Tree): seq<Byte>
    decreases tree
  {
    match tree
    case Dir(_, entries) => EntriesStream(path, entries) + DirectoryTrailer(path)
    case File(attr, content) => FileHeader(path, attr.mode, |content|) + content
    case Link(_, target) => LinkHeader(path, |target|) + target
    case Special(_) => []
  }

  function EntriesStream(prefix: seq<Byte>, entries: seq<Entry>): seq<Byte>
    decreases entries
  {
    if entries == [] then []
    else
      var last := entries[|entries| - 1];
      EntriesStream(prefix, entries[..|entries| - 1]) + Stream(Child(prefix, last.name), last.node)
  }

  /** The preimage of the content digest. */
  function Preimage(root: Tree): seq<Byte> {
    Lp(Text("git-vws/template-content/v1")) + Stream([], root)
  }

  /** The number of files and symbolic links. */
  function Count(tree: Tree): nat {
    if tree.Dir? then EntriesCount(tree.entries) else 1
  }

  function EntriesCount(entries: seq<Entry>): nat {
    if entries == [] then 0
    else EntriesCount(entries[..|entries| - 1]) + Count(entries[|entries| - 1].node)
  }

  /** A short field, byte by byte: eight bytes of length, the highest first. */
  function Short(bytes: seq<Byte>): seq<Byte>
    requires |bytes| < 256
  {
    seq(7, _ => 0) + [|bytes|] + bytes
  }

  lemma ShortField(bytes: seq<Byte>)
    requires |bytes| < 256
    ensures BigEndian(|bytes|, 8) == seq(7, _ => 0) + [|bytes|] && Lp(bytes) == Short(bytes)
  {
    hide BigEndian;
    BigEndianSmall(|bytes|, 8);
  }

  lemma {:induction false} BigEndianSmall(n: nat, width: nat)
    requires n < 256
    ensures forall i :: 0 <= i < width ==> BigEndian(n, width)[i] == if i == width - 1 then n else 0
  {
    if width > 0 {
      BigEndianSmall(0, width - 1);
    }
  }

  lemma ShortFields(fields: seq<seq<Byte>>)
    requires forall i :: 0 <= i < |fields| ==> |fields[i]| < 256
    ensures |fields| == 3 ==> Fields(fields) == Short(fields[0]) + (Short(fields[1]) + Short(fields[2]))
    ensures |fields| == 4 ==> Fields(fields) == Short(fields[0]) + (Short(fields[1]) + (Short(fields[2]) + Short(fields[3])))
  {
    if |fields| == 3 || |fields| == 4 {
      ShortField(fields[0]);
      ShortField(fields[1]);
      ShortField(fields[2]);
      ShortField(fields[|fields| - 1]);
      hide Lp, Short;
      var n := |fields|;
      assert fields[n..] == [] && Fields([]) == [];
      assert fields[n - 1..][1..] == fields[n..];
      assert Fields(fields[n - 1..]) == Lp(fields[n - 1]) + [];
      assert Lp(fields[n - 1]) + [] == Lp(fields[n - 1]);
      assert fields[1..][1..] == fields[2..] && fields[2..][1..] == fields[3..];
    }
  }

  /** Three nodes, byte by byte: a short file of mode 0444, a short link, and an empty directory. */
  lemma FileBytes(path: seq<Byte>, attr: Attr, content: seq<Byte>)
    requires attr.mode == 0x124 && |path| < 256 && |content| < 256
    ensures Stream(path, File(attr, content)) ==
      Short([102, 105, 108, 101]) + (Short(path) + (Short([52, 52, 52]) + Short(seq(7, _ => 0) + [|content|]))) + content
  {
    SampleTexts();
    ShortField(content);
    hide Text, Fields, BigEndian, OctalText, Short;
    ShortFields([[102, 105, 108, 101], path, [52, 52, 52], seq(7, _ => 0) + [|content|]]);
  }

  lemma LinkBytes(path: seq<Byte>, attr: Attr, target: seq<Byte>)
    requires |path| < 256 && |target| < 256
    ensures Stream(path, Link(attr, target)) ==
      Short([115, 121, 109, 108, 105, 110, 107])
      + (Short(path) + (Short([49, 50, 48, 48, 48, 48]) + Short(seq(7, _ => 0) + [|target|]))) + target
  {
    SampleTexts();
    ShortField(target);
    hide Text, Fields, BigEndian, OctalText, Short;
    ShortFields([[115, 121, 109, 108, 105, 110, 107], path, [49, 50, 48, 48, 48, 48], seq(7, _ => 0) + [|target|]]);
  }

  lemma DirectoryBytes(path: seq<Byte>, attr: Attr)
    requires |path| < 256
    ensures Stream(path, Dir(attr, [])) ==
      Short([100, 105, 114, 101, 99, 116, 111, 114, 121]) + (Short(path) + Short([53, 53, 53]))
  {
    SampleTexts();
    hide Text, Fields, BigEndian, OctalText, Short;
    ShortFields([[100, 105, 114, 101, 99, 116, 111, 114, 121], path, [53, 53, 53]]);
    assert EntriesStream(path, []) + DirectoryTrailer(path) == DirectoryTrailer(path);
  }

  lemma SampleTexts()
    ensures Text("file") == [102, 105, 108, 101] && Text("symlink") == [115, 121, 109, 108, 105, 110, 107]
    ensures Text("directory") == [100, 105, 114, 101, 99, 116, 111, 114, 121]
    ensures Text("120000") == [49, 50, 48, 48, 48, 48] && Text("555") == [53, 53, 53]
    ensures OctalText(0x124) == [52, 52, 52] && OctalText(0x16D) == [53, 53, 53]
  {
    OctalModes();
  }

  // ---- What the walk leaves behind ----

  /** The source after sealing: every directory is read-only. */
  function SealedForm(tree: Tree): Tree {
    if tree.Dir? then Dir(tree.attr.(mode := MODE_0555), SealedEntries(tree.entries)) else tree
  }

  function SealedEntries(entries: seq<Entry>): (sealed: seq<Entry>)
    ensures |sealed| == |entries|
  {
    if entries == [] then []
    else
      var last := entries[|entries| - 1];
      SealedEntries(entries[..|entries| - 1]) + [Entry(last.name, SealedForm(last.node))]
  }

  function SessionMode(mode: nat): nat {
    if mode == MODE_0555 then MODE_0755 else MODE_0644
  }

  /** The writable copy of a sealed node. */
  function Image(tree: Tree): Tree {
    match tree
    case Dir(_, entries) => Dir(Attr(MODE_0755, 2, true, true), Images(entries))
    case File(attr, content) => File(Attr(SessionMode(attr.mode), 1, true, true), content)
    case Link(_, target) => Link(Attr(0, 1, true, true), target)
    case Special(attr) => Tree.Special(attr)
  }

  function Images(entries: seq<Entry>): (images: seq<Entry>)
    ensures |images| == |entries|
  {
    if entries == [] then []
    else
      var last := entries[|entries| - 1];
      Images(entries[..|entries| - 1]) + [Entry(last.name, Image(last.node))]
  }

  predicate Writable(attr: Attr) {
    attr.owned && attr.plain && 2 <= attr.nlink && attr.mode in [MODE_0700, MODE_0755]
  }

  /** Within each directory, names differ. */
  predicate DistinctNames(tree: Tree) {
    tree.Dir? ==>
      && (forall i, j :: 0 <= i < j < |tree.entries| ==> tree.entries[i].name != tree.entries[j].name)
      && (forall i :: 0 <= i < |tree.entries| ==> DistinctNames(tree.entries[i].node))
  }

  predicate Lacks(entries: seq<Entry>, name: Name) {
    forall i :: 0 <= i < |entries| ==> entries[i].name != name
  }

  /** No entry the walk would add is there already. */
  predicate NoClash(existing: seq<Entry>, added: seq<Entry>) {
    forall i :: 0 <= i < |added| && ValidName(added[i].name) ==> Lacks(existing, added[i].name)
  }

  // ---- The walk ----

  /** The state the walk threads through the recursion: the bytes hashed so far, and the
      running count of files and links. */
  class Walker {
    var stream: seq<Byte>
    var count: nat
    /** On a calm walk no system call fails. */
    const calm: bool

    constructor (calm: bool)
      ensures stream == Lp(Text("git-vws/template-content/v1")) && count == 0 && this.calm == calm
    {
      stream, count, this.calm := Lp(Text("git-vws/template-content/v1")), 0, calm;
    }

    method Call() returns (ok: bool)
      ensures calm ==> ok
    {
      ok := calm;
      if !calm {
        ok := *;
      }
    }

    /** Reads the file in chunks of whatever size the system returns. */
    method HashRegular(path: seq<Byte>, mode: nat, content: seq<Byte>) returns (ok: bool)
      modifies this`stream
      ensures ok ==> stream == old(stream) + Stream(path, File(Attr(mode, 1, true, true), content))
      ensures calm ==> ok
    {
      hide FileHeader;
      stream := stream + FileHeader(path, mode, |content|);
      var offset := 0;
      while offset < |content|
        invariant offset <= |content|
        invariant stream == old(stream) + FileHeader(path, mode, |content|) + content[..offset]
      {
        ok := Call();
        if !ok {
          return;
        }
        var size: nat := *;
        if size <= 0 || |content| - offset < size {
          size := |content| - offset;
        }
        assert content[..offset + size] == content[..offset] + content[offset..offset + size];
        stream, offset := stream + content[offset..offset + size], offset + size;
      }
      assert content[..offset] == content;
      ok := true;
    }

    /** `walk_tree` for the directory `source`. `sealed` is the source afterwards and `copy`
        the destination directory afterwards. */
    method WalkTree(source: Tree, prefix: seq<Byte>, walk: Walk, destination: Tree)
      returns (outcome: Outcome, sealed: Tree, copy: Tree)
      requires source.Dir? && destination.Dir?
      modifies this
      ensures outcome.Done? ==>
        && Acceptable(walk, prefix == [], source)
        && (walk.Clone? ==> Writable(destination.attr))
        && stream == old(stream) + Stream(prefix, source)
        && count == old(count) + Count(source)
        && (old(count) < U64_LIMIT ==> count < U64_LIMIT)
        && sealed == (if walk.Seal? then SealedForm(source) else source)
        && copy == (if walk.Clone? then Dir(destination.attr, destination.entries + Images(source.entries))
                    else destination)
      ensures outcome.Unsupported? ==>
        || !Acceptable(walk, prefix == [], source)
        || (walk.Clone? && !Writable(destination.attr))
        || U64_LIMIT <= old(count) + Count(source)
      ensures calm && DistinctNames(source) && (walk.Clone? ==> NoClash(destination.entries, source.entries)) ==>
        !outcome.IoFailed?
      decreases source
    {
      hide EntriesStream, EntriesCount, SealedEntries, Images, Stream, Count, SealedForm, Image, Acceptable,
        AcceptableDirectory, DirectoryTrailer, Writable, ValidName, DistinctNames, NoClash, Lacks;
      Unfold(source, prefix, walk);
      sealed, copy := source, destination;
      if !AcceptableDirectory(walk, prefix == [], source.attr) {
        return Unsupported, source, destination;
      }
      if walk.Clone? && !Writable(destination.attr) {
        return Unsupported, source, destination;
      }
      var i := 0;
      var nodes: seq<Entry>, copies: seq<Entry> := [], [];
      while i < |source.entries|
        invariant 0 <= i <= |source.entries|
        invariant forall j :: 0 <= j < i ==>
          ValidName(source.entries[j].name) && Acceptable(walk, false, source.entries[j].node)
        invariant stream == old(stream) + EntriesStream(prefix, source.entries[..i])
        invariant count == old(count) + EntriesCount(source.entries[..i])
        invariant old(count) < U64_LIMIT ==> count < U64_LIMIT
        invariant nodes == if walk.Seal? then SealedEntries(source.entries[..i]) else source.entries[..i]
        invariant copies == if walk.Clone? then Images(source.entries[..i]) else []
      {
        var entry := source.entries[i];
        EntryStep(prefix, source.entries, i);
        CountBound(source.entries, i);
        NoClashStep(source, destination.entries, i);
        var step, node, added := WalkEntry(source, i, prefix, walk, destination.(entries := destination.entries + copies));
        if step != Done {
          sealed := Dir(source.attr, nodes + source.entries[i..]);
          copy := destination.(entries := destination.entries + copies);
          return step, sealed, copy;
        }
        nodes := nodes + [Entry(entry.name, node)];
        copies := if walk.Clone? then copies + [added] else copies;
        i := i + 1;
      }
      assert source.entries[..i] == source.entries;
      copy := Dir(destination.attr, destination.entries + copies);
      sealed := Dir(if walk.Seal? then source.attr.(mode := MODE_0555) else source.attr, nodes);
      stream := stream + DirectoryTrailer(prefix);
      outcome := Done;
    }

    /** One entry of a listing: the body of the loop in `walk_tree`. */
    method WalkEntry(source: Tree, i: nat, prefix: seq<Byte>, walk: Walk, destination: Tree)
      returns (outcome: Outcome, node: Tree, added: Entry)
      requires source.Dir? && i < |source.entries| && destination.Dir?
      modifies this
      ensures
        var entry := source.entries[i];
        outcome.Done? ==>
          && ValidName(entry.name) && Acceptable(walk, false, entry.node)
          && stream == old(stream) + Stream(Child(prefix, entry.name), entry.node)
          && count == old(count) + Count(entry.node)
          && (old(count) < U64_LIMIT ==> count < U64_LIMIT)
          && node == (if walk.Seal? then SealedForm(entry.node) else entry.node)
          && (walk.Clone? ==> added == Entry(entry.name, Image(entry.node)))
      ensures
        var entry := source.entries[i];
        outcome.Unsupported? ==>
          || !ValidName(entry.name) || !Acceptable(walk, false, entry.node)
          || U64_LIMIT <= old(count) + Count(entry.node)
      ensures
        var entry := source.entries[i];
        calm && DistinctNames(entry.node) && (walk.Clone? && ValidName(entry.name) ==> Lacks(destination.entries, entry.name)) ==>
          !outcome.IoFailed?
      decreases source, 0
    {
      hide EntriesStream, EntriesCount, SealedEntries, Images, FileHeader, LinkHeader, DirectoryTrailer, ValidName,
        AcceptableDirectory, AcceptableFile, AcceptableLink, DistinctNames, NoClash, Lacks, SessionMode;
      var entry := source.entries[i];
      node, added := entry.node, entry;
      AcceptableIsOwned(walk, entry.node);
      if !ValidName(entry.name) || !entry.node.attr.owned {
        return Unsupported, node, added;
      }
      var path := Child(prefix, entry.name);
      ChildNotRoot(prefix, entry.name);
      var ok := Call();
      match entry.node {
      case Dir(attr, entries) =>
        if !AcceptableDirectory(walk, false, attr) {
          return Unsupported, node, added;
        }
        if walk.Clone? && (!ok || !Lacks(destination.entries, entry.name)) {
          return IoFailed, node, added;
        }
        var child := Dir(Attr(MODE_0755, 2, true, true), []);
        NoClashEmpty(entries);
        Unfold(entry.node, path, walk);
        var copy;
        outcome, node, copy := WalkTree(entry.node, path, walk, child);
        if outcome.Done? {
          assert child.entries + Images(entries) == Images(entries);
          added := Entry(entry.name, copy);
        }
      case File(attr, content) =>
        if !AcceptableFile(attr) || U64_LIMIT <= |content| {
          return Unsupported, node, added;
        }
        ok := HashRegular(path, attr.mode, content);
        if !ok {
          return IoFailed, node, added;
        }
        if walk.Clone? {
          ok := Call();
          if !ok || !Lacks(destination.entries, entry.name) {
            return IoFailed, node, added;
          }
          added := Entry(entry.name, File(Attr(SessionMode(attr.mode), 1, true, true), content));
        }
        outcome := CountEntry();
      case Link(attr, target) =>
        if !AcceptableLink(attr, target) {
          return Unsupported, node, added;
        }
        stream := stream + (LinkHeader(path, |target|) + target);
        if walk.Clone? {
          if !ok || !Lacks(destination.entries, entry.name) {
            return IoFailed, node, added;
          }
          added := Entry(entry.name, Link(Attr(0, 1, true, true), target));
        }
        outcome := CountEntry();
      case Special(_) =>
        outcome := Unsupported;
      }
    }

    /** The checked increment of the entry counter. */
    method CountEntry() returns (outcome: Outcome)
      modifies this`count
      ensures outcome == if old(count) + 1 < U64_LIMIT then Done else Unsupported
      ensures outcome.Done? ==> count == old(count) + 1
    {
      if count + 1 < U64_LIMIT {
        count := count + 1;
        return Done;
      }
      outcome := Unsupported;
    }
  }

  lemma AcceptableIsOwned(walk: Walk, tree: Tree)
    ensures Acceptable(walk, false, tree) ==> tree.attr.owned
  {
  }

  lemma NoClashEmpty(added: seq<Entry>)
    ensures NoClash([], added)
  {
  }

  /** The copies made so far do not clash with the next one. */
  lemma NoClashStep(source: Tree, existing: seq<Entry>, i: nat)
    requires source.Dir? && i < |source.entries|
    ensures DistinctNames(source) ==> DistinctNames(source.entries[i].node)
    ensures DistinctNames(source) && NoClash(existing, source.entries) && ValidName(source.entries[i].name) ==>
      Lacks(existing + Images(source.entries[..i]), source.entries[i].name)
  {
    ImagesKeepNames(source.entries[..i]);
  }

  lemma {:induction false} ImagesKeepNames(entries: seq<Entry>)
    ensures forall j :: 0 <= j < |entries| ==> Images(entries)[j].name == entries[j].name
    decreases |entries|
  {
    if entries != [] {
      ImagesKeepNames(entries[..|entries| - 1]);
    }
  }

  /** How the specification functions grow by one entry. */
  lemma EntryStep(prefix: seq<Byte>, entries: seq<Entry>, i: nat)
    requires i < |entries|
    ensures entries[..i + 1] == entries[..i] + [entries[i]]
    ensures entries[i] == Entry(entries[i].name, entries[i].node)
    ensures EntriesStream(prefix, entries[..i + 1])
      == EntriesStream(prefix, entries[..i]) + Stream(Child(prefix, entries[i].name), entries[i].node)
    ensures EntriesCount(entries[..i + 1]) == EntriesCount(entries[..i]) + Count(entries[i].node)
    ensures SealedEntries(entries[..i + 1])
      == SealedEntries(entries[..i]) + [Entry(entries[i].name, SealedForm(entries[i].node))]
    ensures Images(entries[..i + 1]) == Images(entries[..i]) + [Entry(entries[i].name, Image(entries[i].node))]
  {
    assert entries[..i + 1][..i] == entries[..i];
  }

  /** The specification functions at a directory, and at an empty listing. */
  lemma Unfold(tree: Tree, prefix: seq<Byte>, walk: Walk)
    requires tree.Dir?
    ensures tree.entries[..0] == [] && EntriesStream(prefix, []) == [] && EntriesCount([]) == 0
    ensures SealedEntries([]) == [] && Images([]) == []
    ensures Stream(prefix, tree) == EntriesStream(prefix, tree.entries) + DirectoryTrailer(prefix)
    ensures Count(tree) == EntriesCount(tree.entries)
    ensures SealedForm(tree) == Dir(tree.attr.(mode := MODE_0555), SealedEntries(tree.entries))
    ensures Acceptable(walk, prefix == [], tree) <==>
      && AcceptableDirectory(walk, prefix == [], tree.attr)
      && forall i :: 0 <= i < |tree.entries| ==>
        ValidName(tree.entries[i].name) && Acceptable(walk, false, tree.entries[i].node)
  {
  }

  lemma {:induction false} CountBound(entries: seq<Entry>, i: nat)
    requires i < |entries|
    ensures EntriesCount(entries[..i]) + Count(entries[i].node) <= EntriesCount(entries)
    decreases |entries|
  {
    var front := entries[..|entries| - 1];
    if i < |front| {
      CountBound(front, i);
      assert front[..i] == entries[..i];
    }
  }

  // ---- The stream determines the tree ----

  /** Same names, kinds, file modes, contents, link targets and directories, all of kinds the walk hashes. */
  predicate SameTree(a: Tree, b: Tree) {
    match a
    case Dir(_, entries) =>
      && b.Dir? && |entries| == |b.entries|
      && forall i :: 0 <= i < |entries| ==>
        entries[i].name == b.entries[i].name && SameTree(entries[i].node, b.entries[i].node)
    case File(attr, content) => b.File? && attr.mode == b.attr.mode && content == b.content
    case Link(_, target) => b.Link? && target == b.target
    case Special(_) => false
  }

  /** A tree the walk can hash: an accepted one whose path lengths are machine words. */
  predicate Hashable(path: seq<Byte>, tree: Tree)
    decreases tree
  {
    && |path| < U64_LIMIT
    && match tree
       case Dir(_, entries) =>
         forall i :: 0 <= i < |entries| ==>
           ValidName(entries[i].name) && Hashable(Child(path, entries[i].name), entries[i].node)
       case File(attr, content) => attr.mode in [MODE_0444, MODE_0555] && |content| < U64_LIMIT
       case Link(_, target) => |target| <= MAX_SYMLINK
       case Special(_) => false
  }

  lemma {:induction false} BigEndianInjective(m: nat, n: nat, width: nat)
    requires BigEndian(m, width) == BigEndian(n, width)
    requires width <= 8 && m < Power(width) && n < Power(width)
    ensures m == n
  {
    if width > 0 {
      var a, b := BigEndian(m, width), BigEndian(n, width);
      assert a[..width - 1] == BigEndian(m / 256, width - 1) && b[..width - 1] == BigEndian(n / 256, width - 1);
      assert a[width - 1] == m % 256 && b[width - 1] == n % 256;
      BigEndianInjective(m / 256, n / 256, width - 1);
    }
  }

  /** 256 to the power `width`. */
  function Power(width: nat): nat {
    if width == 0 then 1 else 256 * Power(width - 1)
  }

  lemma PowerOfEight()
    ensures Power(8) == U64_LIMIT
  {
    assert Power(4) == 0x1_0000_0000;
    assert Power(6) == 256 * (256 * Power(4));
    assert Power(8) == 256 * (256 * Power(6));
  }

  /** No field is a proper prefix of another: the first field of a stream is determined. */
  lemma LpPrefixFree(a: seq<Byte>, b: seq<Byte>, x: seq<Byte>, y: seq<Byte>)
    requires Lp(a) + x == Lp(b) + y
    requires |a| < U64_LIMIT && |b| < U64_LIMIT
    ensures a == b && x == y
  {
    var left, right := Lp(a) + x, Lp(b) + y;
    assert left[..8] == BigEndian(|a|, 8) && right[..8] == BigEndian(|b|, 8);
    PowerOfEight();
    BigEndianInjective(|a|, |b|, 8);
    assert left[8..8 + |a|] == a && right[8..8 + |a|] == b;
    assert left[8 + |a|..] == x && right[8 + |a|..] == y;
  }

  /** Lists of as many fields are determined by their bytes, whatever follows. */
  lemma {:induction false} FieldsPrefixFree(fs: seq<seq<Byte>>, gs: seq<seq<Byte>>, x: seq<Byte>, y: seq<Byte>)
    requires |fs| == |gs| && Fields(fs) + x == Fields(gs) + y
    requires forall i :: 0 <= i < |fs| ==> |fs[i]| < U64_LIMIT && |gs[i]| < U64_LIMIT
    ensures fs == gs && x == y
  {
    hide Lp;
    if fs == [] {
      assert [] + x == x && [] + y == y;
    } else {
      var moreF, moreG := Fields(fs[1..]) + x, Fields(gs[1..]) + y;
      Regroup(Lp(fs[0]), Fields(fs[1..]), x);
      Regroup(Lp(gs[0]), Fields(gs[1..]), y);
      LpPrefixFree(fs[0], gs[0], moreF, moreG);
      FieldsPrefixFree(fs[1..], gs[1..], x, y);
      assert fs == [fs[0]] + fs[1..] && gs == [gs[0]] + gs[1..];
    }
  }

  lemma {:induction false} FieldsAppend(fs: seq<seq<Byte>>, gs: seq<seq<Byte>>)
    ensures Fields(fs + gs) == Fields(fs) + Fields(gs)
  {
    hide Lp;
    if fs == [] {
      assert fs + gs == gs && Fields(fs) + Fields(gs) == Fields(gs);
    } else {
      FieldsAppend(fs[1..], gs);
      assert (fs + gs)[1..] == fs[1..] + gs;
      assert Fields(fs + gs) == Lp(fs[0]) + (Fields(fs[1..]) + Fields(gs));
    }
  }

  lemma SplitFields(fields: seq<seq<Byte>>)
    requires 2 <= |fields|
    ensures Fields(fields) == Fields([fields[0], fields[1]]) + Fields(fields[2..])
  {
    hide Fields;
    assert fields == [fields[0], fields[1]] + fields[2..];
    FieldsAppend([fields[0], fields[1]], fields[2..]);
  }

  /** The tag and the path of the first item in a node's stream. */
  function HeadTag(tree: Tree): seq<Byte> {
    match tree
    case Dir(_, entries) => if entries == [] then Text("directory") else HeadTag(entries[0].node)
    case File(_, _) => Text("file")
    case _ => Text("symlink")
  }

  function HeadPath(path: seq<Byte>, tree: Tree): seq<Byte>
    decreases tree
  {
    if tree.Dir? && tree.entries != [] then HeadPath(Child(path, tree.entries[0].name), tree.entries[0].node) else path
  }

  /** `q` is `path` or lies below it. */
  predicate Below(path: seq<Byte>, q: seq<Byte>) {
    path <= q && (|q| == |path| || q[|path|] == SLASH)
  }

  lemma {:induction false} EntriesFront(prefix: seq<Byte>, entries: seq<Entry>)
    requires entries != []
    ensures EntriesStream(prefix, entries)
      == Stream(Child(prefix, entries[0].name), entries[0].node) + EntriesStream(prefix, entries[1..])
    decreases |entries|
  {
    var n := |entries| - 1;
    if n > 0 {
      EntriesFront(prefix, entries[..n]);
      assert entries[..n][1..] == entries[1..][..n - 1];
    }
  }

  /** Every stream starts with a tag field and a path field. */
  lemma {:induction false} Head(path: seq<Byte>, tree: Tree) returns (rest: seq<Byte>)
    requires Hashable(path, tree)
    ensures Stream(path, tree) == Fields([HeadTag(tree), HeadPath(path, tree)]) + rest
    ensures |HeadTag(tree)| < U64_LIMIT && |HeadPath(path, tree)| < U64_LIMIT
    ensures Below(path, HeadPath(path, tree)) || path == []
    decreases tree
  {
    hide Fields, OctalText, BigEndian, Text;
    match tree
    case File(attr, content) =>
      var fields := [Text("file"), path, OctalText(attr.mode), BigEndian(|content|, 8)];
      SplitFields(fields);
      rest := Fields(fields[2..]) + content;
    case Link(_, target) =>
      var fields := [Text("symlink"), path, Text("120000"), BigEndian(|target|, 8)];
      SplitFields(fields);
      rest := Fields(fields[2..]) + target;
    case Dir(_, entries) =>
      if entries == [] {
        var fields := [Text("directory"), path, Text("555")];
        SplitFields(fields);
        rest := Fields(fields[2..]);
        assert EntriesStream(path, []) + DirectoryTrailer(path) == DirectoryTrailer(path);
      } else {
        var child := Child(path, entries[0].name);
        var more := Head(child, entries[0].node);
        EntriesFront(path, entries);
        rest := more + EntriesStream(path, entries[1..]) + DirectoryTrailer(path);
      }
  }

  /** A child's path determines its name. */
  lemma SameName(path: seq<Byte>, m: Name, n: Name, q: seq<Byte>)
    requires ValidName(m) && ValidName(n)
    requires Below(Child(path, m), q) && Below(Child(path, n), q)
    ensures m == n
  {
    var start := if path == [] then 0 else |path| + 1;
    var a, b := Child(path, m), Child(path, n);
    assert a[start..] == m && b[start..] == n;
    if |m| == |n| {
      assert a == q[..|a|] == b;
    }
  }

  lemma Regroup(a: seq<Byte>, b: seq<Byte>, c: seq<Byte>)
    ensures (a + b) + c == a + (b + c)
  {
  }

  /** Equal streams start with items of the same tag and path. */
  lemma SameHead(path: seq<Byte>, a: Tree, path': seq<Byte>, b: Tree, x: seq<Byte>, y: seq<Byte>)
    requires Hashable(path, a) && Hashable(path', b)
    requires Stream(path, a) + x == Stream(path', b) + y
    ensures HeadTag(a) == HeadTag(b) && HeadPath(path, a) == HeadPath(path', b)
  {
    hide *;
    var restA := Head(path, a);
    var restB := Head(path', b);
    var fs, gs := [HeadTag(a), HeadPath(path, a)], [HeadTag(b), HeadPath(path', b)];
    Regroup(Fields(fs), restA, x);
    Regroup(Fields(gs), restB, y);
    FieldsPrefixFree(fs, gs, restA + x, restB + y);
  }

  /** Four fields, the last of which is the size of the bytes that come after them. */
  lemma BlobPrefixFree(
    fs: seq<seq<Byte>>, gs: seq<seq<Byte>>, c: seq<Byte>, d: seq<Byte>, x: seq<Byte>, y: seq<Byte>)
    requires |fs| == 4 == |gs|
    requires forall i :: 0 <= i < 4 ==> |fs[i]| < U64_LIMIT && |gs[i]| < U64_LIMIT
    requires |c| < U64_LIMIT && |d| < U64_LIMIT
    requires fs[3] == BigEndian(|c|, 8) && gs[3] == BigEndian(|d|, 8)
    requires (Fields(fs) + c) + x == (Fields(gs) + d) + y
    ensures fs == gs && c == d && x == y
  {
    PowerOfEight();
    hide Fields, BigEndian;
    assert (Fields(fs) + c) + x == Fields(fs) + (c + x);
    assert (Fields(gs) + d) + y == Fields(gs) + (d + y);
    FieldsPrefixFree(fs, gs, c + x, d + y);
    BigEndianInjective(|c|, |d|, 8);
    SameSplit(c, d, x, y);
  }

  lemma FilePrefixFree(path: seq<Byte>, a: Tree, b: Tree, x: seq<Byte>, y: seq<Byte>)
    requires a.File? && b.File? && Hashable(path, a) && Hashable(path, b)
    requires Stream(path, a) + x == Stream(path, b) + y
    ensures SameTree(a, b) && x == y
  {
    var fs := [Text("file"), path, OctalText(a.attr.mode), BigEndian(|a.content|, 8)];
    var gs := [Text("file"), path, OctalText(b.attr.mode), BigEndian(|b.content|, 8)];
    OctalModes();
    PowerOfEight();
    hide Fields, BigEndian, OctalText, Text;
    BlobPrefixFree(fs, gs, a.content, b.content, x, y);
    assert fs[2] == gs[2];
  }

  lemma LinkPrefixFree(path: seq<Byte>, a: Tree, b: Tree, x: seq<Byte>, y: seq<Byte>)
    requires a.Link? && b.Link? && Hashable(path, a) && Hashable(path, b)
    requires Stream(path, a) + x == Stream(path, b) + y
    ensures SameTree(a, b) && x == y
  {
    var fs := [Text("symlink"), path, Text("120000"), BigEndian(|a.target|, 8)];
    var gs := [Text("symlink"), path, Text("120000"), BigEndian(|b.target|, 8)];
    PowerOfEight();
    hide Fields, BigEndian, Text;
    BlobPrefixFree(fs, gs, a.target, b.target, x, y);
  }

  lemma SameSplit(a: seq<Byte>, b: seq<Byte>, x: seq<Byte>, y: seq<Byte>)
    requires a + x == b + y && |a| == |b|
    ensures a == b && x == y
  {
    assert a == (a + x)[..|a|] && b == (b + y)[..|a|];
    assert x == (a + x)[|a|..] && y == (b + y)[|a|..];
  }

  /** The two file modes print differently, and print short. */
  lemma OctalModes()
    ensures Octal(MODE_0444) == "444" && Octal(MODE_0555) == "555"
    ensures OctalText(MODE_0444) != OctalText(MODE_0555)
    ensures |OctalText(MODE_0444)| == 3 == |OctalText(MODE_0555)|
  {
    assert Octal(4) == "4" && Octal(36) == "44";
    assert Octal(5) == "5" && Octal(45) == "55";
    assert OctalText(MODE_0444)[0] == '4' as nat && OctalText(MODE_0555)[0] == '5' as nat;
  }

  lemma TagsDiffer()
    ensures Text("file") != Text("symlink") && Text("file") != Text("directory") && Text("symlink") != Text("directory")
  {
    assert |Text("file")| != |Text("symlink")|;
  }

  /** The first item of a non-empty directory lies strictly below it. */
  lemma HeadIsBelow(path: seq<Byte>, tree: Tree)
    requires Hashable(path, tree) && tree.Dir? && tree.entries != []
    ensures |path| < |HeadPath(path, tree)|
    ensures Below(Child(path, tree.entries[0].name), HeadPath(path, tree))
  {
    var _ := Head(Child(path, tree.entries[0].name), tree.entries[0].node);
  }

  /** No node's stream is a proper prefix of another's: the first node of a stream is determined. */
  lemma {:induction false} TreePrefixFree(path: seq<Byte>, a: Tree, b: Tree, x: seq<Byte>, y: seq<Byte>)
    requires Hashable(path, a) && Hashable(path, b)
    requires Stream(path, a) + x == Stream(path, b) + y
    ensures SameTree(a, b) && x == y
    decreases a, 1, 0
  {
    if a.Dir? && b.Dir? {
      Reassociate(path, a, x);
      Reassociate(path, b, y);
      assert a.entries[0..] == a.entries && b.entries[0..] == b.entries;
      EntriesPrefixFree(path, a, b, 0, x, y);
    } else {
      SameHead(path, a, path, b, x, y);
      TagsDiffer();
      if a.Dir? && a.entries != [] {
        HeadIsBelow(path, a);
      } else if b.Dir? && b.entries != [] {
        HeadIsBelow(path, b);
      } else if a.File? {
        FilePrefixFree(path, a, b, x, y);
      } else {
        LinkPrefixFree(path, a, b, x, y);
      }
    }
  }

  lemma Reassociate(path: seq<Byte>, a: Tree, x: seq<Byte>)
    requires a.Dir?
    ensures Stream(path, a) + x == EntriesStream(path, a.entries) + (DirectoryTrailer(path) + x)
  {
  }

  /** The same for two listings, from their i-th entries on. */
  lemma {:induction false} EntriesPrefixFree(path: seq<Byte>, a: Tree, b: Tree, i: nat, x: seq<Byte>, y: seq<Byte>)
    requires a.Dir? && b.Dir? && Hashable(path, a) && Hashable(path, b)
    requires i <= |a.entries| && i <= |b.entries|
    requires EntriesStream(path, a.entries[i..]) + (DirectoryTrailer(path) + x)
          == EntriesStream(path, b.entries[i..]) + (DirectoryTrailer(path) + y)
    ensures |a.entries| == |b.entries| && x == y
    ensures forall j :: i <= j < |a.entries| ==>
      a.entries[j].name == b.entries[j].name && SameTree(a.entries[j].node, b.entries[j].node)
    decreases a, 0, |a.entries| - i
  {
    SameStart(path, a, b, i, x, y);
    if i == |a.entries| {
      assert a.entries[i..] == [] == b.entries[i..];
      var trailer := DirectoryTrailer(path);
      assert [] + (trailer + x) == trailer + x && [] + (trailer + y) == trailer + y;
      SameSplit(DirectoryTrailer(path), DirectoryTrailer(path), x, y);
    } else {
      var e, f := a.entries[i], b.entries[i];
      var child := Child(path, e.name);
      var moreA := EntriesStream(path, a.entries[i + 1..]) + (DirectoryTrailer(path) + x);
      var moreB := EntriesStream(path, b.entries[i + 1..]) + (DirectoryTrailer(path) + y);
      OneEntry(path, a.entries, i, DirectoryTrailer(path) + x);
      OneEntry(path, b.entries, i, DirectoryTrailer(path) + y);
      hide *;
      assert Hashable(child, e.node) && Hashable(child, f.node);
      TreePrefixFree(child, e.node, f.node, moreA, moreB);
      EntriesPrefixFree(path, a, b, i + 1, x, y);
    }
  }

  lemma OneEntry(path: seq<Byte>, entries: seq<Entry>, i: nat, x: seq<Byte>)
    requires i < |entries|
    ensures EntriesStream(path, entries[i..]) + x
      == Stream(Child(path, entries[i].name), entries[i].node) + (EntriesStream(path, entries[i + 1..]) + x)
  {
    hide *;
    EntriesFront(path, entries[i..]);
    assert entries[i..][1..] == entries[i + 1..];
    Regroup(Stream(Child(path, entries[i].name), entries[i].node), EntriesStream(path, entries[i + 1..]), x);
  }

  lemma RestHashable(path: seq<Byte>, a: Tree, i: nat)
    requires a.Dir? && Hashable(path, a) && i <= |a.entries|
    ensures Hashable(path, Dir(a.attr, a.entries[i..]))
    ensures i < |a.entries| ==> ValidName(a.entries[i].name)
  {
  }

  lemma EmptyHead(path: seq<Byte>, a: Tree)
    requires a.Dir? && a.entries == []
    ensures HeadPath(path, a) == path
  {
  }

  /** Listings with equal remaining streams either both end here or go on with the same name. */
  lemma SameStart(path: seq<Byte>, a: Tree, b: Tree, i: nat, x: seq<Byte>, y: seq<Byte>)
    requires a.Dir? && b.Dir? && Hashable(path, a) && Hashable(path, b)
    requires i <= |a.entries| && i <= |b.entries|
    requires EntriesStream(path, a.entries[i..]) + (DirectoryTrailer(path) + x)
          == EntriesStream(path, b.entries[i..]) + (DirectoryTrailer(path) + y)
    ensures i == |a.entries| <==> i == |b.entries|
    ensures i < |a.entries| && i < |b.entries| ==> a.entries[i].name == b.entries[i].name
  {
    var da, db := Dir(a.attr, a.entries[i..]), Dir(b.attr, b.entries[i..]);
    Reassociate(path, da, x);
    Reassociate(path, db, y);
    RestHashable(path, a, i);
    RestHashable(path, b, i);
    hide Stream, EntriesStream, DirectoryTrailer, Hashable, HeadPath, HeadTag, Child;
    SameHead(path, da, path, db, x, y);
    if da.entries == [] {
      EmptyHead(path, da);
    } else {
      HeadIsBelow(path, da);
    }
    if db.entries == [] {
      EmptyHead(path, db);
    } else {
      HeadIsBelow(path, db);
      if da.entries != [] {
        SameName(path, da.entries[0].name, db.entries[0].name, HeadPath(path, da));
      }
    }
  }

  // ---- Main results ----

  /** Every path in the tree has a length that fits a machine word. */
  predicate Addressable(path: seq<Byte>, tree: Tree)
    decreases tree
  {
    && |path| < U64_LIMIT
    && (tree.Dir? ==> forall i :: 0 <= i < |tree.entries| ==>
        Addressable(Child(path, tree.entries[i].name), tree.entries[i].node))
  }

  lemma ChildNotRoot(path: seq<Byte>, name: Name)
    requires ValidName(name)
    ensures Child(path, name) != []
  {
  }

  lemma {:induction false} AcceptedIsHashable(walk: Walk, path: seq<Byte>, tree: Tree)
    requires Acceptable(walk, path == [], tree) && Addressable(path, tree)
    ensures Hashable(path, tree)
    decreases tree
  {
    if tree.Dir? {
      forall i | 0 <= i < |tree.entries|
        ensures ValidName(tree.entries[i].name)
        ensures Hashable(Child(path, tree.entries[i].name), tree.entries[i].node)
      {
        ChildNotRoot(path, tree.entries[i].name);
        AcceptedIsHashable(walk, Child(path, tree.entries[i].name), tree.entries[i].node);
      }
    }
  }

  /** Equal trees have equal streams, counts and images. */
  lemma {:induction false} SameTreeSameStream(path: seq<Byte>, a: Tree, b: Tree)
    requires SameTree(a, b)
    ensures Stream(path, a) == Stream(path, b) && Count(a) == Count(b) && Image(a) == Image(b)
    decreases a, 1, 0
  {
    if a.Dir? {
      assert a.entries[..|a.entries|] == a.entries && b.entries[..|b.entries|] == b.entries;
      SameEntriesSameStream(path, a, b, |a.entries|);
    }
  }

  lemma {:induction false} SameEntriesSameStream(path: seq<Byte>, a: Tree, b: Tree, n: nat)
    requires a.Dir? && SameTree(a, b) && n <= |a.entries|
    ensures EntriesStream(path, a.entries[..n]) == EntriesStream(path, b.entries[..n])
    ensures EntriesCount(a.entries[..n]) == EntriesCount(b.entries[..n])
    ensures Images(a.entries[..n]) == Images(b.entries[..n])
    decreases a, 0, n
  {
    if n > 0 {
      var e, f := a.entries[n - 1], b.entries[n - 1];
      SameEntriesSameStream(path, a, b, n - 1);
      SameTreeSameStream(Child(path, e.name), e.node, f.node);
      EntryStep(path, a.entries, n - 1);
      EntryStep(path, b.entries, n - 1);
    }
  }

  /** The hashed bytes determine the tree: two trees a walk accepts have the same preimage
      exactly when they are the same tree, whichever walks hashed them. */
  lemma PreimageDeterminesTree(walk: Walk, a: Tree, walk': Walk, b: Tree)
    requires a.Dir? && Acceptable(walk, true, a) && Addressable([], a)
    requires b.Dir? && Acceptable(walk', true, b) && Addressable([], b)
    ensures Preimage(a) == Preimage(b) <==> SameTree(a, b)
  {
    if Preimage(a) == Preimage(b) {
      AcceptedIsHashable(walk, [], a);
      AcceptedIsHashable(walk', [], b);
      var banner := Lp(Text("git-vws/template-content/v1"));
      SameSplit(banner, banner, Stream([], a), Stream([], b));
      assert Stream([], a) + [] == Stream([], a) && Stream([], b) + [] == Stream([], b);
      TreePrefixFree([], a, b, [], []);
    }
    if SameTree(a, b) {
      SameTreeSameStream([], a, b);
    }
  }

  /** Sealing changes directory modes only: the sealed tree is the same tree, it is accepted
      by every later walk, and addressing is unaffected. */
  lemma {:induction false} SealedIsSame(path: seq<Byte>, root: bool, tree: Tree)
    requires Acceptable(Seal, root, tree)
    ensures SameTree(tree, SealedForm(tree))
    ensures Acceptable(Verify, root, SealedForm(tree)) && Acceptable(Clone, root, SealedForm(tree))
    ensures forall macos :: Acceptable(Publishing(macos), root, SealedForm(tree))
    ensures Addressable(path, tree) ==> Addressable(path, SealedForm(tree))
    decreases tree
  {
    if tree.Dir? {
      var sealed := SealedEntries(tree.entries);
      forall i | 0 <= i < |tree.entries|
        ensures sealed[i].name == tree.entries[i].name && SameTree(tree.entries[i].node, sealed[i].node)
        ensures Acceptable(Verify, false, sealed[i].node) && Acceptable(Clone, false, sealed[i].node)
        ensures forall macos :: Acceptable(Publishing(macos), false, sealed[i].node)
        ensures Addressable(path, tree) ==> Addressable(Child(path, sealed[i].name), sealed[i].node)
      {
        SealedAt(tree.entries, i);
        SealedIsSame(Child(path, tree.entries[i].name), false, tree.entries[i].node);
      }
    }
  }

  lemma {:induction false} SealedAt(entries: seq<Entry>, i: nat)
    requires i < |entries|
    ensures SealedEntries(entries)[i] == Entry(entries[i].name, SealedForm(entries[i].node))
    decreases |entries|
  {
    if i < |entries| - 1 {
      SealedAt(entries[..|entries| - 1], i);
    }
  }

  // ---- Receipts ----

  /** What a template record keeps of a sealed tree. */
  datatype Receipt = Receipt(entries: nat, digest: seq<Byte>)

  /** A linked worktree before cloning: a single `.git` file owned by the user. */
  predicate LinkedWorktree(directory: Tree) {
    && directory.Dir? && |directory.entries| == 1
    && directory.entries[0].name == Text(".git")
    && directory.entries[0].node.File?
    && var attr := directory.entries[0].node.attr;
       attr.owned && attr.plain && attr.nlink == 1 && attr.mode / 16 % 2 == 0 && attr.mode / 2 % 2 == 0
  }

  /** A directory of the user's, private or 0755, that holds a `.git` file and nothing else; the file is
      the user's, has one link, and only the user may write it. */
  predicate FreshWorktree(directory: Tree) {
    && directory.Dir? && directory.attr.owned && directory.attr.plain && 2 <= directory.attr.nlink
    && (directory.attr.mode == 0x1C0 || directory.attr.mode == 0x1ED)
    && |directory.entries| == 1 && directory.entries[0].name == [46, 103, 105, 116]
    && var git := directory.entries[0].node;
       && git.File? && git.attr.owned && git.attr.plain && git.attr.nlink == 1
       && git.attr.mode / 0x10 % 2 == 0 && git.attr.mode / 2 % 2 == 0
  }

  method SealTree(root: Tree, entries: nat, digest: seq<Byte> -> seq<Byte>, calm: bool)
    returns (outcome: Outcome, sealed: Tree, receipt: Receipt)
    requires root.Dir? && DistinctNames(root)
    ensures calm ==> !outcome.IoFailed?
    ensures outcome.Done? ==>
      && Acceptable(Seal, true, root) && sealed == SealedForm(root)
      && receipt == Receipt(entries, digest(Preimage(sealed))) && entries == Count(sealed) < U64_LIMIT
    ensures outcome.Unsupported? ==> !(GoodTree(Seal, true, root) && entries == Count(root) < 0x1_0000_0000_0000_0000)
    ensures calm ==> (outcome.Done? <==> GoodTree(Seal, true, root) && entries == Count(root) < 0x1_0000_0000_0000_0000)
  {
    AcceptableIsGood(Seal, true, root);
    hide GoodTree, Acceptable, DistinctNames, Stream, SealedForm, SameTree, Addressable;
    receipt := Receipt(entries, []);
    var walker := new Walker(calm);
    var copy;
    outcome, sealed, copy := walker.WalkTree(root, [], Seal, root);
    if outcome.Done? {
      SealedIsSame([], true, root);
      SameTreeSameStream([], root, sealed);
      if walker.count != entries {
        return Unsupported, sealed, receipt;
      }
      receipt := Receipt(entries, digest(walker.stream));
    }
  }

  method VerifyTree(root: Tree, expected: Receipt, walk: Walk, digest: seq<Byte> -> seq<Byte>, calm: bool)
    returns (outcome: Outcome)
    requires root.Dir? && DistinctNames(root) && (walk.Verify? || walk.Publishing?)
    ensures calm ==> !outcome.IoFailed?
    ensures outcome.Done? ==>
      Acceptable(walk, true, root) && expected == Receipt(Count(root), digest(Preimage(root)))
    ensures outcome.Unsupported? ==>
      !(GoodTree(walk, true, root) && Count(root) < 0x1_0000_0000_0000_0000
        && expected == Receipt(Count(root), digest(Preimage(root))))
    ensures calm ==>
      (outcome.Done? <==> GoodTree(walk, true, root) && Count(root) < 0x1_0000_0000_0000_0000
                          && expected == Receipt(Count(root), digest(Preimage(root))))
  {
    AcceptableIsGood(walk, true, root);
    hide GoodTree;
    var walker := new Walker(calm);
    var sealed, copy;
    outcome, sealed, copy := walker.WalkTree(root, [], walk, root);
    if outcome.Done? && (walker.count != expected.entries || digest(walker.stream) != expected.digest) {
      outcome := Unsupported;
    }
  }

  method CowClone(source: Tree, destination: Tree, expected: Receipt, digest: seq<Byte> -> seq<Byte>, calm: bool)
    returns (outcome: Outcome, copy: Tree)
    requires source.Dir? && DistinctNames(source) && destination.Dir?
    ensures calm ==> !outcome.IoFailed?
    ensures outcome.Done? ==>
      && LinkedWorktree(destination) && Acceptable(Clone, true, source)
      && expected == Receipt(Count(source), digest(Preimage(source)))
      && copy == Dir(destination.attr.(mode := MODE_0755), destination.entries + Images(source.entries))
    ensures outcome.Unsupported? ==>
      !(FreshWorktree(destination) && GoodTree(Clone, true, source) && Count(source) < 0x1_0000_0000_0000_0000
        && expected == Receipt(Count(source), digest(Preimage(source))))
    ensures calm ==>
      (outcome.Done? <==> FreshWorktree(destination) && GoodTree(Clone, true, source)
                          && Count(source) < 0x1_0000_0000_0000_0000
                          && expected == Receipt(Count(source), digest(Preimage(source))))
  {
    AcceptableIsGood(Clone, true, source);
    hide GoodTree;
    copy := destination;
    if !LinkedWorktree(destination) || !Writable(destination.attr) {
      return Unsupported, copy;
    }
    var walker := new Walker(calm);
    var sealed;
    outcome, sealed, copy := walker.WalkTree(source, [], Clone, destination);
    if outcome.Done? {
      if walker.count != expected.entries || digest(walker.stream) != expected.digest {
        return Unsupported, copy;
      }
      copy := Dir(destination.attr.(mode := MODE_0755), copy.entries);
    }
  }

  /** The life of a template: a tree that a later walk matches against the receipt made when
      `built` was sealed is `built` itself, and cloning it adds exactly the images of `built`'s
      entries, or else two different streams collide under the digest. */
  lemma ReceiptBindsTree(built: Tree, found: Tree, walk: Walk, receipt: Receipt, digest: seq<Byte> -> seq<Byte>)
    requires built.Dir? && Acceptable(Seal, true, built) && Addressable([], built)
    requires found.Dir? && Acceptable(walk, true, found) && Addressable([], found)
    requires receipt.digest == digest(Preimage(SealedForm(built)))
    requires receipt.digest == digest(Preimage(found))
    ensures
      || Preimage(SealedForm(built)) != Preimage(found)
      || (SameTree(built, found) && Images(found.entries) == Images(built.entries) && Count(found) == Count(built))
  {
    var sealed := SealedForm(built);
    SealedIsSame([], true, built);
    if Preimage(sealed) == Preimage(found) {
      SameTreeSameStream([], built, sealed);
      PreimageDeterminesTree(Seal, built, walk, found);
      SameTreeSameStream([], built, found);
      assert Image(built) == Image(found);
    }
  }

  // ---- What is accepted, path by path ----

  /** A name that may be part of a path of a template: not empty, `.` or `..`, without a slash or a
      zero byte, and not `.git` in any case. */
  predicate GoodName(name: Name) {
    && name != [] && name != [46] && name != [46, 46] && 47 !in name && 0 !in name
    && !(|name| == 4 && name[0] == 46 && name[1] in [71, 103] && name[2] in [73, 105] && name[3] in [84, 116])
  }

  /** What `stat` and reading say about a node that may be part of a template. A directory is private
      while it is to be sealed and read-only afterwards, except that the root on macOS is 0755 while
      it is published. A file is 0444 or 0555, a link at most 4096 bytes without a zero byte. */
  predicate GoodNode(walk: Walk, root: bool, node: Tree) {
    match node
    case Dir(attr, entries) =>
      && attr.owned && attr.plain && 2 <= attr.nlink
      && (if walk == Seal then attr.mode == 0x1C0
          else attr.mode == 0x16D || (root && walk == Publishing(true) && attr.mode == 0x1ED))
      && forall i :: 0 <= i < |entries| ==> GoodName(entries[i].name)
    case File(attr, content) =>
      && attr.owned && attr.plain && attr.nlink == 1 && (attr.mode == 0x124 || attr.mode == 0x16D)
      && |content| < 0x1_0000_0000_0000_0000
    case Link(attr, target) => attr.owned && attr.plain && attr.nlink == 1 && |target| <= 0x1000 && 0 !in target
    case Special(_) => false
  }

  /** Good nodes at all paths. */
  ghost predicate GoodTree(walk: Walk, root: bool, tree: Tree) {
    forall path :: Find(tree, path).Some? ==> GoodNode(walk, root && path == [], Find(tree, path).value)
  }

  lemma GoodNames(name: Name)
    ensures GoodName(name) <==> ValidName(name)
  {
  }

  lemma {:induction false} AcceptedIsGood(walk: Walk, root: bool, tree: Tree, path: seq<Name>)
    requires Acceptable(walk, root, tree) && Find(tree, path).Some?
    ensures GoodNode(walk, root && path == [], Find(tree, path).value)
    decreases |path|
  {
    if path == [] {
      if tree.Dir? {
        forall i | 0 <= i < |tree.entries|
          ensures GoodName(tree.entries[i].name)
        {
          GoodNames(tree.entries[i].name);
        }
      }
    } else {
      LookupIn(tree.entries, path[0]);
      AcceptedIsGood(walk, false, Lookup(tree.entries, path[0]).value, path[1..]);
    }
  }

  lemma {:induction false} GoodIsAccepted(walk: Walk, root: bool, tree: Tree)
    requires GoodTree(walk, root, tree) && DistinctNames(tree)
    ensures Acceptable(walk, root, tree)
    decreases tree
  {
    assert Find(tree, []) == Some(tree);
    if tree.Dir? {
      forall i | 0 <= i < |tree.entries|
        ensures ValidName(tree.entries[i].name) && Acceptable(walk, false, tree.entries[i].node)
      {
        var entry := tree.entries[i];
        GoodNames(entry.name);
        LookupAt(tree.entries, i);
        forall path | Find(entry.node, path).Some?
          ensures GoodNode(walk, false, Find(entry.node, path).value)
        {
          assert ([entry.name] + path)[1..] == path;
          assert Find(tree, [entry.name] + path) == Find(entry.node, path);
        }
        GoodIsAccepted(walk, false, entry.node);
      }
    }
  }

  lemma {:induction false} LookupAt(entries: seq<Entry>, i: nat)
    requires i < |entries| && forall j, k :: 0 <= j < k < |entries| ==> entries[j].name != entries[k].name
    ensures Lookup(entries, entries[i].name) == Some(entries[i].node)
  {
    if i > 0 {
      LookupAt(entries[1..], i - 1);
    }
  }

  /** The walk's own test accepts exactly the trees whose nodes are all good. */
  lemma AcceptableIsGood(walk: Walk, root: bool, tree: Tree)
    requires DistinctNames(tree)
    ensures Acceptable(walk, root, tree) <==> GoodTree(walk, root, tree)
  {
    if Acceptable(walk, root, tree) {
      forall path | Find(tree, path).Some?
        ensures GoodNode(walk, root && path == [], Find(tree, path).value)
      {
        AcceptedIsGood(walk, root, tree, path);
      }
    } else if GoodTree(walk, root, tree) {
      GoodIsAccepted(walk, root, tree);
    }
  }

  // ---- What a clone holds, path by path ----

  function Lookup(entries: seq<Entry>, name: Name): Option<Tree> {
    if entries == [] then None
    else if entries[0].name == name then Some(entries[0].node)
    else Lookup(entries[1..], name)
  }

  /** The node at a path, given as the list of its names. */
  function Find(tree: Tree, path: seq<Name>): Option<Tree>
    decreases |path|
  {
    if path == [] then Some(tree)
    else if !tree.Dir? then None
    else
      match Lookup(tree.entries, path[0])
      case None => None
      case Some(node) => Find(node, path[1..])
  }

  /** `copy` is the writable counterpart of `node`: same kind, content and target, write permission added. */
  predicate Counterpart(node: Tree, copy: Tree) {
    match node
    case Dir(_, _) => copy.Dir? && copy.attr.mode == 0x1ED
    case File(attr, content) =>
      && copy.File? && copy.content == content && copy.attr.nlink == 1
      && ((attr.mode == 0x124 && copy.attr.mode == 0x1A4) || (attr.mode == 0x16D && copy.attr.mode == 0x1ED))
    case Link(_, target) => copy.Link? && copy.target == target
    case Special(_) => false
  }

  predicate Corresponds(found: Option<Tree>, copied: Option<Tree>) {
    match found
    case None => copied.None?
    case Some(node) => copied.Some? && Counterpart(node, copied.value)
  }

  lemma {:induction false} LookupImages(entries: seq<Entry>, name: Name)
    ensures match Lookup(entries, name)
            case None => Lookup(Images(entries), name).None?
            case Some(node) => Lookup(Images(entries), name) == Some(Image(node))
  {
    if entries != [] {
      LookupImages(entries[1..], name);
      ImagesFront(entries);
    }
  }

  lemma {:induction false} ImagesFront(entries: seq<Entry>)
    requires entries != []
    ensures Images(entries) == [Entry(entries[0].name, Image(entries[0].node))] + Images(entries[1..])
    decreases |entries|
  {
    var n := |entries| - 1;
    if n > 0 {
      ImagesFront(entries[..n]);
      assert entries[..n][1..] == entries[1..][..n - 1];
    }
  }

  lemma {:induction false} LookupIn(entries: seq<Entry>, name: Name)
    ensures match Lookup(entries, name)
            case None => forall i :: 0 <= i < |entries| ==> entries[i].name != name
            case Some(node) => exists i :: 0 <= i < |entries| && entries[i] == Entry(name, node)
  {
    if entries != [] && entries[0].name != name {
      LookupIn(entries[1..], name);
      if Lookup(entries[1..], name).Some? {
        var i :| 0 <= i < |entries[1..]| && entries[1..][i] == Entry(name, Lookup(entries[1..], name).value);
        assert entries[i + 1] == Entry(name, Lookup(entries, name).value);
      }
    } else if entries != [] {
      assert entries[0] == Entry(name, entries[0].node);
    }
  }

  lemma {:induction false} ImageCorresponds(walk: Walk, root: bool, tree: Tree, path: seq<Name>)
    requires Acceptable(walk, root, tree)
    ensures Corresponds(Find(tree, path), Find(Image(tree), path))
    decreases |path|
  {
    if path != [] && tree.Dir? {
      LookupImages(tree.entries, path[0]);
      LookupIn(tree.entries, path[0]);
      if Lookup(tree.entries, path[0]).Some? {
        ImageCorresponds(walk, false, Lookup(tree.entries, path[0]).value, path[1..]);
      }
    }
  }

  lemma {:induction false} LookupAppend(a: seq<Entry>, b: seq<Entry>, name: Name)
    ensures Lookup(a + b, name) == if Lookup(a, name).Some? then Lookup(a, name) else Lookup(b, name)
  {
    if a == [] {
      assert a + b == b;
    } else {
      LookupAppend(a[1..], b, name);
      assert (a + b)[1..] == a[1..] + b;
    }
  }

  /** A finished clone, path by path: below `.git` it is what the worktree was, and everywhere
      else it has a counterpart for exactly the paths of the sealed tree. */
  lemma CloneIsExact(source: Tree, destination: Tree, path: seq<Name>)
    requires source.Dir? && Acceptable(Clone, true, source) && LinkedWorktree(destination)
    requires path != []
    ensures
      var copy := Dir(destination.attr.(mode := MODE_0755), destination.entries + Images(source.entries));
      && (path[0] == Text(".git") ==> Find(copy, path) == Find(destination, path) && Find(source, path).None?)
      && (path[0] != Text(".git") ==> Corresponds(Find(source, path), Find(copy, path)))
  {
    var name := path[0];
    LookupAppend(destination.entries, Images(source.entries), name);
    LookupImages(source.entries, name);
    LookupIn(source.entries, name);
    assert Lookup(destination.entries, name).Some? <==> name == Text(".git");
    if name == Text(".git") {
      assert IsDotGit(name);
    } else if Lookup(source.entries, name).Some? {
      ImageCorresponds(Clone, false, Lookup(source.entries, name).value, path[1..]);
    }
  }

  // ---- The listing order ----

  lemma {:induction false} LessTransitive(a: Name, b: Name, c: Name)
    requires Less(a, b) && Less(b, c)
    ensures Less(a, c) && a != c
  {
    if a != [] && b != [] && c != [] && a[0] == b[0] == c[0] {
      LessTransitive(a[1..], b[1..], c[1..]);
      assert a == [a[0]] + a[1..] && c == [c[0]] + c[1..];
    }
  }

  predicate Ordered(entries: seq<Entry>) {
    forall i, j :: 0 <= i < j < |entries| ==> Less(entries[i].name, entries[j].name)
  }

  /** Name order makes a directory's listing unique, so a directory's stream does not depend on
      the order in which the file system returns its entries. */
  lemma {:induction false} ListingIsUnique(a: seq<Entry>, b: seq<Entry>)
    requires Ordered(a) && Ordered(b)
    requires forall e :: e in a <==> e in b
    ensures a == b
    decreases |a|
  {
    NonEmpty(a, b);
    NonEmpty(b, a);
    if a != [] {
      assert a[0] in b && b[0] in a;
      var i :| 0 <= i < |b| && b[i] == a[0];
      var j :| 0 <= j < |a| && a[j] == b[0];
      if i > 0 && j > 0 {
        LessTransitive(b[0].name, a[0].name, b[0].name);
      }
      assert a[0] == b[0];
      SameRest(a, b);
      SameRest(b, a);
      ListingIsUnique(a[1..], b[1..]);
      assert a == [a[0]] + a[1..] && b == [b[0]] + b[1..];
    }
  }

  lemma NonEmpty(a: seq<Entry>, b: seq<Entry>)
    requires forall e :: e in a ==> e in b
    ensures a != [] ==> b != []
  {
    if a != [] {
      assert a[0] in b;
    }
  }

  lemma SameRest(a: seq<Entry>, b: seq<Entry>)
    requires Ordered(a) && Ordered(b) && a != [] && b != [] && a[0] == b[0]
    requires forall e :: e in a <==> e in b
    ensures forall e :: e in a[1..] ==> e in b[1..]
  {
    forall e | e in a[1..]
      ensures e in b[1..]
    {
      var i :| 0 <= i < |a[1..]| && a[1..][i] == e;
      assert a[i + 1] == e && e in b;
      if e == b[0] {
        assert Less(a[0].name, a[i + 1].name);
        LessTransitive(e.name, e.name, e.name);
      }
      var k :| 0 <= k < |b| && b[k] == e;
      assert b[1..][k - 1] == e;
    }
  }
}

/** The FIEMAP coverage loop that decides whether a cloned file shares every
    extent with its source (`fiemap_proves_shared` in storage.rs). */
module Fiemap {
  import opened Base

  /** The ioctl buffer holds this many extents. */
  const BATCH: nat := 32

  const LAST: bv32 := 0x0000_0001
  const UNKNOWN: bv32 := 0x0000_0002
  const DELALLOC: bv32 := 0x0000_0004
  const ENCODED: bv32 := 0x0000_0008
  const DATA_ENCRYPTED: bv32 := 0x0000_0080
  const NOT_ALIGNED: bv32 := 0x0000_0100
  const INLINE: bv32 := 0x0000_0200
  const TAIL: bv32 := 0x0000_0400
  const UNWRITTEN: bv32 := 0x0000_0800
  const SHARED: bv32 := 0x0000_2000

  const FORBIDDEN: bv32 :=
    UNKNOWN | DELALLOC | ENCODED | DATA_ENCRYPTED | NOT_ALIGNED | INLINE | TAIL | UNWRITTEN

  /** A 64-bit unsigned machine word. */
  type U64 = n: nat | n < U64_LIMIT

  datatype Extent = Extent(logical: U64, physical: U64, length: U64, flags: bv32)

  type Batch = s: seq<Extent> | |s| == BATCH witness seq(BATCH, _ => Extent(0, 0, 0, 0))

  /** What one ioctl reports for the byte range that starts where the caller asked. */
  datatype Answer = Failed | Mapped(mapped: nat, extents: Batch)

  datatype Verdict = IoFailed | Proven(shared: bool)

  /** An extent that is shared, and free of every flag that makes its addresses unusable. */
  predicate Trusted(e: Extent) {
    e.flags & FORBIDDEN == 0 && e.flags & SHARED != 0
  }

  predicate Twins(left: Extent, right: Extent) {
    left.logical == right.logical && left.physical == right.physical && left.length == right.length
  }

  predicate IsLast(e: Extent) {
    e.flags & LAST != 0
  }

  /** The flag bits as the kernel numbers them: shared, and none of unknown, delayed, encoded,
      encrypted, unaligned, inline, packed and unwritten. */
  lemma TrustedBits(e: Extent)
    ensures Trusted(e) <==>
      && e.flags & 0x2000 == 0x2000
      && e.flags & 0x2 == 0 && e.flags & 0x4 == 0 && e.flags & 0x8 == 0 && e.flags & 0x80 == 0
      && e.flags & 0x100 == 0 && e.flags & 0x200 == 0 && e.flags & 0x400 == 0 && e.flags & 0x800 == 0
    ensures IsLast(e) <==> e.flags & 0x1 == 0x1
  {
  }

  /** `left` and `right` are aligned extent lists that cover [0, upTo) without gaps
      using trusted twin extents, none of which is the last one of a longer file. */
  ghost predicate CoversUpTo(left: seq<Extent>, right: seq<Extent>, upTo: nat) {
    && |left| == |right|
    && (forall i :: 0 <= i < |left| ==>
      Trusted(left[i]) && Trusted(right[i]) && Twins(left[i], right[i]) && 0 < left[i].length)
    && (forall i :: 0 <= i < |left| ==>
      left[i].logical == if i == 0 then 0 else left[i - 1].logical + left[i - 1].length)
    && upTo == if left == [] then 0 else left[|left| - 1].logical + left[|left| - 1].length
  }

  /** Evidence that all `size` bytes are shared: the two lists cover the file, and the
      extent flagged as last is exactly the one that reaches the end. */
  ghost predicate Evidence(left: seq<Extent>, right: seq<Extent>, size: nat) {
    && (exists end :: size <= end && CoversUpTo(left, right, end))
    && (forall i :: 0 <= i < |left| ==>
      (IsLast(left[i]) <==> i == |left| - 1) && (IsLast(right[i]) <==> i == |left| - 1))
    && (forall i :: 0 <= i < |left| - 1 ==> left[i].logical + left[i].length < size)
  }

  /** The extent `e` was reported by the oracle in some answer. */
  ghost predicate Reported(e: Extent, oracle: U64 -> Answer) {
    exists start: U64, i ::
      oracle(start).Mapped? && 0 <= i < oracle(start).mapped <= BATCH && oracle(start).extents[i] == e
  }

  ghost predicate AllReported(extents: seq<Extent>, oracle: U64 -> Answer) {
    forall e :: e in extents ==> Reported(e, oracle)
  }

  /** The oracle answers as the kernel does for the extent list `layout`: asked at an extent
      boundary, it returns the following extents, as many as fit. */
  ghost predicate Describes(oracle: U64 -> Answer, layout: seq<Extent>) {
    forall k :: 0 <= k < |layout| ==>
      var answer := oracle(layout[k].logical);
      var count := if |layout| - k < BATCH then |layout| - k else BATCH;
      answer.Mapped? && answer.mapped == count && answer.extents[..count] == layout[k..k + count]
  }

  /** Both oracles describe well-formed layouts that share every extent. */
  ghost predicate Faithful(
    source: U64 -> Answer, destination: U64 -> Answer, l: seq<Extent>, r: seq<Extent>, size: nat)
  {
    && Describes(source, l) && Describes(destination, r)
    && Evidence(l, r, size)
    && (forall e :: e in l ==> e.logical + e.length < U64_LIMIT)
  }

  /** The loop. `sourceLayout` and `destinationLayout` are arbitrary: the completeness
      clause holds for every pair of layouts the oracles may be describing. */
  method ProvesShared(
    sourceSize: U64, destinationSize: U64,
    source: U64 -> Answer, destination: U64 -> Answer,
    ghost sourceLayout: seq<Extent>, ghost destinationLayout: seq<Extent>)
    returns (verdict: Verdict, ghost left: seq<Extent>, ghost right: seq<Extent>)
    // Soundness: a positive verdict comes with gap-free evidence made of reported extents.
    ensures verdict == Proven(true) ==>
      sourceSize == destinationSize && (sourceSize == 0 || Evidence(left, right, sourceSize))
    ensures verdict == Proven(true) ==>
      AllReported(left, source) && AllReported(right, destination)
    // Completeness: identical, fully shared, well-formed layouts are recognised.
    ensures (sourceSize == destinationSize
             && Faithful(source, destination, sourceLayout, destinationLayout, sourceSize))
            ==> verdict == Proven(true)
    // Nothing but a failing ioctl makes the call fail.
    ensures verdict == IoFailed ==> exists start: U64 :: source(start).Failed? || destination(start).Failed?
  {
    hide *;
    left, right := [], [];
    Begin(sourceSize, sourceLayout, destinationLayout);
    if sourceSize != destinationSize {
      return Proven(false), left, right;
    }
    if sourceSize == 0 {
      return Proven(true), left, right;
    }
    ghost var faithful := Faithful(source, destination, sourceLayout, destinationLayout, sourceSize);
    var covered: U64 := 0;
    ghost var end: nat := 0;
    while covered < sourceSize
      invariant covered == if end < sourceSize then end else sourceSize
      invariant Partial(left, right, end, sourceSize)
      invariant AllReported(left, source)
      invariant AllReported(right, destination)
      invariant faithful ==> Prefixes(left, right, sourceLayout, destinationLayout)
      decreases sourceSize - covered
    {
      if faithful {
        NextAnswer(left, right, sourceLayout, destinationLayout, end, sourceSize, source, destination);
      }
      var sourceMap, destinationMap := source(covered), destination(covered);
      if sourceMap.Failed? || destinationMap.Failed? {
        return IoFailed, left, right;
      }
      var count := sourceMap.mapped;
      if count == 0 || count != destinationMap.mapped || count > BATCH {
        return Proven(false), left, right;
      }
      ghost var start, first := covered, |left|;
      for i := 0 to count
        invariant covered == if end < sourceSize then end else sourceSize
        invariant start <= covered && (i == 0 ==> covered == start) && (0 < i ==> start < covered)
        invariant covered < sourceSize
        invariant Partial(left, right, end, sourceSize)
        invariant |left| == first + i
        invariant AllReported(left, source)
        invariant AllReported(right, destination)
        invariant faithful ==> Prefixes(left, right, sourceLayout, destinationLayout)
      {
        var l, r := sourceMap.extents[i], destinationMap.extents[i];
        if faithful {
          NextAccepted(
            left, right, sourceLayout, destinationLayout, end, sourceSize, source, destination, start, first, i);
        }
        if l.logical != covered || !Twins(l, r) || l.length == 0 || !Trusted(l) || !Trusted(r) {
          return Proven(false), left, right;
        }
        // checked_add: a sum that does not fit ends the proof attempt
        if l.length >= U64_LIMIT - covered {
          return Proven(false), left, right;
        }
        var next: U64 := covered + l.length;
        var reachesEnd := next >= sourceSize;
        if IsLast(l) != reachesEnd || IsLast(r) != reachesEnd {
          return Proven(false), left, right;
        }
        IsReported(start, i, source, left);
        IsReported(start, i, destination, right);
        Extend(left, right, end, sourceSize, l, r);
        left, right, end := left + [l], right + [r], next;
        covered := if next < sourceSize then next else sourceSize;
        if covered == sourceSize {
          break;
        }
      }
    }
    Finish(left, right, end, sourceSize);
    return Proven(true), left, right;
  }

  /** The loop's progress: the lists cover [0, end), and only an extent that reaches the
      end of the file carries the last flag. */
  ghost predicate Partial(left: seq<Extent>, right: seq<Extent>, end: nat, size: nat) {
    && CoversUpTo(left, right, end)
    && (forall i :: 0 <= i < |left| - 1 ==> left[i].logical + left[i].length < size)
    && (forall i :: 0 <= i < |left| ==>
      (IsLast(left[i]) <==> size <= left[i].logical + left[i].length)
      && (IsLast(right[i]) <==> size <= left[i].logical + left[i].length))
  }

  ghost predicate Prefixes(left: seq<Extent>, right: seq<Extent>, l: seq<Extent>, r: seq<Extent>) {
    |left| == |right| && left <= l && right <= r
  }

  /** Appending the next accepted pair keeps the progress invariant. */
  lemma Extend(left: seq<Extent>, right: seq<Extent>, end: nat, size: nat, l: Extent, r: Extent)
    requires Partial(left, right, end, size) && end < size
    requires Trusted(l) && Trusted(r) && Twins(l, r) && 0 < l.length && l.logical == end
    requires IsLast(l) == IsLast(r) == (size <= l.logical + l.length)
    ensures Partial(left + [l], right + [r], end + l.length, size)
  {
    var ls, rs := left + [l], right + [r];
    forall i | 0 <= i < |ls|
      ensures Trusted(ls[i]) && Trusted(rs[i]) && Twins(ls[i], rs[i]) && 0 < ls[i].length
      ensures ls[i].logical == if i == 0 then 0 else ls[i - 1].logical + ls[i - 1].length
    {
      if i < |left| {
        assert ls[i] == left[i] && rs[i] == right[i];
      }
    }
  }

  /** Full progress is evidence. */
  lemma Finish(left: seq<Extent>, right: seq<Extent>, end: nat, size: nat)
    requires Partial(left, right, end, size) && size <= end && 0 < size
    ensures Evidence(left, right, size)
  {
  }

  lemma Begin(size: nat, l: seq<Extent>, r: seq<Extent>)
    ensures Partial([], [], 0, size) && Prefixes([], [], l, r)
    ensures forall oracle :: AllReported([], oracle)
  {
  }

  lemma IsReported(start: U64, i: nat, oracle: U64 -> Answer, known: seq<Extent>)
    requires oracle(start).Mapped? && i < oracle(start).mapped <= BATCH
    requires AllReported(known, oracle)
    ensures AllReported(known + [oracle(start).extents[i]], oracle)
  {
    assert Reported(oracle(start).extents[i], oracle);
  }

  lemma SameEnd(left: seq<Extent>, right: seq<Extent>, end: nat, l: seq<Extent>, r: seq<Extent>, whole: nat)
    requires CoversUpTo(left, right, end) && CoversUpTo(l, r, whole) && Prefixes(left, right, l, r)
    ensures |left| == |l| ==> end == whole
  {
    if |left| == |l| {
      assert left == l;
    }
  }

  /** While bytes remain uncovered, a complete layout has a next extent, and it starts at `end`. */
  lemma NextExtent(left: seq<Extent>, right: seq<Extent>, l: seq<Extent>, r: seq<Extent>, end: nat, size: nat)
    requires Partial(left, right, end, size) && end < size
    requires Evidence(l, r, size) && Prefixes(left, right, l, r)
    ensures |left| < |l| == |r| && l[|left|].logical == end == r[|left|].logical
  {
    var whole :| size <= whole && CoversUpTo(l, r, whole);
    var n := |left|;
    assert left == l[..n] && right == r[..n];
    SameEnd(left, right, end, l, r, whole);
    if 0 < n < |l| {
      assert left[n - 1] == l[n - 1] && right[n - 1] == r[n - 1];
      assert l[n].logical == l[n - 1].logical + l[n - 1].length;
      assert Twins(l[n], r[n]);
    } else if n < |l| {
      assert l[0].logical == 0 && Twins(l[0], r[0]);
    }
  }

  /** Asked at `end`, faithful oracles agree on a usable number of extents. */
  lemma NextAnswer(
    left: seq<Extent>, right: seq<Extent>, l: seq<Extent>, r: seq<Extent>, end: nat, size: nat,
    source: U64 -> Answer, destination: U64 -> Answer)
    requires Partial(left, right, end, size) && end < size < U64_LIMIT
    requires Faithful(source, destination, l, r, size) && Prefixes(left, right, l, r)
    ensures |left| < |l| == |r| && l[|left|].logical == end == r[|left|].logical
    ensures source(end).Mapped? && destination(end).Mapped?
    ensures 0 < source(end).mapped == destination(end).mapped <= BATCH
    ensures source(end).mapped == |l| - |left| || source(end).mapped == BATCH
  {
    NextExtent(left, right, l, r, end, size);
  }

  /** The k-th extent of a complete layout starts where the lists before it end, and passes every test. */
  lemma Acceptable(left: seq<Extent>, right: seq<Extent>, l: seq<Extent>, r: seq<Extent>, end: nat, size: nat)
    requires Partial(left, right, end, size) && end < size
    requires Evidence(l, r, size) && Prefixes(left, right, l, r)
    ensures |left| < |l| == |r|
    ensures
      var a, b := l[|left|], r[|left|];
      && a.logical == end
      && Trusted(a) && Trusted(b) && Twins(a, b) && 0 < a.length
      && IsLast(a) == IsLast(b) == (size <= end + a.length)
      && Prefixes(left + [a], right + [b], l, r)
  {
    NextExtent(left, right, l, r, end, size);
    var whole :| size <= whole && CoversUpTo(l, r, whole);
  }

  /** The i-th extent of an answer is the i-th one after the extent that was asked for. */
  lemma AnswerAt(oracle: U64 -> Answer, layout: seq<Extent>, first: nat, i: nat)
    requires Describes(oracle, layout) && first < |layout|
    requires oracle(layout[first].logical).Mapped? && i < oracle(layout[first].logical).mapped <= BATCH
    ensures first + i < |layout| && oracle(layout[first].logical).extents[i] == layout[first + i]
  {
    var answer := oracle(layout[first].logical);
    var count := if |layout| - first < BATCH then |layout| - first else BATCH;
    assert answer.extents[..count][i] == layout[first..first + count][i];
  }

  /** The i-th extent of a faithful answer is the next extent of the layout, and passes every test. */
  lemma NextAccepted(
    left: seq<Extent>, right: seq<Extent>, l: seq<Extent>, r: seq<Extent>, end: nat, size: nat,
    source: U64 -> Answer, destination: U64 -> Answer, start: U64, first: nat, i: nat)
    requires Partial(left, right, end, size) && end < size
    requires Faithful(source, destination, l, r, size) && Prefixes(left, right, l, r)
    requires first < |l| == |r| && |left| == first + i
    requires l[first].logical == r[first].logical == start
    requires source(start).Mapped? && destination(start).Mapped?
    requires i < source(start).mapped == destination(start).mapped <= BATCH
    ensures
      var a, b := source(start).extents[i], destination(start).extents[i];
      && a.logical == end && end + a.length < U64_LIMIT
      && Trusted(a) && Trusted(b) && Twins(a, b) && 0 < a.length
      && IsLast(a) == IsLast(b) == (size <= end + a.length)
      && Prefixes(left + [a], right + [b], l, r)
  {
    assert l[first + i].logical + l[first + i].length < U64_LIMIT by {
      NextExtent(left, right, l, r, end, size);
      assert l[first + i] in l;
    }
    assert Evidence(l, r, size) && Describes(source, l) && Describes(destination, r);
    hide *;
    Acceptable(left, right, l, r, end, size);
    AnswerAt(source, l, first, i);
    AnswerAt(destination, r, first, i);
  }
}

/** The buffered reader over a Git child's standard output (`GitChild` in git.rs): what it
    returns depends on the bytes of the stream only, never on how the pipe splits them. */
module GitStream {
  import opened Base

  const CHUNK: nat := 8192
  const MAX_PENDING: nat := 1024 * 1024
  const NUL: Byte := 0
  const NEWLINE: Byte := 10

  /** One readiness event of the non-blocking pipe. */
  datatype PipeEvent = Data(bytes: seq<Byte>) | WouldBlock | Interrupted | Broken

  /** The outcome of one `read` system call. */
  datatype Read = Got(bytes: seq<Byte>) | EndOfFile | Again | Retry | ReadError

  /** `Lost` stands for a failing system call, an expired deadline or an overflowing
      error stream: the outcomes that do not depend on the stream's bytes. */
  datatype Failure = TooLong | Unterminated | Truncated | Overflow | Lost

  datatype Reply = Record(bytes: seq<Byte>) | End | Failed(failure: Failure)

  datatype Bytes = Bytes(bytes: seq<Byte>) | Short(failure: Failure)

  /** All bytes still to come out of a pipe with these events. */
  ghost function Unread(events: seq<PipeEvent>): seq<Byte> {
    if events == [] then []
    else (if events[0].Data? then events[0].bytes else []) + Unread(events[1..])
  }

  /** The number of steps left in a schedule: events, counting every byte of data. */
  ghost function Steps(events: seq<PipeEvent>): nat {
    if events == [] then 0
    else 1 + (if events[0].Data? then |events[0].bytes| else 0) + Steps(events[1..])
  }

  /** A pipe delivers no empty chunk, and a calm one no error. */
  ghost predicate WellFormed(events: seq<PipeEvent>, calm: bool) {
    forall i :: 0 <= i < |events| ==> (events[i].Data? ==> events[i].bytes != []) && (calm ==> !events[i].Broken?)
  }

  /** The position of the first `byte` in `s`, or its length when there is none. */
  function Find(s: seq<Byte>, byte: Byte): (index: nat)
    ensures index <= |s| && (forall i :: 0 <= i < index ==> s[i] != byte)
    ensures index < |s| ==> s[index] == byte
  {
    if s == [] || s[0] == byte then 0 else 1 + Find(s[1..], byte)
  }

  /** The specification of one record: what the front of the whole remaining stream holds. */
  function FirstRecord(stream: seq<Byte>, limit: nat): Reply {
    var index := Find(stream, NUL);
    if index > limit then Failed(TooLong)
    else if index < |stream| then Record(stream[..index])
    else if stream == [] then End
    else Failed(Unterminated)
  }

  /** The specification of one line: at most `limit` bytes up to and with the line break. */
  function FirstLine(stream: seq<Byte>, limit: nat): Bytes {
    var index := Find(stream, NEWLINE);
    if index < limit && index < |stream| then Bytes(stream[..index])
    else if limit <= |stream| then Short(TooLong)
    else Short(Truncated)
  }

  /** What the front of a stream is read as: a record is what comes before the first zero byte, which
      is within the limit and one byte more. */
  lemma RecordIs(stream: seq<Byte>, limit: nat, record: seq<Byte>)
    ensures FirstRecord(stream, limit) == Record(record) <==> |record| <= limit && 0 !in record && record + [0] <= stream
    ensures FirstRecord(stream, limit) == End <==> stream == []
    ensures FirstRecord(stream, limit) == Failed(TooLong) <==> limit < |stream| && 0 !in stream[..limit + 1]
    ensures FirstRecord(stream, limit) == Failed(Unterminated) <==> 0 < |stream| <= limit && 0 !in stream
  {
    FirstAt(stream, 0, record);
    FirstBeyond(stream, 0, limit);
    var index := Find(stream, 0);
    if index < |stream| {
      assert stream[index] in stream;
    }
  }

  /** The same for a line, whose line break counts towards the limit. */
  lemma LineIs(stream: seq<Byte>, limit: nat, line: seq<Byte>)
    ensures FirstLine(stream, limit) == Bytes.Bytes(line) <==> |line| < limit && 10 !in line && line + [10] <= stream
    ensures FirstLine(stream, limit) == Short(TooLong) <==> limit <= |stream| && 10 !in stream[..limit]
    ensures FirstLine(stream, limit) == Short(Truncated) <==> |stream| < limit && 10 !in stream
  {
    FirstAt(stream, 10, line);
    var index := Find(stream, 10);
    if index < |stream| {
      assert stream[index] in stream;
    }
    if limit > 0 {
      FirstBeyond(stream, 10, limit - 1);
    }
  }

  /** A prefix without the byte, followed by the byte, is what comes before the first one. */
  lemma FirstAt(stream: seq<Byte>, byte: Byte, front: seq<Byte>)
    ensures byte !in front && front + [byte] <= stream <==> Find(stream, byte) == |front| < |stream| && stream[..|front|] == front
  {
    var index := Find(stream, byte);
    if byte !in front && front + [byte] <= stream {
      assert stream[|front|] == (front + [byte])[|front|] == byte;
      assert stream[..|front|] == front;
    }
    if index == |front| < |stream| && stream[..|front|] == front {
      assert front + [byte] == stream[..|front| + 1];
    }
  }

  lemma FirstBeyond(stream: seq<Byte>, byte: Byte, limit: nat)
    ensures limit < Find(stream, byte) <==> limit < |stream| && byte !in stream[..limit + 1]
  {
    var index := Find(stream, byte);
    if limit < |stream| && index <= limit {
      assert stream[..limit + 1][index] == byte;
    }
  }

  /** The specification of a whole listing. */
  function Split(stream: seq<Byte>, limit: nat): (result: (seq<seq<Byte>>, Reply))
    ensures !result.1.Record?
  {
    var first := FirstRecord(stream, limit);
    if first.Record? then
      var rest := Split(stream[|first.bytes| + 1..], limit);
      ([first.bytes] + rest.0, rest.1)
    else ([], first)
  }

  ghost function Prepend(front: seq<seq<Byte>>, result: (seq<seq<Byte>>, Reply)): (seq<seq<Byte>>, Reply) {
    (front + result.0, result.1)
  }

  /** NUL-terminated records, one after the other. */
  function Join(records: seq<seq<Byte>>): seq<Byte> {
    if records == [] then [] else records[0] + [NUL] + Join(records[1..])
  }

  /** A record the reader may return. */
  predicate Plain(record: seq<Byte>, limit: nat) {
    |record| <= limit && forall i :: 0 <= i < |record| ==> record[i] != NUL
  }

  class GitChild {
    var events: seq<PipeEvent>
    var pending: seq<Byte>
    var eof: bool

    /** On a calm run no deadline passes and no read fails. */
    const calm: bool

    ghost const stream: seq<Byte>
    ghost var consumed: seq<Byte>
    /** Set once an error was reported; the child is then killed and not read again. */
    ghost var failed: bool

    /** Nothing is lost or duplicated: the stream is what was handed out, then what is
        buffered, then what the pipe still holds. */
    ghost predicate Valid()
      reads this
    {
      && (!failed ==> consumed + pending + Unread(events) == stream)
      && (eof ==> events == [])
      && WellFormed(events, calm)
    }

    /** What the next read starts from. */
    ghost function Rest(): seq<Byte>
      reads this
    {
      pending + Unread(events)
    }

    constructor (events: seq<PipeEvent>, calm: bool)
      requires WellFormed(events, calm)
      ensures Valid() && !failed && consumed == [] && stream == Unread(events) == Rest() && this.calm == calm
    {
      this.events, this.calm := events, calm;
      pending, consumed, eof, failed := [], [], false, false;
      stream := Unread(events);
    }

    /** One non-blocking `read` into a buffer of `size` bytes. */
    method ReadPipe(size: nat) returns (r: Read)
      requires Valid() && 0 < size
      modifies this`events
      ensures r.Got? ==> 0 < |r.bytes| <= size && r.bytes + Unread(events) == old(Unread(events))
      ensures !r.Got? ==> Unread(events) == old(Unread(events))
      ensures r.EndOfFile? <==> old(events) == []
      ensures events != [] ==> old(events) != []
      ensures r.EndOfFile? ==> events == [] && Unread(events) == []
      ensures old(events) != [] ==> Steps(events) < old(Steps(events))
      ensures WellFormed(events, calm) && (eof ==> events == []) && (calm ==> !r.ReadError?)
    {
      if events == [] {
        return EndOfFile;
      }
      var event := events[0];
      assert events == [event] + events[1..];
      match event
      case WouldBlock =>
        events := events[1..];
        return Again;
      case Interrupted =>
        events := events[1..];
        return Retry;
      case Broken =>
        events := events[1..];
        return ReadError;
      case Data(bytes) =>
        if |bytes| <= size {
          events := events[1..];
          return Got(bytes);
        }
        r := Got(bytes[..size]);
        assert bytes == bytes[..size] + bytes[size..];
        assert ([Data(bytes[size..])] + events[1..])[1..] == events[1..];
        events := [Data(bytes[size..])] + events[1..];
    }

    /** `expired`, `note_progress`, `wait_batch_activity` and `drain_batch_stderr`: they may
        fail, and do nothing to standard output. */
    method Housekeep() returns (ok: bool)
      ensures calm ==> ok
    {
      ok := calm;
      if !calm {
        ok := *;
      }
    }

    method ReadNulRecord(limit: nat) returns (reply: Reply)
      requires Valid() && !failed
      modifies this
      ensures Valid() && (failed <==> reply.Failed?)
      ensures reply == Failed(Lost) || reply == FirstRecord(old(Rest()), limit)
      ensures calm ==> reply != Failed(Lost)
      ensures reply.Record? ==>
        Rest() == old(Rest())[|reply.bytes| + 1..] && consumed == old(consumed) + (reply.bytes + [NUL])
      ensures reply.End? ==> Rest() == [] && consumed == old(consumed) == stream
    {
      hide Unread, Steps, Find, FirstRecord;
      while true
        invariant Valid() && !failed
        invariant Rest() == old(Rest()) && consumed == old(consumed)
        decreases Steps(events)
      {
        var index := Find(pending, NUL);
        FrontDecides(pending, Unread(events), limit);
        if index < |pending| {
          if index > limit {
            failed := true;
            return Failed(TooLong);
          }
          reply := Record(pending[..index]);
          Shift(consumed, pending, index + 1, Unread(events));
          assert pending[..index + 1] == reply.bytes + [NUL];
          consumed, pending := consumed + (reply.bytes + [NUL]), pending[index + 1..];
          return;
        }
        if |pending| > limit {
          failed := true;
          return Failed(TooLong);
        }
        var live := Housekeep();
        if !live {
          failed := true;
          return Failed(Lost);
        }
        var r := ReadPipe(CHUNK);
        match r {
        case EndOfFile =>
          eof := true;
          assert pending + Unread(events) == pending;
          if pending == [] {
            return End;
          }
          failed := true;
          return Failed(Unterminated);
        case Got(bytes) =>
          Extend(consumed, pending, bytes, Unread(events));
          pending := pending + bytes;
        case Retry =>
          continue;
        case Again =>
        case ReadError =>
          failed := true;
          return Failed(Lost);
        }
        live := Housekeep();
        if !live {
          failed := true;
          return Failed(Lost);
        }
      }
    }

    /** The listing loop of `manifest_pass` and `materialize`. */
    method ReadListing(limit: nat) returns (records: seq<seq<Byte>>, last: Reply)
      requires Valid() && !failed
      modifies this
      ensures Valid() && !last.Record?
      ensures last == Failed(Lost) || (records, last) == Split(old(Rest()), limit)
      ensures calm ==> last != Failed(Lost)
      ensures last.End? ==> Rest() == [] && consumed == stream
    {
      hide Unread, Steps, Find, FirstRecord, Split;
      records := [];
      SplitUnfold(Rest(), [], limit);
      last := ReadNulRecord(limit);
      while last.Record?
        invariant Valid() && (failed <==> last.Failed?)
        invariant last.Record? ==>
          Prepend(records + [last.bytes], Split(Rest(), limit)) == Split(old(Rest()), limit)
        invariant calm ==> last != Failed(Lost)
        invariant !last.Record? && last != Failed(Lost) ==> (records, last) == Split(old(Rest()), limit)
        invariant last.End? ==> Rest() == [] && consumed == stream
        decreases if last.Record? then 1 + |Rest()| else 0
      {
        records := records + [last.bytes];
        SplitUnfold(Rest(), records, limit);
        last := ReadNulRecord(limit);
      }
    }

    /** One turn of the `read_exact_stdout` loop: buffered bytes first, then the pipe. */
    method ReadSome(size: nat) returns (r: Read)
      requires Valid() && !failed && 0 < size
      modifies this`events, this`pending, this`consumed
      ensures Valid()
      ensures r.Got? ==>
        0 < |r.bytes| <= size && r.bytes + Rest() == old(Rest()) && consumed == old(consumed) + r.bytes
      ensures !r.Got? ==> Rest() == old(Rest()) && consumed == old(consumed)
      ensures r.EndOfFile? ==> Rest() == []
      ensures calm ==> !r.ReadError?
      ensures !r.EndOfFile? ==> Steps(events) + |pending| < old(Steps(events) + |pending|)
    {
      hide Unread, Steps;
      var copied := if size < |pending| then size else |pending|;
      if copied != 0 {
        r := Got(pending[..copied]);
        ghost var unread := Unread(events);
        Regroup(consumed, r.bytes, pending[copied..], unread, pending);
        consumed, pending := consumed + r.bytes, pending[copied..];
        return;
      }
      ghost var unread := Unread(events);
      assert pending + unread == unread;
      r := ReadPipe(size);
      assert pending + Unread(events) == Unread(events);
      if r.Got? {
        Regroup(consumed, r.bytes, pending, Unread(events), r.bytes);
        consumed := consumed + r.bytes;
      }
    }

    method ReadExactStdout(size: nat) returns (r: Bytes)
      requires Valid() && !failed
      modifies this
      ensures Valid() && (failed <==> r.Short?)
      ensures r == Short(Lost) ||
        r == if size <= |old(Rest())| then Bytes(old(Rest())[..size]) else Short(Truncated)
      ensures calm ==> r != Short(Lost)
      ensures r.Bytes? ==> Rest() == old(Rest())[size..] && consumed == old(consumed) + r.bytes
    {
      hide Unread, Steps, Rest;
      var out: seq<Byte> := [];
      assert out + Rest() == Rest();
      while |out| < size
        invariant Valid() && !failed && |out| <= size
        invariant out + Rest() == old(Rest())
        invariant consumed == old(consumed) + out
        decreases Steps(events) + |pending|
      {
        var live := Housekeep();
        if !live {
          failed := true;
          return Short(Lost);
        }
        ghost var rest := Rest();
        var read := ReadSome(size - |out|);
        match read {
        case EndOfFile =>
          failed := true;
          return Short(Truncated);
        case Got(bytes) =>
          assert out + (bytes + Rest()) == (out + bytes) + Rest();
          assert old(consumed) + (out + bytes) == (old(consumed) + out) + bytes;
          out := out + bytes;
        case Retry =>
          continue;
        case Again =>
        case ReadError =>
          failed := true;
          return Short(Lost);
        }
        live := Housekeep();
        if !live {
          failed := true;
          return Short(Lost);
        }
      }
      Taken(out, Rest(), old(Rest()));
      r := Bytes(out);
    }

    method ReadLineStdout(limit: nat) returns (r: Bytes)
      requires Valid() && !failed
      modifies this
      ensures Valid() && (failed <==> r.Short?)
      ensures r == Short(Lost) || r == FirstLine(old(Rest()), limit)
      ensures calm ==> r != Short(Lost)
      ensures r.Bytes? ==> Rest() == old(Rest())[|r.bytes| + 1..]
      ensures r.Bytes? ==> consumed == old(consumed) + r.bytes + [NEWLINE]
    {
      hide *;
      var line: seq<Byte> := [];
      ghost var whole := Rest();
      assert line + Rest() == whole;
      while |line| < limit
        invariant Valid() && !failed && |line| <= limit
        invariant line + Rest() == whole && consumed == old(consumed) + line
        invariant forall i :: 0 <= i < |line| ==> line[i] != NEWLINE
      {
        ghost var rest := Rest();
        LineEnds(line, rest, limit);
        var read := ReadExactStdout(1);
        if read.Short? {
          assert read == Short(Lost) || rest == [];
          return read;
        }
        assert rest != [] && read.bytes == rest[..1] && Rest() == rest[1..];
        if read.bytes[0] == NEWLINE {
          assert rest[0] == NEWLINE;
          return Bytes(line);
        }
        line := line + read.bytes;
      }
      LineEnds(line, Rest(), limit);
      Fail();
      r := Short(TooLong);
    }

    /** The error is about to be reported. */
    method Fail()
      requires Valid()
      modifies this`failed
      ensures Valid() && failed
    {
      failed := true;
    }

    /** Makes room in the pipe while a request is being written. */
    method DrainBatchStdout() returns (ok: bool)
      requires Valid() && !failed
      modifies this
      ensures Valid() && failed == !ok
      ensures ok ==> Rest() == old(Rest()) && old(pending) <= pending && consumed == old(consumed)
      ensures ok && old(|pending|) <= MAX_PENDING ==> |pending| <= MAX_PENDING
      ensures calm && |old(Rest())| <= MAX_PENDING ==> ok
    {
      hide Unread, Steps;
      while true
        invariant Valid() && !failed
        invariant Rest() == old(Rest()) && old(pending) <= pending && consumed == old(consumed)
        invariant old(|pending|) <= MAX_PENDING ==> |pending| <= MAX_PENDING
        decreases Steps(events)
      {
        var r := ReadPipe(CHUNK);
        match r {
        case EndOfFile =>
          eof := true;
          return true;
        case Got(bytes) =>
          if |pending| + |bytes| > MAX_PENDING {
            failed := true;
            return false;
          }
          Extend(consumed, pending, bytes, Unread(events));
          pending := pending + bytes;
          var live := Housekeep();
          if !live {
            failed := true;
            return false;
          }
        case Retry =>
        case Again =>
          return true;
        case ReadError =>
          failed := true;
          return false;
        }
      }
    }
  }

  /** Moving the first `n` buffered bytes to what was handed out changes nothing in total. */
  lemma Shift(out: seq<Byte>, buffer: seq<Byte>, n: nat, back: seq<Byte>)
    requires n <= |buffer|
    ensures out + (buffer + back) == (out + buffer[..n]) + (buffer[n..] + back)
    ensures out + buffer + back == (out + buffer[..n]) + buffer[n..] + back
    ensures (buffer + back)[n..] == buffer[n..] + back
    ensures (buffer + back)[..n] == buffer[..n]
  {
    assert buffer == buffer[..n] + buffer[n..];
  }

  /** Handing out the front `head` of a buffer `head + tail` keeps the total. */
  lemma Regroup(out: seq<Byte>, head: seq<Byte>, tail: seq<Byte>, back: seq<Byte>, buffer: seq<Byte>)
    requires buffer == head + tail
    ensures (out + head) + tail + back == out + buffer + back
    ensures head + (tail + back) == buffer + back
    ensures tail == [] ==> (out + head) + tail + back == out + [] + (head + back)
  {
  }

  lemma Taken(out: seq<Byte>, rest: seq<Byte>, whole: seq<Byte>)
    requires out + rest == whole
    ensures |out| <= |whole| && out == whole[..|out|] && rest == whole[|out|..]
  {
  }

  /** Buffering a chunk of the pipe changes nothing in total. */
  lemma Extend(out: seq<Byte>, buffer: seq<Byte>, chunk: seq<Byte>, back: seq<Byte>)
    ensures buffer + (chunk + back) == (buffer + chunk) + back
    ensures out + buffer + (chunk + back) == out + (buffer + chunk) + back
    ensures out + (chunk + back) == (out + chunk) + back
  {
  }

  /** Looking in the front part of a stream finds what looking in the whole finds, if it is there. */
  lemma FindInFront(front: seq<Byte>, back: seq<Byte>, byte: Byte)
    ensures Find(front, byte) < |front| ==> Find(front + back, byte) == Find(front, byte)
    ensures Find(front, byte) == |front| ==> Find(front + back, byte) == |front| + Find(back, byte)
  {
    FindIsFirst(front + back, byte,
      if Find(front, byte) < |front| then Find(front, byte) else |front| + Find(back, byte));
  }

  /** The only index with the properties of `Find` is `Find`. */
  lemma FindIsFirst(s: seq<Byte>, byte: Byte, index: nat)
    requires index <= |s| && (forall i :: 0 <= i < index ==> s[i] != byte)
    requires index < |s| ==> s[index] == byte
    ensures Find(s, byte) == index
  {
    var found := Find(s, byte);
    assert found < |s| ==> s[found] == byte;
  }

  /** The buffered part of a stream already decides the first record, unless it holds no
      terminator and is within the limit. */
  lemma FrontDecides(front: seq<Byte>, back: seq<Byte>, limit: nat)
    ensures
      var index, first := Find(front, NUL), FirstRecord(front + back, limit);
      && (index < |front| ==> first == if index > limit then Failed(TooLong) else Record(front[..index]))
      && (index == |front| > limit ==> first == Failed(TooLong))
      && (index == |front| <= limit && back == [] ==> first == if front == [] then End else Failed(Unterminated))
  {
    FindInFront(front, back, NUL);
    assert Find(front, NUL) < |front| ==> (front + back)[..Find(front, NUL)] == front[..Find(front, NUL)];
  }

  /** What the next byte says about the position of the first `byte`. */
  lemma NextByte(line: seq<Byte>, rest: seq<Byte>, byte: Byte)
    requires forall i :: 0 <= i < |line| ==> line[i] != byte
    ensures rest != [] && rest[0] == byte ==>
      Find(line + rest, byte) == |line| && (line + rest)[..|line|] == line && (line + rest)[|line| + 1..] == rest[1..]
    ensures rest == [] ==> Find(line + rest, byte) == |line|
    ensures rest != [] ==> line + rest == (line + [rest[0]]) + rest[1..]
    ensures |line| <= Find(line + rest, byte)
  {
    FindIsFirst(line, byte, |line|);
    FindInFront(line, rest, byte);
  }

  /** What the next byte of a line decides. */
  lemma LineEnds(line: seq<Byte>, rest: seq<Byte>, limit: nat)
    requires |line| <= limit && forall i :: 0 <= i < |line| ==> line[i] != NEWLINE
    ensures |line| == limit ==> FirstLine(line + rest, limit) == Short(TooLong)
    ensures |line| < limit && rest == [] ==> FirstLine(line + rest, limit) == Short(Truncated)
    ensures |line| < limit && rest != [] && rest[0] == NEWLINE ==>
      && FirstLine(line + rest, limit) == Bytes(line)
      && (line + rest)[|line| + 1..] == rest[1..] && rest[..1] == [NEWLINE]
    ensures rest != [] ==> rest[..1] == [rest[0]] && line + rest == (line + rest[..1]) + rest[1..]
  {
    NextByte(line, rest, NEWLINE);
  }

  /** One step of `Split`, seen from the records read so far. */
  lemma SplitUnfold(stream: seq<Byte>, records: seq<seq<Byte>>, limit: nat)
    ensures
      var first := FirstRecord(stream, limit);
      Prepend(records, Split(stream, limit)) ==
      if first.Record? then Prepend(records + [first.bytes], Split(stream[|first.bytes| + 1..], limit))
      else (records, first)
    ensures Prepend([], Split(stream, limit)) == Split(stream, limit)
  {
    var first := FirstRecord(stream, limit);
    assert [] + Split(stream, limit).0 == Split(stream, limit).0;
    if first.Record? {
      var rest := Split(stream[|first.bytes| + 1..], limit);
      assert records + ([first.bytes] + rest.0) == (records + [first.bytes]) + rest.0;
    } else {
      assert records + [] == records;
    }
  }

  /** Splitting undoes joining: every list of records within the limit is read back unchanged. */
  lemma {:induction false} SplitJoin(records: seq<seq<Byte>>, limit: nat)
    requires forall i :: 0 <= i < |records| ==> Plain(records[i], limit)
    ensures Split(Join(records), limit) == (records, End)
  {
    if records != [] {
      var record, tail := records[0], Join(records[1..]);
      var stream := Join(records);
      assert stream == record + [NUL] + tail;
      FindIsFirst(stream, NUL, |record|);
      assert stream[..|record|] == record && stream[|record| + 1..] == tail;
      SplitJoin(records[1..], limit);
      assert records == [record] + records[1..];
    }
  }

  /** `records` are the front of the stream, and `last` is what follows them. */
  ghost predicate JoinsUp(stream: seq<Byte>, records: seq<seq<Byte>>, last: Reply, limit: nat) {
    && (forall i :: 0 <= i < |records| ==> Plain(records[i], limit))
    && |Join(records)| <= |stream|
    && stream == Join(records) + stream[|Join(records)|..]
    && last == FirstRecord(stream[|Join(records)|..], limit)
  }

  /** Joining undoes splitting, also up to the point where a listing is rejected: the accepted
      records are exactly the front of the stream, and what follows them is what was rejected. */
  lemma {:induction false} JoinSplit(stream: seq<Byte>, limit: nat)
    ensures JoinsUp(stream, Split(stream, limit).0, Split(stream, limit).1, limit)
    decreases |stream|
  {
    var first := FirstRecord(stream, limit);
    if first.Record? {
      var rest := stream[|first.bytes| + 1..];
      JoinSplit(rest, limit);
      JoinsUpCons(first.bytes, stream, Split(rest, limit).0, Split(rest, limit).1, limit);
    }
  }

  lemma JoinsUpCons(record: seq<Byte>, stream: seq<Byte>, records: seq<seq<Byte>>, last: Reply, limit: nat)
    requires FirstRecord(stream, limit) == Record(record)
    requires |record| < |stream| && JoinsUp(stream[|record| + 1..], records, last, limit)
    ensures JoinsUp(stream, [record] + records, last, limit)
  {
    assert Plain(record, limit) && stream[..|record|] == record && stream[|record|] == NUL;
    hide Find, FirstRecord, Plain, Join;
    JoinCons(record, stream, Join(records));
    JoinFirst(record, records);
  }

  lemma JoinFirst(record: seq<Byte>, records: seq<seq<Byte>>)
    ensures Join([record] + records) == record + [NUL] + Join(records)
  {
    assert ([record] + records)[1..] == records;
  }

  lemma JoinCons(record: seq<Byte>, stream: seq<Byte>, joined: seq<Byte>)
    requires |record| < |stream| && stream[..|record|] == record && stream[|record|] == NUL
    requires |joined| <= |stream| - |record| - 1
    requires stream[|record| + 1..] == joined + stream[|record| + 1..][|joined|..]
    ensures stream == (record + [NUL] + joined) + stream[|record| + 1 + |joined|..]
    ensures stream[|record| + 1 + |joined|..] == stream[|record| + 1..][|joined|..]
  {
    assert stream == record + [NUL] + stream[|record| + 1..];
  }

  /** A listing is accepted exactly when it is a sequence of terminated records within the limit. */
  lemma AcceptedIffJoined(stream: seq<Byte>, limit: nat)
    ensures
      Split(stream, limit).1.End? <==>
      exists records: seq<seq<Byte>> ::
        (forall i :: 0 <= i < |records| ==> Plain(records[i], limit)) && stream == Join(records)
  {
    if Split(stream, limit).1.End? {
      JoinSplit(stream, limit);
      assert stream == Join(Split(stream, limit).0);
    }
    if records: seq<seq<Byte>> :|
      (forall i :: 0 <= i < |records| ==> Plain(records[i], limit)) && stream == Join(records)
    {
      SplitJoin(records, limit);
    }
  }
}

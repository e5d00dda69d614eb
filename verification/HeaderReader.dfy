/** `_BoundedHeaderReader` in linkmoth_handler.py: a buffered reader that enforces a deadline and
    header budgets, and must otherwise behave like the plain stream below it. */
module HeaderReader {
  import opened ByteStreams

  const MAX_HTTP_HEADER_BYTES: int := 32 * 1024
  const MAX_HTTP_HEADER_COUNT: int := 64
  /** Milliseconds; also the smallest timeout that is ever set on the socket. */
  const HEADER_POLL: int := 500
  const MIN_TIMEOUT: int := 1

  /** The original raises the timeout both when the deadline has passed and when waiting or reading
      fails. After the headers an error of the socket comes through as it is. */
  datatype Outcome =
    | Line(line: seq<byte>)
    | HeaderReadTimeout(readFailed: bool)
    | HeaderLimitExceeded
    | BodyReadFailed

  datatype Pulled = Progress | EndOfStream | DeadlinePassed | ReadFailed

  lemma CutPrefix<T>(a: seq<T>, b: seq<T>, n: nat)
    requires n <= |a|
    ensures a + b == a[..n] + (a[n..] + b)
    ensures (a + b)[..n] == a[..n]
  {
  }

  predicate IsBlank(line: seq<byte>) {
    line == [] || line == [NEWLINE] || line == [RETURN, NEWLINE]
  }

  class BoundedHeaderReader {
    const source: Source
    const connection: Connection
    const deadline: int
    const hasDescriptor: bool
    var active: bool
    var bytes: int
    var lines: int
    var sawRequestLine: bool
    var buf: seq<byte>
    /** What the connection carries, and how much of it has left the buffer. */
    ghost const original: seq<byte>
    ghost var taken: seq<byte>

    /** Everything that can still be read. */
    ghost function Stream(): seq<byte>
      reads this, source
    {
      buf + source.rest
    }

    /** No byte is lost, repeated or reordered, and at most one byte beyond the cap is pulled. */
    ghost predicate Valid()
      reads this, source
    {
      && original == taken + Stream()
      && (active ==> bytes == |taken| && bytes + |buf| <= MAX_HTTP_HEADER_BYTES + 1)
    }

    constructor (source: Source, connection: Connection, deadline: int, hasDescriptor: bool)
      ensures Valid() && active && fresh(this)
      ensures this.source == source && this.connection == connection && this.deadline == deadline
      ensures original == source.rest && taken == [] && buf == []
      ensures bytes == 0 && lines == 0 && !sawRequestLine
    {
      this.source, this.connection, this.deadline, this.hasDescriptor := source, connection, deadline, hasDescriptor;
      active, bytes, lines, sawRequestLine, buf := true, 0, 0, false, [];
      original, taken := source.rest, [];
    }

    /** One guarded `read1` into the buffer. It may only be called before the deadline has passed. */
    method Fill(size: int) returns (failed: bool, eof: bool)
      requires size > 0 && connection.now <= deadline
      modifies this`buf, source, connection
      ensures Stream() == old(Stream())
      ensures old(buf) <= buf && |buf| <= |old(buf)| + size
      ensures !failed && !eof ==> |source.rest| < |old(source.rest)|
      ensures |source.rest| <= |old(source.rest)|
      ensures failed ==> buf == old(buf) && source.broken
      ensures !failed && eof ==> source.rest == [] && buf == old(buf)
      ensures old(connection.now) <= connection.now <= deadline + MIN_TIMEOUT
    {
      var timeout := if MIN_TIMEOUT < deadline - connection.now then deadline - connection.now else MIN_TIMEOUT;
      connection.Pass(timeout);
      var chunk;
      failed, chunk := source.Read1(size);
      eof := chunk == [];
      buf := buf + chunk;
      assert Stream() == old(buf) + (chunk + source.rest);
    }

    /** Wait for data, one poll at most. Bytes that TLS has already decrypted, and streams without a
        descriptor, need no waiting. */
    method AwaitReadable(remaining: int) returns (failed: bool, ready: bool)
      requires remaining == deadline - connection.now > 0
      modifies connection
      ensures old(connection.now) <= connection.now <= deadline
      ensures failed ==> connection.broken
      ensures !failed && !ready ==> old(connection.now) < connection.now
    {
      var pending := *;
      failed, ready := false, true;
      if hasDescriptor && !pending {
        failed, ready := connection.Select(if HEADER_POLL < remaining then HEADER_POLL else remaining);
      }
    }

    /** One round of waiting and reading for a line that is not complete yet. */
    method Pull(size: int) returns (pulled: Pulled)
      requires size > 0
      modifies this`buf, source, connection
      ensures Stream() == old(Stream())
      ensures |old(buf)| <= |buf| <= |old(buf)| + size
      ensures old(connection.now) <= connection.now
      ensures connection.now <= old(connection.now) || connection.now <= deadline + MIN_TIMEOUT
      ensures pulled == DeadlinePassed ==> connection.now >= deadline
      ensures pulled == ReadFailed ==> source.broken || connection.broken
      ensures pulled == EndOfStream ==> source.rest == []
      ensures pulled != Progress ==> buf == old(buf)
      ensures pulled == Progress ==>
        && old(connection.now) < deadline
        && |source.rest| <= |old(source.rest)|
        && (|source.rest| < |old(source.rest)| || connection.now > old(connection.now))
    {
      var remaining := deadline - connection.now;
      if remaining <= 0 {
        return DeadlinePassed;
      }
      var failed, ready := AwaitReadable(remaining);
      if failed {
        return ReadFailed;
      }
      if !ready {
        return Progress;
      }
      var eof;
      failed, eof := Fill(size);
      return if failed then ReadFailed else if eof then EndOfStream else Progress;
    }

    /** `_read_bounded_line`: the next line of the stream, cut at `boundedSize`. */
    method ReadBoundedLine(boundedSize: int) returns (outcome: Outcome)
      requires boundedSize >= 0
      modifies this`buf, source, connection
      ensures !outcome.HeaderLimitExceeded? && !outcome.BodyReadFailed?
      ensures outcome.Line? ==> outcome.line == PlainLine(old(Stream()), boundedSize)
      ensures old(Stream()) == (if outcome.Line? then outcome.line else []) + Stream()
      ensures (if outcome.Line? then |outcome.line| else 0) + |buf| <=
              if |old(buf)| <= boundedSize then boundedSize else |old(buf)|
      ensures outcome.HeaderReadTimeout? ==>
        if outcome.readFailed then source.broken || connection.broken else connection.now >= deadline
      ensures connection.now <= old(connection.now) || connection.now <= deadline + MIN_TIMEOUT
    {
      hide FirstNewline, LineLength, PlainLine;
      while true
        invariant Stream() == old(Stream())
        invariant |buf| <= if |old(buf)| <= boundedSize then boundedSize else |old(buf)|
        invariant connection.now <= old(connection.now) || connection.now <= deadline + MIN_TIMEOUT
        decreases |source.rest|, deadline - connection.now
      {
        var newline := FirstNewline(buf);
        if (newline < |buf| && newline + 1 <= boundedSize) || |buf| >= boundedSize {
          var end := if newline < |buf| && newline + 1 <= boundedSize then newline + 1 else boundedSize;
          LineIsBuffered(buf, source.rest, boundedSize);
          outcome := Line(buf[..end]);
          CutPrefix(buf, source.rest, end);
          buf := buf[end..];
          return;
        }
        var pulled := Pull(boundedSize - |buf|);
        match pulled
        case Progress =>
        case DeadlinePassed =>
          return HeaderReadTimeout(false);
        case ReadFailed =>
          return HeaderReadTimeout(true);
        case EndOfStream =>
          LineAtTheEnd(buf, boundedSize);
          outcome := Line(buf);
          CutPrefix(buf, source.rest, |buf|);
          buf := [];
          return;
      }
    }

    /** What a header-phase `readline` must do with the caller's line. */
    ghost predicate WithinBudgets(line: seq<byte>, bytesBefore: int, linesBefore: int, sawBefore: bool) {
      && bytesBefore + |line| <= 32768
      && (sawBefore && line != [] && line != [10] && line != [13, 10] ==> linesBefore < 64)
    }

    /** Account for a line that has left the buffer. */
    method Charge(line: seq<byte>) returns (ok: bool)
      modifies this`bytes, this`lines, this`sawRequestLine, this`taken
      ensures taken == old(taken) + line && bytes == old(bytes) + |line|
      ensures ok == WithinBudgets(line, old(bytes), old(lines), old(sawRequestLine))
      ensures ok ==> sawRequestLine
      ensures ok ==>
        lines == old(lines) + (if old(sawRequestLine) && line != [] && line != [10] && line != [13, 10] then 1 else 0)
      ensures old(lines) <= lines <= old(lines) + 1
      ensures ok && lines > old(lines) ==> lines <= MAX_HTTP_HEADER_COUNT
    {
      bytes := bytes + |line|;
      taken := taken + line;
      if bytes > MAX_HTTP_HEADER_BYTES {
        return false;
      }
      if sawRequestLine {
        if line != [] && line != [NEWLINE] && line != [RETURN, NEWLINE] {
          lines := lines + 1;
          if lines > MAX_HTTP_HEADER_COUNT {
            return false;
          }
        }
      } else {
        sawRequestLine := true;
      }
      return true;
    }

    /** `readline` while the headers are read. */
    method ReadHeaderLine(size: int) returns (outcome: Outcome)
      requires Valid() && active
      modifies this`buf, this`bytes, this`lines, this`sawRequestLine, this`taken, source, connection
      ensures Valid() && old(taken) <= taken
      ensures !outcome.BodyReadFailed?
      ensures outcome.HeaderReadTimeout? ==> taken == old(taken) && lines == old(lines)
      ensures outcome.HeaderReadTimeout? ==>
        if outcome.readFailed then source.broken || connection.broken else connection.now >= deadline
      ensures !outcome.HeaderReadTimeout? ==>
        var line := PlainLine(old(Stream()), size);
        if WithinBudgets(line, old(bytes), old(lines), old(sawRequestLine)) then
          && outcome == Line(line) && taken == old(taken) + line && sawRequestLine
          && lines == old(lines) +
               if old(sawRequestLine) && line != [] && line != [10] && line != [13, 10] then 1 else 0
        else outcome.HeaderLimitExceeded?
      ensures outcome.Line? ==> bytes <= MAX_HTTP_HEADER_BYTES
      ensures old(lines) <= lines <= old(lines) + 1
      ensures outcome.Line? && lines > old(lines) ==> lines <= MAX_HTTP_HEADER_COUNT
      ensures connection.now <= old(connection.now) || connection.now <= deadline + MIN_TIMEOUT
    {
      hide LineLength, FirstNewline;
      var capacity := MAX_HTTP_HEADER_BYTES - bytes;
      var boundedSize := if size >= 0 then Min(size, capacity + 1) else capacity + 1;
      ghost var stream := Stream();
      if capacity >= 0 {
        LineWithinBudget(stream, size, capacity);
      }
      outcome := ReadBoundedLine(boundedSize);
      if outcome.HeaderReadTimeout? {
        return;
      }
      var line := outcome.line;
      assert taken + stream == taken + line + Stream();
      var ok := Charge(line);
      if !ok {
        outcome := HeaderLimitExceeded;
      }
    }

    /** `readline`. A returned line is what the plain stream would have returned for the caller's
        own limit; during the headers the call fails exactly when that line would exceed the byte
        budget or is one header line too many. */
    method ReadLine(size: int) returns (outcome: Outcome)
      requires Valid()
      modifies this`buf, this`bytes, this`lines, this`sawRequestLine, this`taken, source, connection
      ensures Valid() && old(taken) <= taken
      ensures outcome.Line? ==> outcome.line == PlainLine(old(Stream()), size) && taken == old(taken) + outcome.line
      ensures outcome.HeaderReadTimeout? ==> active && taken == old(taken)
      ensures outcome.HeaderReadTimeout? ==>
        if outcome.readFailed then source.broken || connection.broken else connection.now >= deadline
      ensures !active ==> outcome.Line? || (outcome.BodyReadFailed? && source.broken)
      ensures active ==> !outcome.BodyReadFailed?
      ensures outcome.BodyReadFailed? ==> old(taken) + old(buf) <= taken && buf == []
      ensures active && !outcome.HeaderReadTimeout? ==>
        (outcome.Line? <==>
          WithinBudgets(PlainLine(old(Stream()), size), old(bytes), old(lines), old(sawRequestLine)))
      ensures active && outcome.Line? ==> bytes <= MAX_HTTP_HEADER_BYTES && sawRequestLine
      ensures old(lines) <= lines <= old(lines) + 1
      ensures active && outcome.Line? && lines > old(lines) ==> lines <= MAX_HTTP_HEADER_COUNT
      ensures active ==> connection.now <= old(connection.now) || connection.now <= deadline + MIN_TIMEOUT
    {
      if !active {
        var failed, line := PlainReadLine(size);
        return if failed then BodyReadFailed else Line(line);
      }
      outcome := ReadHeaderLine(size);
    }

    /** Serve the first `n` buffered bytes. */
    method Pop(n: nat) returns (data: seq<byte>)
      requires Valid() && !active && n <= |buf|
      modifies this`buf, this`taken
      ensures Valid() && taken == old(taken) + data
      ensures data == old(buf)[..n] && buf == old(buf)[n..]
    {
      data := buf[..n];
      buf := buf[n..];
      taken := taken + data;
      assert data + Stream() == old(Stream());
    }

    /** The line runs past the buffer: hand the buffer out and go on below it. */
    method SpillLine(size: int) returns (failed: bool, line: seq<byte>)
      requires Valid() && !active
      requires FirstNewline(buf) == |buf| && (size < 0 || |buf| <= size)
      modifies this`buf, this`taken, source
      ensures Valid() && old(taken) + old(buf) <= taken && buf == []
      ensures !failed ==> line == PlainLine(old(Stream()), size) && taken == old(taken) + line
      ensures failed ==> source.broken && line == []
    {
      hide LineLength, FirstNewline, PlainLine;
      LineSpills(buf, source.rest, size);
      line := buf;
      buf := [];
      var rest;
      failed, rest := source.ReadLine(if size < 0 then -1 else size - |line|);
      line := line + rest;
      taken := taken + line;
      if failed {
        line := [];
      }
    }

    /** `_plain_readline`: after the headers, still serving over-read bytes first. If the read below the buffer fails,
        what had been taken from the buffer for it is gone. */
    method PlainReadLine(size: int) returns (failed: bool, line: seq<byte>)
      requires Valid() && !active
      modifies this`buf, this`taken, source
      ensures Valid() && old(taken) <= taken
      ensures !failed ==> line == PlainLine(old(Stream()), size) && taken == old(taken) + line
      ensures failed ==> source.broken && line == [] && old(taken) + old(buf) <= taken && buf == []
      ensures failed ==> FirstNewline(old(buf)) == |old(buf)| && (size < 0 || old(buf) == [] || |old(buf)| < size)
    {
      hide FirstNewline, LineLength, PlainLine;
      if buf == [] {
        assert Stream() == source.rest;
        failed, line := source.ReadLine(size);
        taken := taken + line;
        if failed {
          line := [];
        }
        return;
      }
      var newline := FirstNewline(buf);
      if newline < |buf| || (size >= 0 && |buf| >= size) {
        var end := if newline < |buf| then newline + 1 else size;
        if size >= 0 {
          end := Min(end, size);
        }
        LineIsBuffered(buf, source.rest, size);
        line := Pop(end);
        failed := false;
      } else {
        failed, line := SpillLine(size);
      }
    }

    /** The read runs past the buffer: hand the buffer out and go on below it. */
    method SpillRead(size: int) returns (failed: bool, data: seq<byte>)
      requires Valid() && !active && (size < 0 || |buf| <= size)
      modifies this`buf, this`taken, source
      ensures Valid() && old(taken) + old(buf) <= taken && buf == []
      ensures !failed ==> data == PlainRead(old(Stream()), size) && taken == old(taken) + data
      ensures failed ==> source.broken && data == []
    {
      hide PlainRead;
      ReadSpills(buf, source.rest, size);
      data := buf;
      buf := [];
      var more;
      failed, more := source.Read(if size < 0 then -1 else size - |data|);
      data := data + more;
      taken := taken + data;
      if failed {
        data := [];
      }
    }

    /** `read`. If the read below the buffer fails, what had been taken from the buffer for it is gone; a read
        that the buffer alone can serve never fails. */
    method Read(size: int) returns (failed: bool, data: seq<byte>)
      requires Valid() && !active
      modifies this`buf, this`taken, source
      ensures Valid() && old(taken) <= taken
      ensures !failed ==> data == PlainRead(old(Stream()), size) && taken == old(taken) + data
      ensures failed ==> source.broken && data == [] && old(taken) + old(buf) <= taken && buf == []
      ensures failed ==> old(buf) == [] || size < 0 || |old(buf)| < size
    {
      hide PlainRead;
      failed := false;
      if buf != [] && 0 <= size <= |buf| {
        ReadIsBuffered(buf, source.rest, size);
        data := Pop(size);
      } else {
        failed, data := SpillRead(size);
      }
    }

    /** `read1`: some prefix of the stream, empty only at its end. */
    method Read1(size: int) returns (failed: bool, data: seq<byte>)
      requires Valid() && !active
      modifies this`buf, this`taken, source
      ensures Valid() && taken == old(taken) + data
      ensures data <= old(Stream()) && (size >= 0 ==> |data| <= size)
      ensures failed ==> data == [] && old(buf) == []
      ensures !failed && size != 0 && old(Stream()) != [] ==> data != []
    {
      failed := false;
      if buf == [] {
        assert Stream() == source.rest;
        failed, data := source.Read1(size);
        taken := taken + data;
      } else {
        var take := if size < 0 then |buf| else Min(size, |buf|);
        CutPrefix(buf, source.rest, take);
        data := Pop(take);
      }
    }

    method FinishHeaders()
      modifies this`active
      requires Valid()
      ensures Valid() && !active && Stream() == old(Stream())
    {
      active := false;
    }
  }

  // ----- a whole request -----

  /** The limit the HTTP parser passes to every `readline`. */
  const PARSER_LIMIT := 65537

  /** The header lines of a plain stream, through the first blank line or the end. */
  ghost function HeaderLines(s: seq<byte>): seq<seq<byte>>
    decreases |s|
  {
    var line := PlainLine(s, PARSER_LIMIT);
    if IsBlank(line) then [line] else [line] + HeaderLines(s[|line|..])
  }

  function Joined(lines: seq<seq<byte>>): seq<byte> {
    if lines == [] then [] else lines[0] + Joined(lines[1..])
  }

  lemma {:induction false} JoinedSnoc(lines: seq<seq<byte>>, line: seq<byte>)
    ensures Joined(lines + [line]) == Joined(lines) + line
  {
    if lines == [] {
      assert lines + [line] == [line] && [line][1..] == [];
      assert Joined([]) == [];
    } else {
      assert (lines + [line])[1..] == lines[1..] + [line];
      JoinedSnoc(lines[1..], line);
    }
  }

  lemma {:induction false} JoinedLength(a: seq<seq<byte>>, b: seq<seq<byte>>)
    ensures |Joined(a + b)| == |Joined(a)| + |Joined(b)|
  {
    if a == [] {
      assert a + b == b;
    } else {
      assert (a + b)[1..] == a[1..] + b;
      JoinedLength(a[1..], b);
    }
  }

  /** How many of the lines count as header lines: all that are not blank, but for a request line not seen yet. */
  function HeaderCount(lines: seq<seq<byte>>, sawRequestLine: bool): nat {
    if lines == [] then 0
    else
      var n := |lines| - 1;
      HeaderCount(lines[..n], sawRequestLine) + if (sawRequestLine || n > 0) && !IsBlank(lines[n]) then 1 else 0
  }

  lemma HeaderCountSnoc(lines: seq<seq<byte>>, line: seq<byte>, sawRequestLine: bool)
    ensures HeaderCount(lines + [line], sawRequestLine) ==
      HeaderCount(lines, sawRequestLine) + if (sawRequestLine || lines != []) && !IsBlank(line) then 1 else 0
  {
    assert (lines + [line])[..|lines|] == lines;
  }

  lemma {:induction false} HeaderCountGrows(a: seq<seq<byte>>, b: seq<seq<byte>>, sawRequestLine: bool)
    ensures HeaderCount(a, sawRequestLine) <= HeaderCount(a + b, sawRequestLine)
  {
    if b == [] {
      assert a + b == a;
    } else {
      var n := |b| - 1;
      assert a + b == (a + b[..n]) + [b[n]];
      HeaderCountSnoc(a + b[..n], b[n], sawRequestLine);
      HeaderCountGrows(a, b[..n], sawRequestLine);
    }
  }

  /** The two caps on a whole header block, given what the reader has already counted. */
  ghost predicate WithinCaps(lines: seq<seq<byte>>, bytesBefore: int, linesBefore: int, sawRequestLine: bool) {
    && bytesBefore + |Joined(lines)| <= MAX_HTTP_HEADER_BYTES
    && (HeaderCount(lines, sawRequestLine) > 0 ==>
          linesBefore + HeaderCount(lines, sawRequestLine) <= MAX_HTTP_HEADER_COUNT)
  }

  /** A block that begins beyond the caps is beyond them. */
  lemma CapsOfPrefix(a: seq<seq<byte>>, b: seq<seq<byte>>, bytesBefore: int, linesBefore: int, sawRequestLine: bool)
    requires WithinCaps(a + b, bytesBefore, linesBefore, sawRequestLine)
    ensures WithinCaps(a, bytesBefore, linesBefore, sawRequestLine)
  {
    JoinedLength(a, b);
    HeaderCountGrows(a, b, sawRequestLine);
  }

  lemma SamePrefix<T>(a: seq<T>, b: seq<T>, c: seq<T>)
    requires a + b == a + c
    ensures b == c
  {
    assert (a + b)[|a|..] == b && (a + c)[|a|..] == c;
  }

  lemma NextHeaderLine(done: seq<seq<byte>>, s: seq<byte>)
    ensures var line := PlainLine(s, PARSER_LIMIT);
      && s == line + s[|line|..]
      && done + HeaderLines(s) ==
         (if IsBlank(line) then done + [line] else (done + [line]) + HeaderLines(s[|line|..]))
  {
    hide LineLength, FirstNewline, IsBlank;
    var line := PlainLine(s, PARSER_LIMIT);
    if !IsBlank(line) {
      assert done + ([line] + HeaderLines(s[|line|..])) == (done + [line]) + HeaderLines(s[|line|..]);
    }
  }

  /** One accepted line keeps the block so far within its caps; a refused one puts it beyond them. */
  lemma BudgetsAreCaps(done: seq<seq<byte>>, line: seq<byte>, r: BoundedHeaderReader,
                       bytesBefore: int, linesBefore: int, sawBefore: bool)
    requires r.bytes == bytesBefore + |Joined(done)|
    requires r.lines == linesBefore + HeaderCount(done, sawBefore)
    requires r.sawRequestLine == (sawBefore || done != [])
    requires done != [] ==> WithinCaps(done, bytesBefore, linesBefore, sawBefore)
    ensures r.WithinBudgets(line, r.bytes, r.lines, r.sawRequestLine)
       <==> WithinCaps(done + [line], bytesBefore, linesBefore, sawBefore)
  {
    JoinedSnoc(done, line);
    HeaderCountSnoc(done, line, sawBefore);
    hide Joined;
    assert done == [] ==> HeaderCount(done, sawBefore) == 0;
  }

  // ----- header blocks as they stand on the wire -----

  /** A line with its newline at the end and nowhere else, not blank, and short enough for the parser. */
  predicate IsFullLine(line: seq<byte>) {
    && 1 < |line| <= 65537 && line[|line| - 1] == 10 && line != [13, 10]
    && forall i :: 0 <= i < |line| - 1 ==> line[i] != 10
  }

  /** Header lines, a blank line with or without a carriage return, and what follows it. */
  ghost predicate OnTheWire(stream: seq<byte>, lines: seq<seq<byte>>, blank: seq<byte>, rest: seq<byte>) {
    && (forall i :: 0 <= i < |lines| ==> IsFullLine(lines[i]))
    && (blank == [10] || blank == [13, 10])
    && stream == Joined(lines) + blank + rest
  }

  lemma {:induction false} NewlineAtTheEnd(line: seq<byte>)
    requires line != [] && line[|line| - 1] == 10 && forall i :: 0 <= i < |line| - 1 ==> line[i] != 10
    ensures FirstNewline(line) == |line| - 1
  {
    if |line| > 1 {
      assert line[1..][|line| - 2] == 10;
      forall i | 0 <= i < |line[1..]| - 1 ensures line[1..][i] != 10 {
        assert line[1..][i] == line[i + 1];
      }
      NewlineAtTheEnd(line[1..]);
    }
  }

  lemma FullLineComesFirst(line: seq<byte>, rest: seq<byte>)
    requires line != [] && |line| <= 65537
    requires line[|line| - 1] == 10 && forall i :: 0 <= i < |line| - 1 ==> line[i] != 10
    ensures PlainLine(line + rest, PARSER_LIMIT) == line && (line + rest)[|line|..] == rest
  {
    NewlineAtTheEnd(line);
    LineFromPrefix(line, rest, PARSER_LIMIT);
    hide FirstNewline;
    TakeWithin(line, rest, |line|);
  }

  /** The lines of such a stream are the header lines and the blank one, and what follows is not read as a header. */
  lemma {:induction false} BlockEndsAtBlankLine(
    stream: seq<byte>, lines: seq<seq<byte>>, blank: seq<byte>, rest: seq<byte>)
    requires OnTheWire(stream, lines, blank, rest)
    ensures HeaderLines(stream) == lines + [blank]
    ensures |Joined(lines + [blank])| <= |stream| && stream[|Joined(lines + [blank])|..] == rest
  {
    hide PlainLine;
    JoinedSnoc(lines, blank);
    if lines == [] {
      assert Joined([]) == [] && stream == blank + rest;
      FullLineComesFirst(blank, rest);
      assert [] + [blank] == [blank];
    } else {
      var first, more := lines[0], lines[1..];
      assert IsFullLine(first);
      assert stream == first + (Joined(more) + blank + rest);
      FullLineComesFirst(first, Joined(more) + blank + rest);
      BlockEndsAtBlankLine(Joined(more) + blank + rest, more, blank, rest);
      assert lines + [blank] == [first] + (more + [blank]);
      assert !IsBlank(first);
    }
  }

  lemma {:induction false} HeaderLinesCount(lines: seq<seq<byte>>, blank: seq<byte>, sawRequestLine: bool)
    requires forall i :: 0 <= i < |lines| ==> IsFullLine(lines[i])
    requires blank == [10] || blank == [13, 10]
    ensures HeaderCount(lines + [blank], sawRequestLine) == HeaderCount(lines, sawRequestLine)
    ensures HeaderCount(lines, sawRequestLine) == |lines| - (if !sawRequestLine && lines != [] then 1 else 0)
  {
    HeaderCountSnoc(lines, blank, sawRequestLine);
    if lines != [] {
      var n := |lines| - 1;
      assert IsFullLine(lines[n]);
      HeaderLinesCount(lines[..n], blank, sawRequestLine);
    }
  }

  /** On a fresh reader such a block is within the caps exactly when it has no more than 32 KiB with its blank line, and
      no more than 64 lines after the request line. */
  lemma CapsOnTheWire(stream: seq<byte>, lines: seq<seq<byte>>, blank: seq<byte>, rest: seq<byte>)
    requires OnTheWire(stream, lines, blank, rest)
    ensures WithinCaps(HeaderLines(stream), 0, 0, false) <==> |Joined(lines)| + |blank| <= 32768 && |lines| <= 65
  {
    BlockEndsAtBlankLine(stream, lines, blank, rest);
    HeaderLinesCount(lines, blank, false);
    JoinedSnoc(lines, blank);
    hide HeaderLines, Joined, HeaderCount;
  }

  /** How the parser's loop over the header block ended. */
  datatype BlockEnd = Complete | TimedOut(readFailed: bool) | Refused

  lemma NothingRead(saw: bool)
    ensures Joined([]) == [] && HeaderCount([], saw) == 0
  {
  }

  lemma BeyondCaps(a: seq<seq<byte>>, all: seq<seq<byte>>, bytesBefore: int, linesBefore: int, sawRequestLine: bool)
    requires a <= all && !WithinCaps(a, bytesBefore, linesBefore, sawRequestLine)
    ensures !WithinCaps(all, bytesBefore, linesBefore, sawRequestLine)
  {
    hide WithinCaps;
    if WithinCaps(all, bytesBefore, linesBefore, sawRequestLine) {
      assert all == a + all[|a|..];
      CapsOfPrefix(a, all[|a|..], bytesBefore, linesBefore, sawRequestLine);
    }
  }

  /** What the reader had counted before the block. */
  datatype Before = Before(taken: seq<byte>, lines: int, sawRequestLine: bool)

  /** The reader has handed out `lines` of the block and counted them. */
  ghost predicate InBlock(r: BoundedHeaderReader, lines: seq<seq<byte>>, before: Before)
    reads r, r.source
  {
    && r.Valid() && r.active
    && r.taken == before.taken + Joined(lines)
    && r.lines == before.lines + HeaderCount(lines, before.sawRequestLine)
    && r.sawRequestLine == (before.sawRequestLine || lines != [])
    && (lines != [] ==> WithinCaps(lines, |before.taken|, before.lines, before.sawRequestLine))
  }

  /** One line of the block. */
  method NextParserLine(r: BoundedHeaderReader, ghost lines: seq<seq<byte>>, ghost before: Before)
    returns (outcome: Outcome)
    requires InBlock(r, lines, before)
    modifies r`buf, r`bytes, r`lines, r`sawRequestLine, r`taken, r.source, r.connection
    ensures r.Valid() && before.taken <= r.taken && !outcome.BodyReadFailed?
    ensures outcome.Line? ==>
      && outcome.line == PlainLine(old(r.Stream()), PARSER_LIMIT)
      && r.Stream() == old(r.Stream())[|outcome.line|..]
      && InBlock(r, lines + [outcome.line], before)
    ensures outcome.HeaderLimitExceeded? ==>
      !WithinCaps(lines + [PlainLine(old(r.Stream()), PARSER_LIMIT)],
                  |before.taken|, before.lines, before.sawRequestLine)
    ensures outcome.HeaderReadTimeout? ==>
      if outcome.readFailed then r.source.broken || r.connection.broken else r.connection.now >= r.deadline
  {
    hide PlainLine, WithinCaps, Joined, HeaderCount;
    ghost var stream, taken := r.Stream(), r.taken;
    ghost var next := PlainLine(stream, PARSER_LIMIT);
    BudgetsAreCaps(lines, next, r, |before.taken|, before.lines, before.sawRequestLine);
    outcome := r.ReadHeaderLine(PARSER_LIMIT);
    if outcome.Line? {
      SamePrefix(taken, stream, outcome.line + r.Stream());
      JoinedSnoc(lines, outcome.line);
      HeaderCountSnoc(lines, outcome.line, before.sawRequestLine);
    }
  }

  /** The parser's loop over the header block. If it is not cut off in time, it accepts exactly the blocks within
      both caps, and what it reads are the lines of the plain stream. */
  method ReadHeaderBlock(r: BoundedHeaderReader) returns (end: BlockEnd, lines: seq<seq<byte>>)
    requires r.Valid() && r.active
    modifies r`buf, r`bytes, r`lines, r`sawRequestLine, r`taken, r.source, r.connection
    ensures r.Valid() && old(r.taken) <= r.taken
    ensures end.Complete? ==> lines == HeaderLines(old(r.Stream())) && r.taken == old(r.taken) + Joined(lines)
    ensures !end.TimedOut? ==>
      (end.Complete? <==>
        WithinCaps(HeaderLines(old(r.Stream())), old(r.bytes), old(r.lines), old(r.sawRequestLine)))
    ensures end.TimedOut? ==>
      if end.readFailed then r.source.broken || r.connection.broken else r.connection.now >= r.deadline
  {
    hide HeaderLines, PlainLine, IsBlank, WithinCaps, Joined, HeaderCount;
    ghost var stream, before := r.Stream(), Before(r.taken, r.lines, r.sawRequestLine);
    lines := [];
    NothingRead(r.sawRequestLine);
    while true
      invariant InBlock(r, lines, before)
      invariant HeaderLines(stream) == lines + HeaderLines(r.Stream())
      decreases |r.Stream()|
    {
      NextHeaderLine(lines, r.Stream());
      ghost var next := PlainLine(r.Stream(), PARSER_LIMIT);
      var outcome := NextParserLine(r, lines, before);
      match outcome
      case HeaderReadTimeout(readFailed) =>
        return TimedOut(readFailed), lines;
      case HeaderLimitExceeded =>
        BeyondCaps(lines + [next], HeaderLines(stream), |before.taken|, before.lines, before.sawRequestLine);
        return Refused, lines;
      case Line(line) =>
        lines := lines + [line];
        if IsBlank(line) {
          return Complete, lines;
        }
    }
  }

  /** What a fresh reader makes of a stream, in terms of what stands on the wire. */
  ghost predicate ServesWhatCame(stream: seq<byte>, length: nat, end: BlockEnd, lines: seq<seq<byte>>,
                                 bodyFailed: bool, body: seq<byte>)
  {
    forall ls, blank, rest :: OnTheWire(stream, ls, blank, rest) ==>
      && (!end.TimedOut? ==> (end.Complete? <==> |Joined(ls)| + |blank| <= 32768 && |ls| <= 65))
      && (end.Complete? ==> lines == ls + [blank])
      && (end.Complete? && !bodyFailed ==> body == if length <= |rest| then rest[..length] else rest)
  }

  lemma ServesTells(stream: seq<byte>, length: nat, end: BlockEnd, lines: seq<seq<byte>>,
                    bodyFailed: bool, body: seq<byte>)
    requires !end.TimedOut? ==> (end.Complete? <==> WithinCaps(HeaderLines(stream), 0, 0, false))
    requires end.Complete? ==> lines == HeaderLines(stream) && Joined(lines) <= stream
    requires end.Complete? && !bodyFailed ==> body == PlainRead(stream[|Joined(lines)|..], length)
    ensures ServesWhatCame(stream, length, end, lines, bodyFailed, body)
  {
    hide OnTheWire, WithinCaps, HeaderLines, Joined;
    forall ls, blank, rest | OnTheWire(stream, ls, blank, rest)
      ensures !end.TimedOut? ==> (end.Complete? <==> |Joined(ls)| + |blank| <= 32768 && |ls| <= 65)
      ensures end.Complete? ==> lines == ls + [blank]
      ensures end.Complete? && !bodyFailed ==> body == if length <= |rest| then rest[..length] else rest
    {
      BlockEndsAtBlankLine(stream, ls, blank, rest);
      CapsOnTheWire(stream, ls, blank, rest);
    }
  }

  /** Header block, end of headers, body: whatever the chunks were, the lines are those of the plain
      stream and the body starts at the byte after them. */
  method ReadRequest(r: BoundedHeaderReader, length: nat)
    returns (end: BlockEnd, lines: seq<seq<byte>>, bodyFailed: bool, body: seq<byte>)
    requires r.Valid() && r.active
    modifies r`active, r`buf, r`bytes, r`lines, r`sawRequestLine, r`taken, r.source, r.connection
    ensures r.Valid() && !r.active
    ensures end.Complete? ==> lines == HeaderLines(old(r.Stream())) && Joined(lines) <= old(r.Stream())
    ensures end.Complete? && !bodyFailed ==> body == PlainRead(old(r.Stream())[|Joined(lines)|..], length)
    ensures bodyFailed ==> end.Complete? && r.source.broken && body == []
    ensures !end.TimedOut? ==>
      (end.Complete? <==>
        WithinCaps(HeaderLines(old(r.Stream())), old(r.bytes), old(r.lines), old(r.sawRequestLine)))
    ensures end.TimedOut? ==>
      if end.readFailed then r.source.broken || r.connection.broken else r.connection.now >= r.deadline
    ensures old(r.bytes) == 0 && old(r.lines) == 0 && !old(r.sawRequestLine) ==>
      ServesWhatCame(old(r.Stream()), length, end, lines, bodyFailed, body)
  {
    hide HeaderLines, Joined, WithinCaps, ServesWhatCame;
    ghost var stream, taken := r.Stream(), r.taken;
    ghost var isFresh := r.bytes == 0 && r.lines == 0 && !r.sawRequestLine;
    end, lines := ReadHeaderBlock(r);
    bodyFailed, body := false, [];
    r.FinishHeaders();
    if end.Complete? {
      SamePrefix(taken, stream, Joined(lines) + r.Stream());
      assert stream[|Joined(lines)|..] == r.Stream();
      bodyFailed, body := r.Read(length);
    }
    if isFresh {
      ServesTells(stream, length, end, lines, bodyFailed, body);
    }
  }
}

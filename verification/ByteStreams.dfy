/** Plain byte streams: what a line reader over them returns, and a source that hands them out
    in chunks of its own choosing. */
module ByteStreams {
  newtype byte = x: int | 0 <= x < 256

  const NEWLINE: byte := 10
  const RETURN: byte := 13

  /** Position of the first newline, the length if there is none. */
  function FirstNewline(s: seq<byte>): (k: nat)
    ensures k <= |s|
    ensures k < |s| ==> s[k] == NEWLINE
    ensures forall i :: 0 <= i < k ==> s[i] != NEWLINE
  {
    if s == [] || s[0] == NEWLINE then 0 else 1 + FirstNewline(s[1..])
  }

  function Min(a: int, b: int): int {
    if a < b then a else b
  }

  /** How long the next line of a stream is: through the first newline, or to the end of the
      stream, and never longer than a non-negative limit. */
  function LineLength(s: seq<byte>, size: int): (k: nat)
    ensures k <= |s|
  {
    var line := if FirstNewline(s) < |s| then FirstNewline(s) + 1 else |s|;
    if size < 0 then line else Min(line, size)
  }

  /** What `readline(size)` of a plain reader returns; a negative size means no limit. */
  function PlainLine(s: seq<byte>, size: int): seq<byte> {
    s[..LineLength(s, size)]
  }

  /** What `read(size)` of a plain blocking reader returns. */
  function PlainRead(s: seq<byte>, size: int): seq<byte> {
    if size < 0 || |s| <= size then s else s[..size]
  }

  lemma {:induction false} FirstNewlineSplits(prefix: seq<byte>, rest: seq<byte>)
    ensures FirstNewline(prefix + rest) ==
      if FirstNewline(prefix) < |prefix| then FirstNewline(prefix) else |prefix| + FirstNewline(rest)
  {
    if prefix == [] {
      assert prefix + rest == rest;
    } else {
      FirstNewlineSplits(prefix[1..], rest);
      assert (prefix + rest)[1..] == prefix[1..] + rest;
    }
  }

  /** A buffered prefix already decides the line when it holds the newline or reaches the limit. */
  lemma LineFromPrefix(prefix: seq<byte>, rest: seq<byte>, size: int)
    ensures FirstNewline(prefix) < |prefix| || 0 <= size <= |prefix| ==>
              LineLength(prefix + rest, size) == LineLength(prefix, size)
    ensures FirstNewline(prefix) == |prefix| && (size < 0 || |prefix| <= size) ==>
              LineLength(prefix + rest, size) ==
              |prefix| + LineLength(rest, if size < 0 then size else size - |prefix|)
  {
    FirstNewlineSplits(prefix, rest);
  }

  lemma BufferedLength(prefix: seq<byte>, size: int)
    requires FirstNewline(prefix) < |prefix| || 0 <= size <= |prefix|
    ensures LineLength(prefix, size) ==
      var end := if FirstNewline(prefix) < |prefix| then FirstNewline(prefix) + 1 else size;
      if size >= 0 then Min(end, size) else end
  {
    hide FirstNewline;
  }

  /** Where the buffer already holds the line, the plain stream's line is cut from the buffer. */
  lemma LineIsBuffered(prefix: seq<byte>, rest: seq<byte>, size: int)
    requires FirstNewline(prefix) < |prefix| || 0 <= size <= |prefix|
    ensures LineLength(prefix, size) ==
      var end := if FirstNewline(prefix) < |prefix| then FirstNewline(prefix) + 1 else size;
      if size >= 0 then Min(end, size) else end
    ensures PlainLine(prefix + rest, size) == prefix[..LineLength(prefix, size)]
  {
    hide FirstNewline, LineLength;
    BufferedLength(prefix, size);
    LineFromPrefix(prefix, rest, size);
    TakeWithin(prefix, rest, LineLength(prefix, size));
  }

  lemma TakeWithin<T>(a: seq<T>, b: seq<T>, k: nat)
    requires k <= |a|
    ensures (a + b)[..k] == a[..k]
  {
  }

  lemma ReadIsBuffered(prefix: seq<byte>, rest: seq<byte>, size: int)
    requires 0 <= size <= |prefix|
    ensures PlainRead(prefix + rest, size) == prefix[..size]
  {
    TakeWithin(prefix, rest, size);
  }

  /** At the end of the stream what is left is the line. */
  lemma LineAtTheEnd(s: seq<byte>, size: int)
    requires size > |s| && (FirstNewline(s) == |s| || FirstNewline(s) + 1 > size)
    ensures PlainLine(s + [], size) == s
  {
    assert s + [] == s;
  }

  /** A read that runs past a prefix is the prefix and the read of what follows. */
  lemma ReadSpills(prefix: seq<byte>, rest: seq<byte>, size: int)
    requires size < 0 || |prefix| <= size
    ensures PlainRead(prefix + rest, size) == prefix + PlainRead(rest, if size < 0 then -1 else size - |prefix|)
  {
  }

  lemma TakeBeyond<T>(a: seq<T>, b: seq<T>, k: nat)
    requires k <= |b|
    ensures (a + b)[..|a| + k] == a + b[..k]
  {
  }

  /** A line that runs past a prefix is the prefix and the line of what follows. */
  lemma LineSpills(prefix: seq<byte>, rest: seq<byte>, size: int)
    requires FirstNewline(prefix) == |prefix| && (size < 0 || |prefix| <= size)
    ensures PlainLine(prefix + rest, size) == prefix + PlainLine(rest, if size < 0 then -1 else size - |prefix|)
  {
    LineFromPrefix(prefix, rest, size);
    var k := LineLength(rest, if size < 0 then size else size - |prefix|);
    TakeBeyond(prefix, rest, k);
  }

  /** Cutting a line at one byte beyond a budget either shows the caller's own line or shows that
      it is over the budget. */
  lemma LineWithinBudget(s: seq<byte>, size: int, budget: int)
    requires 0 <= budget
    ensures var bounded := if size >= 0 then Min(size, budget + 1) else budget + 1;
      && (LineLength(s, size) <= budget ==> LineLength(s, bounded) == LineLength(s, size))
      && (LineLength(s, size) > budget ==> LineLength(s, bounded) == budget + 1)
  {
  }

  /** The connection as far as waiting is concerned: its clock, and whether waiting on it has failed. */
  class Connection {
    var now: int
    var broken: bool

    /** Time passes, at most `atMost`. */
    method Pass(atMost: nat)
      modifies this`now
      ensures old(now) <= now <= old(now) + atMost
    {
      var d :| 0 <= d <= atMost;
      now := now + d;
    }

    /** `select` on one descriptor: an error, ready early, or the whole timeout has passed. */
    method Select(timeout: nat) returns (failed: bool, ready: bool)
      modifies this
      ensures old(now) <= now <= old(now) + timeout
      ensures failed ==> broken
      ensures !failed ==> broken == old(broken)
      ensures !failed && !ready ==> now == old(now) + timeout
    {
      failed, ready := *, *;
      if failed {
        broken := true;
      } else if ready {
        Pass(timeout);
      } else {
        now := now + timeout;
      }
    }
  }

  /** The underlying reader. `rest` is everything the peer will still send; how much of it one
      `read1` delivers is up to the network. */
  class Source {
    var rest: seq<byte>
    var broken: bool

    constructor (all: seq<byte>)
      ensures rest == all && !broken
    {
      rest, broken := all, false;
    }

    /** One `read1`: an error, or a chunk that is empty only at the end of the stream. */
    method Read1(size: int) returns (failed: bool, chunk: seq<byte>)
      modifies this
      ensures failed ==> chunk == [] && rest == old(rest) && broken
      ensures !failed ==> broken == old(broken)
      ensures old(rest) == chunk + rest
      ensures size >= 0 ==> |chunk| <= size
      ensures !failed && size != 0 && old(rest) != [] ==> chunk != []
    {
      failed := *;
      broken := broken || failed;
      chunk := [];
      if !failed && size != 0 && rest != [] {
        var most := if size < 0 then |rest| else Min(size, |rest|);
        var k :| 0 < k <= most;
        chunk, rest := rest[..k], rest[k..];
      }
    }

    /** A blocking `readline`. A failing one may have consumed something first. */
    method ReadLine(size: int) returns (failed: bool, line: seq<byte>)
      modifies this
      ensures !failed ==> line == PlainLine(old(rest), size) && broken == old(broken)
      ensures failed ==> broken
      ensures old(rest) == line + rest
    {
      failed := *;
      broken := broken || failed;
      var k: nat := LineLength(rest, size);
      if failed {
        k :| 0 <= k <= |rest|;
      }
      line, rest := rest[..k], rest[k..];
    }

    /** A blocking read. A failing one may have consumed something first. */
    method Read(size: int) returns (failed: bool, data: seq<byte>)
      modifies this
      ensures !failed ==> data == PlainRead(old(rest), size) && broken == old(broken)
      ensures failed ==> broken
      ensures old(rest) == data + rest
    {
      failed := *;
      broken := broken || failed;
      var k := if size < 0 || |rest| <= size then |rest| else size;
      if failed {
        k :| 0 <= k <= |rest|;
      }
      data, rest := rest[..k], rest[k..];
    }
  }
}

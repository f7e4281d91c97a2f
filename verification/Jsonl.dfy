/** Splitting a byte stream into lines under a memory bound (tools/atlas_agent/jsonl.py) and the last agent
    message of such a stream (tools/atlas_agent/codex_executor.py, `latest_agent_report`). */
module Jsonl {
  import opened Ordering

  type Byte = b: int | 0 <= b < 256

  const NEWLINE: Byte := 10

  /** A line without its newline, and whether it was too long to keep. */
  datatype Entry = Entry(line: seq<Byte>, oversized: bool)

  // ---------------------------------------------------------------- splitting a whole file

  /** `find` from the start: the first newline, or the length when there is none. */
  function LineEnd(bytes: seq<Byte>): (n: nat)
    ensures n <= |bytes| && NEWLINE !in bytes[..n] && (n < |bytes| ==> bytes[n] == NEWLINE)
  {
    if bytes == [] || bytes[0] == NEWLINE then 0
    else
      var rest := LineEnd(bytes[1..]);
      assert bytes[..rest + 1] == [bytes[0]] + bytes[1..][..rest];
      rest + 1
  }

  /** The lines of a file: a terminated line beyond the bound leaves an empty entry, an unterminated one its prefix. */
  function Lines(file: seq<Byte>, bound: nat): seq<Entry>
  {
    var n := LineEnd(file);
    if n < |file| then [if n <= bound then Entry(file[..n], false) else Entry([], true)] + Lines(file[n + 1..], bound)
    else if file == [] then []
    else if |file| <= bound then [Entry(file, false)]
    else [Entry(file[..bound], true)]
  }

  function Join(chunks: seq<seq<Byte>>): seq<Byte>
  {
    if chunks == [] then [] else chunks[0] + Join(chunks[1..])
  }

  /** The first newline after a stretch without newlines. */
  lemma LineEndBeyond(head: seq<Byte>, tail: seq<Byte>)
    requires NEWLINE !in head
    ensures LineEnd(head + tail) == |head| + LineEnd(tail)
  {
    if head == [] {
      assert head + tail == tail;
    } else {
      assert (head + tail)[1..] == head[1..] + tail;
      LineEndBeyond(head[1..], tail);
    }
  }

  lemma LinesTerminated(line: seq<Byte>, rest: seq<Byte>, bound: nat)
    requires NEWLINE !in line
    ensures Lines(line + [NEWLINE] + rest, bound)
         == [if |line| <= bound then Entry(line, false) else Entry([], true)] + Lines(rest, bound)
  {
    var file := line + [NEWLINE] + rest;
    assert file == line + ([NEWLINE] + rest);
    LineEndBeyond(line, [NEWLINE] + rest);
    assert file[..|line|] == line && file[|line| + 1..] == rest;
  }

  lemma LinesUnterminated(line: seq<Byte>, bound: nat)
    requires NEWLINE !in line
    ensures Lines(line, bound)
         == if line == [] then [] else if |line| <= bound then [Entry(line, false)] else [Entry(line[..bound], true)]
  {
    LineEndBeyond(line, []);
    assert line + [] == line;
  }

  lemma Regroup(a: seq<Byte>, b: seq<Byte>, c: seq<Byte>)
    ensures a + (b + c) == (a + b) + ([] + c)
  {
  }

  lemma CutLine(before: seq<Byte>, rest: seq<Byte>, length: nat, later: seq<Byte>)
    requires length < |rest| && rest[length] == NEWLINE
    ensures before + (rest + later) == (before + rest[..length]) + [NEWLINE] + (rest[length + 1..] + later)
  {
  }

  lemma Prepend(yielded: seq<Entry>, e: Entry, rest: seq<Entry>)
    ensures yielded + ([e] + rest) == (yielded + [e]) + rest
  {
  }

  /** A newline in the rest of a chunk completes the pending line. */
  lemma LineCompleted(yielded: seq<Entry>, before: seq<Byte>, rest: seq<Byte>, length: nat, later: seq<Byte>, bound: nat)
    requires NEWLINE !in before && length < |rest| && NEWLINE !in rest[..length] && rest[length] == NEWLINE
    ensures var line := before + rest[..length];
            yielded + Lines(before + (rest + later), bound)
            == (yielded + [if |line| <= bound then Entry(line, false) else Entry([], true)])
               + Lines([] + (rest[length + 1..] + later), bound)
  {
    var line, tail := before + rest[..length], rest[length + 1..] + later;
    CutLine(before, rest, length, later);
    LinesTerminated(line, tail, bound);
    Prepend(yielded, if |line| <= bound then Entry(line, false) else Entry([], true), Lines(tail, bound));
    assert [] + tail == tail;
  }

  lemma Gather(a: seq<Entry>, b: seq<Entry>, rest: seq<Entry>)
    ensures a + (b + rest) == (a + b) + rest
  {
  }

  // ---------------------------------------------------------------- the stream

  /** The buffer of the line being read, of which no more than `bound` bytes are ever held. */
  class LineBuffer {
    const bound: nat
    var buffer: seq<Byte>
    var oversized: bool
    ghost var pending: seq<Byte>

    /** The bytes since the last newline are held entirely, or up to the bound with the mark set. */
    ghost predicate Valid()
      reads this
    {
      && NEWLINE !in pending && |buffer| <= bound
      && (oversized <==> |pending| > bound)
      && buffer == if oversized then pending[..bound] else pending
    }

    constructor (maxLineBytes: nat)
      ensures Valid() && pending == [] && bound == maxLineBytes
    {
      bound, buffer, oversized, pending := maxLineBytes, [], false, [];
    }

    /** Extends the line being read by a part without newlines. */
    method Extend(part: seq<Byte>)
      requires Valid() && NEWLINE !in part
      modifies this
      ensures Valid() && pending == old(pending) + part
    {
      pending := pending + part;
      if !oversized {
        var room := bound - |buffer|;
        if |part| <= room {
          buffer := buffer + part;
        } else {
          if room > 0 {
            buffer := buffer + part[..room];
          }
          oversized := true;
          assert buffer == pending[..bound];
        }
      }
    }

    /** Yields the line that a newline has completed. */
    method Complete() returns (e: Entry)
      requires Valid()
      modifies this
      ensures Valid() && pending == []
      ensures e == if |old(pending)| <= bound then Entry(old(pending), false) else Entry([], true)
    {
      e := Entry(if oversized then [] else buffer, oversized);
      buffer, oversized, pending := [], false, [];
    }

    /** One chunk of the stream: yields what it completes and keeps the rest, whatever comes later. */
    method Feed(chunk: seq<Byte>, ghost later: seq<Byte>) returns (entries: seq<Entry>)
      requires Valid()
      modifies this
      ensures Valid()
      ensures entries + Lines(pending + later, bound) == Lines(old(pending) + (chunk + later), bound)
    {
      entries := [];
      var start := 0;
      ghost var whole := Lines(pending + (chunk + later), bound);
      assert chunk[0..] == chunk;
      while start < |chunk|
        invariant 0 <= start <= |chunk| && Valid()
        invariant entries + Lines(pending + (chunk[start..] + later), bound) == whole
      {
        var rest := chunk[start..];
        var length := LineEnd(rest);
        ghost var before, yielded := pending, entries;
        Extend(rest[..length]);
        if length < |rest| {
          var e := Complete();
          entries := entries + [e];
          start := start + length + 1;
          assert chunk[start..] == rest[length + 1..];
          LineCompleted(yielded, before, rest, length, later, bound);
        } else {
          start := |chunk|;
          assert rest[..length] == rest && chunk[start..] == [];
          Regroup(before, rest, later);
        }
      }
      assert chunk[start..] + later == later;
    }

    /** The end of the stream. */
    method Finish() returns (entries: seq<Entry>)
      requires Valid()
      ensures entries == Lines(pending, bound)
    {
      LinesUnterminated(pending, bound);
      entries := if buffer != [] || oversized then [Entry(buffer, oversized)] else [];
      assert bound == 0 && oversized ==> buffer == [];
    }
  }

  /** `iter_bounded_jsonl`: the entries depend on the bytes of the file alone, however they are cut into chunks. */
  method IterBoundedJsonl(chunks: seq<seq<Byte>>, maxLineBytes: int) returns (r: Option<seq<Entry>>)
    requires forall chunk :: chunk in chunks ==> chunk != []
    ensures r == if maxLineBytes <= 0 then None else Some(Lines(Join(chunks), maxLineBytes))
  {
    if maxLineBytes <= 0 {
      return None;
    }
    var buffer := new LineBuffer(maxLineBytes);
    var entries := [];
    assert [] + Join(chunks) == Join(chunks);
    for i := 0 to |chunks|
      invariant buffer.Valid() && buffer.bound == maxLineBytes
      invariant entries + Lines(buffer.pending + Join(chunks[i..]), maxLineBytes) == Lines(Join(chunks), maxLineBytes)
    {
      ghost var later := Join(chunks[i + 1..]);
      assert chunks[i..][0] == chunks[i] && chunks[i..][1..] == chunks[i + 1..];
      var more := buffer.Feed(chunks[i], later);
      Gather(entries, more, Lines(buffer.pending + later, maxLineBytes));
      entries := entries + more;
    }
    assert chunks[|chunks|..] == [];
    assert buffer.pending + Join([]) == buffer.pending;
    var last := buffer.Finish();
    return Some(entries + last);
  }

  // ---------------------------------------------------------------- what the lines are

  /** Every line is within the bound, whole unless it is marked. */
  lemma {:induction false} LinesBounded(file: seq<Byte>, bound: nat)
    ensures forall e :: e in Lines(file, bound) ==> |e.line| <= bound && NEWLINE !in e.line
  {
    var n := LineEnd(file);
    if n < |file| {
      LinesBounded(file[n + 1..], bound);
    }
  }

  function Unlines(entries: seq<Entry>): seq<Byte>
  {
    if entries == [] then [] else entries[0].line + [NEWLINE] + Unlines(entries[1..])
  }

  lemma UnlinesHead(file: seq<Byte>, n: nat, rest: seq<Entry>)
    requires n < |file| && file[n] == NEWLINE
    ensures Unlines([Entry(file[..n], false)] + rest) == file[..n + 1] + Unlines(rest)
    ensures file == file[..n + 1] + file[n + 1..] && file + [NEWLINE] == file[..n + 1] + (file[n + 1..] + [NEWLINE])
  {
    assert ([Entry(file[..n], false)] + rest)[1..] == rest;
    assert file[..n + 1] == file[..n] + [NEWLINE];
  }

  predicate NoneOversized(entries: seq<Entry>)
  {
    entries == [] || (!entries[0].oversized && NoneOversized(entries[1..]))
  }

  /** Without oversized lines nothing is lost: joining the lines gives the file back, up to its last newline. */
  lemma {:induction false} LinesRoundTrip(file: seq<Byte>, bound: nat)
    requires NoneOversized(Lines(file, bound))
    ensures Unlines(Lines(file, bound)) == file || Unlines(Lines(file, bound)) == file + [NEWLINE]
  {
    var n := LineEnd(file);
    if n < |file| {
      var rest := Lines(file[n + 1..], bound);
      var head := if n <= bound then Entry(file[..n], false) else Entry([], true);
      assert Lines(file, bound) == [head] + rest && ([head] + rest)[1..] == rest;
      LinesRoundTrip(file[n + 1..], bound);
      UnlinesHead(file, n, rest);
    } else if file != [] {
      var only := if |file| <= bound then Entry(file, false) else Entry(file[..bound], true);
      assert Lines(file, bound) == [only] && only == Entry(file, false);
      assert Unlines([only]) == file + [NEWLINE] + Unlines([only][1..]) && [only][1..] == [];
    }
  }

  // ---------------------------------------------------------------- the last agent message

  /** What decoding one line finds. */
  datatype Record = NotARecord | OtherEvent | AgentMessage(text: string)

  datatype Report = Reported(text: string) | OutputTooLarge | OutputMalformed | ReportMissing

  /** Position `i` holds the last agent message, and no oversized line follows it. */
  ghost predicate IsLastMessage(entries: seq<Entry>, decode: seq<Byte> -> Record, i: nat)
  {
    && i < |entries| && !entries[i].oversized && decode(entries[i].line).AgentMessage?
    && forall j :: i < j < |entries| ==> !entries[j].oversized && !decode(entries[j].line).AgentMessage?
  }

  ghost predicate Wellformed(entries: seq<Entry>, decode: seq<Byte> -> Record)
  {
    forall j :: 0 <= j < |entries| && !entries[j].oversized ==> !decode(entries[j].line).NotARecord?
  }

  /** Among the first `n` entries the last message is at `i`. */
  ghost predicate LastAt(entries: seq<Entry>, decode: seq<Byte> -> Record, n: nat, i: nat, text: string)
  {
    && i < n <= |entries| && !entries[i].oversized && decode(entries[i].line) == AgentMessage(text)
    && forall j :: i < j < n && !entries[j].oversized ==> !decode(entries[j].line).AgentMessage?
  }

  /** Some entry from `from` on and before `n` was too long. */
  ghost predicate OversizedBetween(entries: seq<Entry>, from: nat, n: nat)
  {
    exists j :: from <= j < n <= |entries| && entries[j].oversized
  }

  ghost predicate NoMessage(entries: seq<Entry>, decode: seq<Byte> -> Record, n: nat)
  {
    n <= |entries| && forall j :: 0 <= j < n && !entries[j].oversized ==> !decode(entries[j].line).AgentMessage?
  }

  /** After the first `n` entries: the text of the last message, and whether an oversized line came after it. */
  ghost predicate Scanned(entries: seq<Entry>, decode: seq<Byte> -> Record, n: nat, latest: Option<string>, ambiguous: bool, at: nat)
  {
    && n <= |entries| && Wellformed(entries[..n], decode)
    && match latest
       case None => NoMessage(entries, decode, n) && (ambiguous <==> OversizedBetween(entries, 0, n))
       case Some(text) => LastAt(entries, decode, n, at, text) && (ambiguous <==> OversizedBetween(entries, at + 1, n))
  }

  lemma OversizedMore(entries: seq<Entry>, from: nat, n: nat)
    requires n < |entries| && from <= n
    ensures OversizedBetween(entries, from, n + 1) <==> OversizedBetween(entries, from, n) || entries[n].oversized
  {
  }

  lemma ScannedStep(entries: seq<Entry>, decode: seq<Byte> -> Record, n: nat, latest: Option<string>, ambiguous: bool, at: nat)
    requires n < |entries| && Scanned(entries, decode, n, latest, ambiguous, at)
    requires entries[n].oversized || decode(entries[n].line).OtherEvent?
    ensures Scanned(entries, decode, n + 1, latest, ambiguous || entries[n].oversized, at)
  {
    OversizedMore(entries, if latest.Some? then at + 1 else 0, n);
    WellformedMore(entries, decode, n);
  }

  lemma WellformedMore(entries: seq<Entry>, decode: seq<Byte> -> Record, n: nat)
    requires n < |entries| && Wellformed(entries[..n], decode) && (entries[n].oversized || !decode(entries[n].line).NotARecord?)
    ensures Wellformed(entries[..n + 1], decode)
  {
    assert forall j :: 0 <= j < n ==> entries[..n][j] == entries[j];
  }

  lemma ScannedMessage(entries: seq<Entry>, decode: seq<Byte> -> Record, n: nat)
    requires n < |entries| && Wellformed(entries[..n], decode)
    requires !entries[n].oversized && decode(entries[n].line).AgentMessage?
    ensures Scanned(entries, decode, n + 1, Some(decode(entries[n].line).text), false, n)
  {
    WellformedMore(entries, decode, n);
  }

  /**
   * `latest_agent_report` on well-formed records within the size limit: the last agent message, exactly
   * when there is one and no oversized line follows it.
   */
  method LatestAgentReport(chunks: seq<seq<Byte>>, decode: seq<Byte> -> Record, maxLineBytes: int, maxFileBytes: int)
    returns (r: Report)
    requires 0 < maxLineBytes && forall chunk :: chunk in chunks ==> chunk != []
    ensures r.OutputTooLarge? <==> |Join(chunks)| > maxFileBytes
    ensures var entries := Lines(Join(chunks), maxLineBytes);
            |Join(chunks)| <= maxFileBytes ==>
              && (r.Reported? <==> Wellformed(entries, decode) && exists i: nat :: IsLastMessage(entries, decode, i))
              && (r.Reported? ==> exists i: nat :: IsLastMessage(entries, decode, i) && decode(entries[i].line) == AgentMessage(r.text))
              && (r.ReportMissing? <==> forall j :: 0 <= j < |entries| ==> !entries[j].oversized && decode(entries[j].line).OtherEvent?)
  {
    if |Join(chunks)| > maxFileBytes {
      return OutputTooLarge;
    }
    var read := IterBoundedJsonl(chunks, maxLineBytes);
    var entries := read.value;
    var latest: Option<string>, ambiguous := None, false;
    ghost var at := 0;
    for n := 0 to |entries|
      invariant Scanned(entries, decode, n, latest, ambiguous, at)
    {
      if entries[n].oversized {
        ScannedStep(entries, decode, n, latest, ambiguous, at);
        ambiguous := true;
      } else {
        var event := decode(entries[n].line);
        if event.NotARecord? {
          assert !Wellformed(entries, decode);
          return OutputMalformed;
        }
        if event.AgentMessage? {
          ScannedMessage(entries, decode, n);
          latest, ambiguous, at := Some(event.text), false, n;
        } else {
          ScannedStep(entries, decode, n, latest, ambiguous, at);
        }
      }
    }
    assert entries[..|entries|] == entries;
    ScannedAll(entries, decode, latest, ambiguous, at);
    if ambiguous {
      return OutputMalformed;
    }
    return if latest.Some? then Reported(latest.value) else ReportMissing;
  }

  lemma ScannedAll(entries: seq<Entry>, decode: seq<Byte> -> Record, latest: Option<string>, ambiguous: bool, at: nat)
    requires Scanned(entries, decode, |entries|, latest, ambiguous, at) && Wellformed(entries, decode)
    ensures latest.Some? && !ambiguous ==> IsLastMessage(entries, decode, at) && decode(entries[at].line) == AgentMessage(latest.value)
    ensures latest.None? || ambiguous ==> forall i: nat :: !IsLastMessage(entries, decode, i)
    ensures latest.None? && !ambiguous <==>
              forall j :: 0 <= j < |entries| ==> !entries[j].oversized && decode(entries[j].line).OtherEvent?
  {
    if latest.Some? && !ambiguous {
      assert !OversizedBetween(entries, at + 1, |entries|);
    }
    if latest.Some? {
      assert decode(entries[at].line).AgentMessage?;
    }
  }
}

/** The raw WAL: one record a line, written by WriteRaw and read back through a fragmenting reader. */
module WalFraming {
  newtype Byte = x: int | 0 <= x < 256

  type Bytes = seq<Byte>

  const NL: Byte := 10
  const CR: Byte := 13
  const MAX_LINE: int := 0x10_0000 + 1

  // ---------- writing ----------

  /** bytes.TrimRight(line, "\r\n"). */
  function TrimRight(line: Bytes): Bytes {
    if line != [] && (line[|line| - 1] == NL || line[|line| - 1] == CR) then TrimRight(line[..|line| - 1]) else line
  }

  lemma {:induction false} TrimRightFacts(line: Bytes)
    ensures TrimRight(line) <= line
    ensures TrimRight(line) != [] ==>
      TrimRight(line)[|TrimRight(line)| - 1] != NL && TrimRight(line)[|TrimRight(line)| - 1] != CR
    ensures forall i :: |TrimRight(line)| <= i < |line| ==> line[i] == NL || line[i] == CR
  {
    if line != [] && (line[|line| - 1] == NL || line[|line| - 1] == CR) { TrimRightFacts(line[..|line| - 1]); }
  }

  function Frame(line: Bytes): Bytes { TrimRight(line) + [NL] }

  function FrameAll(lines: seq<Bytes>): Bytes { if lines == [] then [] else Frame(lines[0]) + FrameAll(lines[1..]) }

  function TrimAll(lines: seq<Bytes>): seq<Bytes> {
    if lines == [] then [] else [TrimRight(lines[0])] + TrimAll(lines[1..])
  }

  // ---------- reading, specified on the whole file ----------

  /** The length of the line at the head of data, its newline included. */
  function LineLength(data: Bytes): (n: nat)
    ensures n <= |data| && (data != [] ==> n > 0)
  {
    if data == [] then 0 else if data[0] == NL then 1 else 1 + LineLength(data[1..])
  }

  lemma {:induction false} LineLengthFacts(data: Bytes)
    ensures forall i :: 0 <= i < LineLength(data) - 1 ==> data[i] != NL
    ensures LineLength(data) < |data| ==> data[LineLength(data) - 1] == NL
  {
    if data != [] && data[0] != NL {
      LineLengthFacts(data[1..]);
      assert forall i :: 0 < i < |data| ==> data[i] == data[1..][i - 1];
    }
  }

  /** The head line is not ended by a newline. */
  predicate AtEnd(data: Bytes) { LineLength(data) == 0 || data[LineLength(data) - 1] != NL }

  predicate TooLong(data: Bytes) { LineLength(data) > MAX_LINE }

  /** What readReplayLine yields for the head line. */
  function HeadLine(data: Bytes): Bytes { if TooLong(data) then [] else TrimRight(data[..LineLength(data)]) }

  function NonEmpty(line: Bytes): seq<Bytes> { if line == [] then [] else [line] }

  /** The lines handed to the callback: oversized and empty ones are skipped. */
  function Delivered(data: Bytes): seq<Bytes>
    decreases |data|
  {
    if AtEnd(data) then NonEmpty(HeadLine(data)) else NonEmpty(HeadLine(data)) + Delivered(data[LineLength(data)..])
  }

  // ---------- the reader ----------

  datatype ReadError = NoError | BufferFull | Eof

  /** bufio.Reader.ReadSlice with room for limit bytes: up to the newline, or a full buffer, or what is left. */
  function ReadSlice(data: Bytes, limit: nat): (r: (nat, ReadError))
    requires limit > 0
    ensures r.0 <= LineLength(data)
    ensures r.1.NoError? ==> r.0 == LineLength(data) && !AtEnd(data)
    ensures r.1.Eof? ==> r.0 == LineLength(data) && AtEnd(data)
    ensures r.1.BufferFull? ==> 0 < r.0 && (r.0 == LineLength(data) ==> AtEnd(data))
  {
    var n := LineLength(data);
    if !AtEnd(data) && n <= limit then (n, NoError) else if n >= limit then (limit, BufferFull) else (n, Eof)
  }

  lemma {:induction false} LineAfterFragment(data: Bytes, n: nat)
    requires n < LineLength(data) || (n == LineLength(data) && AtEnd(data))
    ensures LineLength(data) == n + LineLength(data[n..]) && (AtEnd(data) <==> AtEnd(data[n..]))
  {
    if n == 0 {
      assert data[n..] == data;
    } else {
      LineLengthFacts(data);
      assert data[0] != NL;
      LineAfterFragment(data[1..], n - 1);
      assert data[1..][n - 1..] == data[n..];
      assert AtEnd(data) <==> AtEnd(data[1..]);
    }
  }

  /** Some fragments of the head line have been read, and it is not over. */
  predicate Reading(data: Bytes, got: nat) { got < LineLength(data) || (got == LineLength(data) && AtEnd(data)) }

  /** What has been kept of a line of which got bytes have been read. */
  function Kept(data: Bytes, got: nat): Bytes
    requires got <= |data|
  {
    if got > MAX_LINE then [] else data[..got]
  }

  lemma KeptNext(data: Bytes, got: nat, n: nat)
    requires got + n <= |data|
    ensures got <= MAX_LINE ==> |Kept(data, got)| == got
    ensures got + n <= MAX_LINE ==> Kept(data, got) + data[got..got + n] == Kept(data, got + n)
    ensures got + n > MAX_LINE ==> Kept(data, got + n) == []
  {
  }

  lemma NextFragment(data: Bytes, got: nat, limit: nat)
    requires Reading(data, got) && limit > 0
    ensures var (n, e) := ReadSlice(data[got..], limit);
            && got + n <= LineLength(data)
            && (e == BufferFull ==> n > 0 && Reading(data, got + n))
            && (e != BufferFull ==> got + n == LineLength(data) && e == EndOf(data))
  {
    LineAfterFragment(data, got);
  }

  function EndOf(data: Bytes): ReadError { if AtEnd(data) then Eof else NoError }

  /** readReplayLine: whatever sizes the fragments have, the result is the head line. */
  method ReadLine(data: Bytes, limits: nat -> nat) returns (line: Bytes, tooLong: bool, err: ReadError, rest: Bytes)
    ensures line == HeadLine(data) && tooLong == TooLong(data) && err == EndOf(data)
    ensures rest == data[LineLength(data)..]
  {
    line, tooLong := [], false;
    var got: nat := 0;
    LineStarts(data);
    while true
      invariant Reading(data, got) && tooLong == (got > MAX_LINE) && line == Kept(data, got)
      decreases |data| - got
    {
      var (n, e) := ReadSlice(data[got..], limits(got) + 1);
      NextFragment(data, got, limits(got) + 1);
      KeptNext(data, got, n);
      if !tooLong {
        if |line| + n > MAX_LINE {
          tooLong, line := true, [];
        } else {
          line := line + data[got..got + n];
        }
      }
      got := got + n;
      if e != BufferFull {
        err, rest := e, data[got..];
        line := TrimRight(line);
        return;
      }
    }
  }

  lemma LineStarts(data: Bytes)
    ensures Reading(data, 0)
  {
  }

  /** The lines before the first one that the callback refuses. */
  function Until(lines: seq<Bytes>, refuses: Bytes -> bool): seq<Bytes> {
    if lines == [] || refuses(lines[0]) then [] else [lines[0]] + Until(lines[1..], refuses)
  }

  predicate AnyRefused(lines: seq<Bytes>, refuses: Bytes -> bool) {
    lines != [] && (refuses(lines[0]) || AnyRefused(lines[1..], refuses))
  }

  /** The lines handed over so far, with the rest of the file to come. */
  predicate Replaying(data: Bytes, left: Bytes, lines: seq<Bytes>, refuses: Bytes -> bool) {
    lines + Delivered(left) == Delivered(data) && !AnyRefused(lines, refuses)
  }

  predicate Replayed(data: Bytes, lines: seq<Bytes>, stopped: bool, refuses: Bytes -> bool) {
    lines == Until(Delivered(data), refuses) && stopped == AnyRefused(Delivered(data), refuses)
  }

  /** replayFileLines: the lines handed to the callback, in order, up to one that it refuses. */
  method ReplayFile(data: Bytes, limits: nat -> nat, refuses: Bytes -> bool) returns (lines: seq<Bytes>, stopped: bool)
    ensures lines == Until(Delivered(data), refuses) && stopped == AnyRefused(Delivered(data), refuses)
  {
    lines, stopped := [], false;
    var left := data;
    while true
      invariant !stopped && Replaying(data, left, lines, refuses)
      decreases |left|
    {
      var line, tooLong, err, rest := ReadLine(left, limits);
      ReplayStep(data, left, lines, refuses);
      if err == Eof && line == [] && !tooLong { return; }
      if tooLong {
        if err == Eof { return; }
        left := rest;
        continue;
      }
      if line != [] {
        if refuses(line) { return lines, true; }
        lines := lines + [line];
      }
      if err == Eof { return; }
      left := rest;
    }
  }

  lemma ReplayStep(data: Bytes, left: Bytes, lines: seq<Bytes>, refuses: Bytes -> bool)
    requires Replaying(data, left, lines, refuses)
    ensures TooLong(left) ==> HeadLine(left) == []
    ensures !AtEnd(left) ==> LineLength(left) > 0
    ensures var line, rest := HeadLine(left), left[LineLength(left)..];
      if line != [] && refuses(line) then Replayed(data, lines, true, refuses)
      else if AtEnd(left) then Replayed(data, if line == [] then lines else lines + [line], false, refuses)
      else Replaying(data, rest, if line == [] then lines else lines + [line], refuses)
  {
    DeliveredStep(left, lines);
    var line := HeadLine(left);
    UntilConcat(lines, Delivered(left), refuses);
    UntilConcat(lines, [line], refuses);
    UntilConcat(lines, [], refuses);
    assert lines + [] == lines;
  }

  lemma {:induction false} UntilConcat(a: seq<Bytes>, b: seq<Bytes>, refuses: Bytes -> bool)
    requires !AnyRefused(a, refuses)
    ensures Until(a + b, refuses) == a + Until(b, refuses) && AnyRefused(a + b, refuses) == AnyRefused(b, refuses)
    decreases |a|
  {
    if a == [] { assert a + b == b; } else {
      UntilConcat(a[1..], b, refuses);
      UntilCons(a[0], a[1..] + b, refuses);
      Recons(a, b, Until(b, refuses));
    }
  }

  lemma UntilCons(x: Bytes, s: seq<Bytes>, refuses: Bytes -> bool)
    ensures Until([x] + s, refuses) == if refuses(x) then [] else [x] + Until(s, refuses)
    ensures AnyRefused([x] + s, refuses) == (refuses(x) || AnyRefused(s, refuses))
  {
    assert ([x] + s)[1..] == s;
  }

  lemma Recons(a: seq<Bytes>, b: seq<Bytes>, c: seq<Bytes>)
    requires a != []
    ensures a + b == [a[0]] + (a[1..] + b) && a + c == [a[0]] + (a[1..] + c)
  {
  }

  lemma DeliveredStep(data: Bytes, lines: seq<Bytes>)
    ensures TooLong(data) ==> HeadLine(data) == []
    ensures AtEnd(data) ==> Delivered(data) == NonEmpty(HeadLine(data))
    ensures !AtEnd(data) ==> data != [] && LineLength(data) > 0
    ensures !AtEnd(data) ==>
      lines + Delivered(data) == (lines + NonEmpty(HeadLine(data))) + Delivered(data[LineLength(data)..])
  {
  }

  // ---------- the round trip ----------

  /** A record that survives: non-empty once trimmed, no newline inside, at most 2^20 bytes. */
  predicate Survives(line: Bytes) {
    var t := TrimRight(line);
    t != [] && NL !in t && |t| < MAX_LINE
  }

  lemma {:induction false} LineOf(t: Bytes, rest: Bytes)
    requires NL !in t
    ensures LineLength(t + [NL] + rest) == |t| + 1
  {
    var s := t + [NL] + rest;
    if t != [] {
      assert s[1..] == t[1..] + [NL] + rest;
      LineOf(t[1..], rest);
    }
  }

  lemma {:induction false} TrimFrame(line: Bytes)
    ensures TrimRight(TrimRight(line) + [NL]) == TrimRight(line)
  {
    var t := TrimRight(line);
    TrimRightFacts(line);
    assert (t + [NL])[..|t|] == t;
    assert TrimRight(t) == t;
  }

  lemma DeliverFrame(line: Bytes, rest: Bytes)
    requires Survives(line)
    ensures Delivered(Frame(line) + rest) == [TrimRight(line)] + Delivered(rest)
  {
    var t := TrimRight(line);
    var s := Frame(line) + rest;
    LineOf(t, rest);
    TrimFrame(line);
    assert s[..|t| + 1] == Frame(line) && s[|t| + 1..] == rest && s[|t|] == NL;
  }

  lemma {:induction false} DeliverAll(lines: seq<Bytes>)
    requires forall i :: 0 <= i < |lines| ==> Survives(lines[i])
    ensures Delivered(FrameAll(lines)) == TrimAll(lines)
  {
    if lines != [] {
      DeliverFrame(lines[0], FrameAll(lines[1..]));
      DeliverAll(lines[1..]);
    }
  }

  predicate EndsLine(data: Bytes) { data == [] || data[|data| - 1] == NL }

  predicate IsRecord(t: Bytes) { t != [] && NL !in t && |t| < MAX_LINE && TrimRight(t) == t }

  lemma {:induction false} TrimTwice(line: Bytes)
    ensures TrimRight(TrimRight(line)) == TrimRight(line)
  {
    TrimRightFacts(line);
  }

  lemma HeadIsRecord(data: Bytes)
    requires EndsLine(data) && HeadLine(data) != []
    ensures IsRecord(HeadLine(data)) && !AtEnd(data)
  {
    var n := LineLength(data);
    var t := HeadLine(data);
    TrimRightFacts(data[..n]);
    LineLengthFacts(data);
    TrimTwice(data[..n]);
    assert data[n - 1] == NL;
    assert t == data[..|t|] && |t| < n;
    forall i | 0 <= i < |t| ensures t[i] != NL { assert t[i] == data[i]; }
  }

  /** Whatever a file of whole lines holds, only records of that kind come out of it. */
  lemma {:induction false} DeliveredRecords(data: Bytes, i: nat)
    requires EndsLine(data) && i < |Delivered(data)|
    ensures IsRecord(Delivered(data)[i])
    decreases |data|
  {
    var first := NonEmpty(HeadLine(data));
    DeliveredStep(data, []);
    if i < |first| {
      HeadIsRecord(data);
    } else {
      var rest := data[LineLength(data)..];
      assert EndsLine(rest);
      DeliveredRecords(rest, i - |first|);
    }
  }

  lemma {:induction false} FramesEndLines(lines: seq<Bytes>)
    ensures EndsLine(FrameAll(lines))
  {
    if lines != [] { FramesEndLines(lines[1..]); }
  }

  lemma {:induction false} TrimAllAt(lines: seq<Bytes>, i: nat)
    requires i < |lines|
    ensures |TrimAll(lines)| == |lines| && TrimAll(lines)[i] == TrimRight(lines[i])
  {
    if i > 0 { TrimAllAt(lines[1..], i - 1); } else if |lines| > 1 { TrimAllAt(lines[1..], 0); }
  }

  /** Replaying a written file gives back exactly the trimmed records if and only if every record survives. */
  lemma RoundTripExact(lines: seq<Bytes>)
    ensures Delivered(FrameAll(lines)) == TrimAll(lines) <==> forall i :: 0 <= i < |lines| ==> Survives(lines[i])
  {
    if forall i :: 0 <= i < |lines| ==> Survives(lines[i]) {
      DeliverAll(lines);
    } else if Delivered(FrameAll(lines)) == TrimAll(lines) {
      FramesEndLines(lines);
      forall i | 0 <= i < |lines| ensures Survives(lines[i]) {
        TrimAllAt(lines, i);
        DeliveredRecords(FrameAll(lines), i);
      }
    }
  }

  /** A record with a newline inside comes back as several. */
  lemma NewlineSplits(a: Bytes, b: Bytes)
    requires IsRecord(a) && IsRecord(b)
    ensures Delivered(FrameAll([a + [NL] + b])) == [a, b]
  {
    var line := a + [NL] + b;
    TrimRightFacts(b);
    assert line[|line| - 1] == b[|b| - 1];
    assert TrimRight(line) == line;
    assert FrameAll([line]) == Frame(a) + (Frame(b) + []);
    DeliverFrame(a, Frame(b) + []);
    DeliverFrame(b, []);
  }

  // ---------- the writer, with rotation ----------

  /** How the file system answers one call. */
  datatype Io = Io(writeOk: bool, syncOk: bool, closeOk: bool, openOk: bool)

  function Flatten(groups: seq<seq<Bytes>>): seq<Bytes> {
    if groups == [] then [] else Flatten(groups[..|groups| - 1]) + groups[|groups| - 1]
  }

  /** Each file holds its lines, framed. */
  predicate FilesHold(files: seq<Bytes>, lines: seq<seq<Bytes>>) {
    |files| == |lines| && forall i :: 0 <= i < |files| ==> files[i] == FrameAll(lines[i])
  }

  lemma {:induction false} FrameSnoc(lines: seq<Bytes>, line: Bytes)
    ensures FrameAll(lines + [line]) == FrameAll(lines) + Frame(line)
  {
    if lines == [] {
      assert lines + [line] == [line] && [line][1..] == [];
    } else {
      assert (lines + [line])[1..] == lines[1..] + [line];
      FrameSnoc(lines[1..], line);
    }
  }

  class Writer {
    const sync: bool
    const maxFileBytes: int
    var files: seq<Bytes>
    var isOpen: bool
    var bytesWritten: nat
    ghost var lines: seq<seq<Bytes>>

    /** The last file is the active one while the writer is open. */
    ghost predicate Valid()
      reads this
    {
      FilesHold(files, lines) && (isOpen ==> files != [] && bytesWritten == |files[|files| - 1]|)
    }

    constructor (sync: bool, maxFileBytes: int)
      ensures Valid() && isOpen && Flatten(lines) == []
    {
      this.sync, this.maxFileBytes := sync, maxFileBytes;
      files, isOpen, bytesWritten, lines := [[]], true, 0, [[]];
    }

    /** Appends one framed record to the active file. */
    method Append(line: Bytes)
      requires Valid() && isOpen
      modifies this
      ensures Valid() && isOpen && Flatten(lines) == old(Flatten(lines)) + [line]
    {
      var n := |files| - 1;
      FrameSnoc(lines[n], line);
      AppendLast(lines, line);
      bytesWritten := bytesWritten + |Frame(line)|;
      files := files[n := files[n] + Frame(line)];
      lines := lines[n := lines[n] + [line]];
    }

    method Rotate(io: Io) returns (ok: bool)
      requires Valid()
      modifies this
      ensures Valid() && Flatten(lines) == old(Flatten(lines)) && (ok ==> isOpen && bytesWritten == 0)
    {
      if isOpen {
        isOpen := false;
        if !io.closeOk { return false; }
      }
      if !io.openOk { return false; }
      FlattenEmpty(lines);
      files, lines, isOpen, bytesWritten := files + [[]], lines + [[]], true, 0;
      ok := true;
    }

    /** WriteRaw: on success the record is the last one of the log; a failure adds nothing unless the write itself
        succeeded. */
    method WriteRaw(line: Bytes, io: Io) returns (ok: bool)
      requires Valid()
      modifies this
      ensures Valid()
      ensures Flatten(lines) == old(Flatten(lines)) + if old(isOpen) && io.writeOk then [line] else []
      ensures ok ==> old(isOpen) && io.writeOk && isOpen && (sync ==> io.syncOk)
      ensures ok && maxFileBytes > 0 ==> bytesWritten < maxFileBytes
    {
      if !isOpen || !io.writeOk { return false; }
      Append(line);
      if sync && !io.syncOk { return false; }
      ok := true;
      if maxFileBytes > 0 && bytesWritten >= maxFileBytes { ok := Rotate(io); }
    }
  }

  lemma FlattenEmpty(groups: seq<seq<Bytes>>)
    ensures Flatten(groups + [[]]) == Flatten(groups)
  {
    assert (groups + [[]])[..|groups|] == groups;
  }

  lemma AppendLast(groups: seq<seq<Bytes>>, line: Bytes)
    requires groups != []
    ensures Flatten(groups[|groups| - 1 := groups[|groups| - 1] + [line]]) == Flatten(groups) + [line]
  {
    var n := |groups| - 1;
    assert groups[n := groups[n] + [line]][..n] == groups[..n];
  }

  /** Replaying the files one after the other. */
  function DeliveredAll(files: seq<Bytes>): seq<Bytes> {
    if files == [] then [] else DeliveredAll(files[..|files| - 1]) + Delivered(files[|files| - 1])
  }

  ghost predicate AllSurvive(lines: seq<Bytes>) { forall i :: 0 <= i < |lines| ==> Survives(lines[i]) }

  lemma {:induction false} TrimAllConcat(a: seq<Bytes>, b: seq<Bytes>)
    ensures TrimAll(a + b) == TrimAll(a) + TrimAll(b)
  {
    if a == [] { assert a + b == b; } else {
      assert (a + b)[1..] == a[1..] + b;
      TrimAllConcat(a[1..], b);
    }
  }

  /** However the records were spread over files, replay gives them all back, trimmed and in order. */
  lemma {:induction false} LogRoundTrip(files: seq<Bytes>, lines: seq<seq<Bytes>>)
    requires FilesHold(files, lines) && AllSurvive(Flatten(lines))
    ensures DeliveredAll(files) == TrimAll(Flatten(lines))
    decreases |files|
  {
    if files != [] {
      var n := |files| - 1;
      var a, b := Flatten(lines[..n]), lines[n];
      assert Flatten(lines) == a + b;
      assert AllSurvive(a) by { forall i | 0 <= i < |a| ensures Survives(a[i]) { assert a[i] == Flatten(lines)[i]; } }
      forall i | 0 <= i < |b| ensures Survives(b[i]) { assert b[i] == Flatten(lines)[|a| + i]; }
      LogRoundTrip(files[..n], lines[..n]);
      assert files[n] == FrameAll(b);
      DeliverAll(b);
      TrimAllConcat(a, b);
    }
  }
}

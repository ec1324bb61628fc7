/** Shipping a workload's log in chunks of whole lines (internal/agent/logs.go). */
module Logs {
  import opened Basics

  const MAX_SHIP_BYTES := 64 * 1024
  const MAX_SHIP_LINES := 500
  const MAX_HELD_LINE := 8 * 1024
  const NEWLINE: Byte := 10
  const RETURN: Byte := 13

  // ----- the split of a whole file -----

  function TrimReturns(line: Bytes): Bytes {
    if line != [] && line[|line| - 1] == RETURN then TrimReturns(line[..|line| - 1]) else line
  }

  /** Exactly the carriage returns at the end of a line go. */
  lemma {:induction false} OnlyLastReturnsGo(line: Bytes) returns (tail: Bytes)
    ensures line == TrimReturns(line) + tail && forall k | 0 <= k < |tail| :: tail[k] == RETURN
    ensures TrimReturns(line) != [] ==> TrimReturns(line)[|TrimReturns(line)| - 1] != RETURN
  {
    tail := [];
    if line != [] && line[|line| - 1] == RETURN {
      tail := OnlyLastReturnsGo(line[..|line| - 1]);
      tail := tail + [RETURN];
      assert line == line[..|line| - 1] + [RETURN];
    }
  }

  /** The place of the first newline from `from` on, or the length if there is none. */
  function NewlineFrom(b: Bytes, from: nat): (i: nat)
    requires from <= |b|
    ensures from <= i <= |b| && (i < |b| ==> b[i] == NEWLINE)
    ensures forall k {:trigger b[k]} | from <= k < i :: b[k] != NEWLINE
    decreases |b| - from
  {
    if from == |b| || b[from] == NEWLINE then from else NewlineFrom(b, from + 1)
  }

  /** The complete lines of `b[from..to]`. */
  function Lines(b: Bytes, from: nat, to: nat): seq<Bytes>
    requires from <= to <= |b|
    decreases |b| - from
  {
    var i := NewlineFrom(b, from);
    if i >= to then [] else [TrimReturns(b[from..i])] + Lines(b, i + 1, to)
  }

  ghost predicate LineStart(b: Bytes, at: nat) {
    at <= |b| && (at == 0 || b[at - 1] == NEWLINE)
  }

  /** Splitting up to the start of a line and then on from there is splitting it all. */
  lemma {:induction false} LinesConcat(b: Bytes, from: nat, mid: nat, to: nat)
    requires from <= mid <= to <= |b| && (mid == from || LineStart(b, mid))
    ensures Lines(b, from, to) == Lines(b, from, mid) + Lines(b, mid, to)
    decreases mid - from
  {
    if from < mid {
      assert b[mid - 1] == NEWLINE;
      LinesConcat(b, NewlineFrom(b, from) + 1, mid, to);
    }
  }

  /** `part` is what stands in `b` from `at` on. */
  ghost predicate PartAt(part: Bytes, b: Bytes, at: nat) {
    at + |part| <= |b| && forall k {:trigger part[k]} | 0 <= k < |part| :: part[k] == b[at + k]
  }

  lemma SameSlice(part: Bytes, b: Bytes, at: nat, from: nat, to: nat)
    requires PartAt(part, b, at) && from <= to <= |part|
    ensures part[from..to] == b[at + from..at + to]
  {
    var p, q := part[from..to], b[at + from..at + to];
    forall k | 0 <= k < to - from ensures p[k] == q[k] {
      assert p[k] == part[from + k];
    }
  }

  lemma {:induction false} SameNewline(part: Bytes, b: Bytes, at: nat, from: nat, start: nat)
    requires PartAt(part, b, at) && from <= |part| && start == at + from
    ensures NewlineFrom(part, from) < |part| ==> NewlineFrom(b, start) == at + NewlineFrom(part, from)
    ensures NewlineFrom(part, from) == |part| ==> NewlineFrom(b, start) >= at + |part|
    decreases |part| - from
  {
    if from < |part| {
      assert part[from] == b[start];
      if part[from] != NEWLINE {
        SameNewline(part, b, at, from + 1, start + 1);
      }
    }
  }

  lemma {:induction false} SameLines(part: Bytes, b: Bytes, at: nat, from: nat, to: nat, start: nat, end: nat)
    requires PartAt(part, b, at) && from <= to <= |part| && start == at + from && end == at + to
    ensures Lines(part, from, to) == Lines(b, start, end)
    decreases |part| - from
  {
    SameNewline(part, b, at, from, start);
    var i, j := NewlineFrom(part, from), NewlineFrom(b, start);
    if i < to {
      SameFirstLine(part, b, at, from, i, start, j);
      SameLines(part, b, at, i + 1, to, j + 1, end);
      JoinSame(part, from, to, i, b, start, end, j);
    } else {
      NoLines(part, from, to);
      NoLines(b, start, end);
    }
  }

  lemma NoLines(b: Bytes, from: nat, to: nat)
    requires from <= to <= |b| && NewlineFrom(b, from) >= to
    ensures Lines(b, from, to) == []
  {
  }

  lemma SameFirstLine(part: Bytes, b: Bytes, at: nat, from: nat, i: nat, start: nat, j: nat)
    requires PartAt(part, b, at) && from <= i <= |part| && start == at + from && j == at + i
    ensures TrimReturns(part[from..i]) == TrimReturns(b[start..j])
  {
    SameSlice(part, b, at, from, i);
  }

  lemma JoinSame(a: Bytes, from: nat, to: nat, i: nat, b: Bytes, start: nat, end: nat, j: nat)
    requires from <= to <= |a| && i == NewlineFrom(a, from) < to
    requires start <= end <= |b| && j == NewlineFrom(b, start) < end
    requires TrimReturns(a[from..i]) == TrimReturns(b[start..j]) && Lines(a, i + 1, to) == Lines(b, j + 1, end)
    ensures Lines(a, from, to) == Lines(b, start, end)
  {
  }

  lemma LinesOfSlice(b: Bytes, at: nat, length: nat, from: nat, to: nat)
    requires at + length <= |b| && from <= to <= length
    ensures Lines(b[at..at + length], from, to) == Lines(b, at + from, at + to)
  {
    SameLines(b[at..at + length], b, at, from, to, at + from, at + to);
  }

  lemma NoLinesIff(b: Bytes)
    ensures Lines(b, 0, |b|) == [] <==> NEWLINE !in b
  {
  }

  // ----- one chunk -----

  /** At most `n` lines from `from` on, and where they end. */
  function Taken(b: Bytes, from: nat, n: nat): (r: (seq<Bytes>, nat))
    requires from <= |b|
    ensures from <= r.1 <= |b| && |r.0| <= n
    decreases |b| - from
  {
    var i := NewlineFrom(b, from);
    if n == 0 || i == |b| then ([], from)
    else
      var (lines, end) := Taken(b, i + 1, n - 1);
      ([TrimReturns(b[from..i])] + lines, end)
  }

  lemma {:induction false} TakenAreLines(b: Bytes, from: nat, n: nat)
    requires from <= |b|
    ensures
      var (lines, end) := Taken(b, from, n);
      lines == Lines(b, from, end) && (end == from || LineStart(b, end))
    decreases |b| - from
  {
    var i := NewlineFrom(b, from);
    if n > 0 && i < |b| {
      TakenAreLines(b, i + 1, n - 1);
    }
  }

  lemma TakenMovesIff(b: Bytes, n: nat)
    ensures n > 0 && NEWLINE in b <==> Taken(b, 0, n).1 > 0
    ensures n > 0 && NEWLINE in b <==> Taken(b, 0, n).0 != []
  {
  }

  /** Taking stops only at the limit or when no complete line is left. */
  lemma {:induction false} TakesAllItCan(b: Bytes, from: nat, n: nat)
    requires from <= |b|
    ensures
      var (lines, end) := Taken(b, from, n);
      |lines| == n || NEWLINE !in b[end..]
    decreases |b| - from
  {
    var i := NewlineFrom(b, from);
    if n > 0 && i < |b| {
      TakesAllItCan(b, i + 1, n - 1);
    }
  }

  /** `lines`, ending at `at`, are the first of the `n` lines to take. */
  ghost predicate TakenSoFar(b: Bytes, n: nat, lines: seq<Bytes>, at: nat)
    requires at <= |b| && |lines| <= n
  {
    && Taken(b, 0, n).0 == lines + Taken(b, at, n - |lines|).0
    && Taken(b, 0, n).1 == Taken(b, at, n - |lines|).1
  }

  lemma TakenOneMore(b: Bytes, n: nat, lines: seq<Bytes>, at: nat)
    requires at <= |b| && |lines| < n && TakenSoFar(b, n, lines, at) && NewlineFrom(b, at) < |b|
    ensures TakenSoFar(b, n, lines + [TrimReturns(b[at..NewlineFrom(b, at)])], NewlineFrom(b, at) + 1)
  {
    var line, later := TrimReturns(b[at..NewlineFrom(b, at)]), Taken(b, NewlineFrom(b, at) + 1, n - |lines| - 1).0;
    assert lines + ([line] + later) == (lines + [line]) + later;
  }

  lemma TakenAll(b: Bytes, n: nat, lines: seq<Bytes>, at: nat)
    requires at <= |b| && |lines| <= n && TakenSoFar(b, n, lines, at)
    requires |lines| == n || NewlineFrom(b, at) == |b|
    ensures Taken(b, 0, n) == (lines, at)
  {
    assert lines + [] == lines;
  }

  function Split(buffer: Bytes, more: bool): (seq<Bytes>, nat) {
    if NEWLINE !in buffer then
      if more && |buffer| >= MAX_HELD_LINE then ([buffer], |buffer|) else ([], 0)
    else Taken(buffer, 0, MAX_SHIP_LINES)
  }

  method SplitLines(buffer: Bytes, more: bool) returns (lines: seq<Bytes>, consumed: nat)
    ensures (lines, consumed) == Split(buffer, more)
  {
    if NEWLINE !in buffer {
      if more && |buffer| >= MAX_HELD_LINE {
        return [buffer], |buffer|;
      }
      return [], 0;
    }
    lines, consumed := [], 0;
    while consumed < |buffer| && |lines| < MAX_SHIP_LINES
      invariant consumed <= |buffer| && |lines| <= MAX_SHIP_LINES
      invariant TakenSoFar(buffer, MAX_SHIP_LINES, lines, consumed)
      decreases |buffer| - consumed
    {
      var next := NewlineFrom(buffer, consumed);
      if next == |buffer| {
        break;
      }
      TakenOneMore(buffer, MAX_SHIP_LINES, lines, consumed);
      lines := lines + [TrimReturns(buffer[consumed..next])];
      consumed := next + 1;
    }
    TakenAll(buffer, MAX_SHIP_LINES, lines, consumed);
  }

  /** A chunk gives its own complete lines, unless it is one overlong line that is given up on. */
  lemma SplitShipsItsLinesIff(buffer: Bytes, more: bool)
    ensures
      var (lines, consumed) := Split(buffer, more);
      && consumed <= |buffer|
      && ((lines == Lines(buffer, 0, consumed) && LineStart(buffer, consumed))
        <==> !(NEWLINE !in buffer && |buffer| >= MAX_HELD_LINE && more))
      && (consumed > 0 <==> lines != [])
      && (NEWLINE in buffer ==> consumed > 0)
  {
    TakenAreLines(buffer, 0, MAX_SHIP_LINES);
    TakenMovesIff(buffer, MAX_SHIP_LINES);
    NoLinesIff(buffer);
  }

  // ----- one tick -----

  function Chunk(file: Bytes, from: nat): Bytes
    requires from <= |file|
  {
    file[from..from + Min(MAX_SHIP_BYTES, |file| - from)]
  }

  /** `file` is what there is to read; `size` is what stat said just before. */
  function ReadSince(file: Bytes, size: nat, offset: nat): (r: (seq<Bytes>, nat))
    requires size <= |file|
    ensures r.1 <= |file|
  {
    var from := if size < offset then 0 else offset;
    if size == from then ([], from)
    else
      var buffer := Chunk(file, from);
      var (lines, consumed) := Split(buffer, |buffer| < size - from);
      (lines, from + consumed)
  }

  /** The chunk is one unfinished line, long enough to be given up on. */
  ghost predicate GivesUp(file: Bytes, size: nat, from: nat)
    requires from <= size <= |file|
  {
    var buffer := Chunk(file, from);
    size != from && NEWLINE !in buffer && |buffer| >= MAX_HELD_LINE && |buffer| < size - from
  }

  /** From `offset` to `next` there are exactly these lines, and then a line starts. */
  ghost predicate Passes(file: Bytes, offset: nat, lines: seq<Bytes>, next: nat)
    requires offset <= next <= |file|
  {
    Lines(file, offset, next) == lines && LineStart(file, next)
  }

  lemma ChunkPassesIff(file: Bytes, offset: nat, lines: seq<Bytes>, consumed: nat)
    requires LineStart(file, offset) && consumed <= |Chunk(file, offset)|
    ensures
      var buffer := Chunk(file, offset);
      Passes(file, offset, lines, offset + consumed) <==>
        Lines(buffer, 0, consumed) == lines && LineStart(buffer, consumed)
  {
    var buffer := Chunk(file, offset);
    LinesOfSlice(file, offset, |buffer|, 0, consumed);
    assert consumed > 0 ==> buffer[consumed - 1] == file[offset + consumed - 1];
  }

  /**
   Reading on from the start of a line, a tick ships exactly the lines it passes over, and stops at
   the start of a line, if and only if it does not give up on an overlong one; and it moves whenever
   the chunk holds a complete line.
   */
  lemma TickShipsItsLinesIff(file: Bytes, size: nat, offset: nat)
    requires offset <= size <= |file| && LineStart(file, offset)
    ensures
      var (lines, next) := ReadSince(file, size, offset);
      && offset <= next <= offset + MAX_SHIP_BYTES
      && (Passes(file, offset, lines, next) <==> !GivesUp(file, size, offset))
      && (offset < next <==> lines != [])
      && (offset < size && NEWLINE in Chunk(file, offset) ==> offset < next)
  {
    if size != offset {
      var buffer := Chunk(file, offset);
      var (lines, consumed) := Split(buffer, |buffer| < size - offset);
      SplitShipsItsLinesIff(buffer, |buffer| < size - offset);
      ChunkPassesIff(file, offset, lines, consumed);
    }
  }

  /**
   A tick leaves a complete line of its chunk behind only if it ships as many as it may. A line given up
   on is shipped as far as the chunk goes, as it is; and a file that became shorter is read anew.
   */
  lemma TickShipsAllItCan(file: Bytes, size: nat, offset: nat)
    requires size <= |file|
    ensures
      var (lines, next) := ReadSince(file, size, offset);
      && |lines| <= MAX_SHIP_LINES
      && (size < offset ==> (lines, next) == ReadSince(file, size, 0))
      && (size == offset ==> (lines, next) == ([], offset))
      && (offset < size ==> offset <= next && next - offset <= |Chunk(file, offset)|)
      && (offset < size ==> |lines| == MAX_SHIP_LINES || NEWLINE !in Chunk(file, offset)[next - offset..])
      && (offset <= size && GivesUp(file, size, offset) ==>
          (lines, next) == ([Chunk(file, offset)], offset + |Chunk(file, offset)|))
  {
    if offset < size {
      var buffer := Chunk(file, offset);
      TakesAllItCan(buffer, 0, MAX_SHIP_LINES);
      if NEWLINE !in buffer {
        assert forall k: nat | k <= |buffer| :: NEWLINE !in buffer[k..];
      }
    }
  }

  // ----- whole runs over an append-only file -----

  /** The file is `length` long when read; `size` is the stat before; `reported` is the answer. */
  datatype Tick = Tick(length: nat, size: nat, reported: bool)

  datatype Shipped = Shipped(offset: nat, lines: seq<Bytes>)

  function Ship(file: Bytes, s: Shipped, t: Tick): Shipped
    requires t.size <= t.length <= |file|
  {
    var (lines, next) := ReadSince(file[..t.length], t.size, s.offset);
    if lines == [] || !t.reported then s else Shipped(next, s.lines + lines)
  }

  /** `file` is everything that is ever written; lengths never shrink. */
  ghost predicate Growing(file: Bytes, ticks: seq<Tick>) {
    && (forall i | 0 <= i < |ticks| :: ticks[i].size <= ticks[i].length <= |file|)
    && (forall i, j | 0 <= i < j < |ticks| :: ticks[i].length <= ticks[j].size)
  }

  function Run(file: Bytes, ticks: seq<Tick>): Shipped
    requires forall i | 0 <= i < |ticks| :: ticks[i].size <= ticks[i].length <= |file|
    decreases |ticks|
  {
    if ticks == [] then Shipped(0, [])
    else Ship(file, Run(file, ticks[..|ticks| - 1]), ticks[|ticks| - 1])
  }

  /** No line, with its newline, is longer than a chunk, unless nothing at all follows the chunk. */
  ghost predicate LinesFit(file: Bytes) {
    forall s: nat :: !Overlong(file, s)
  }

  ghost predicate Overlong(file: Bytes, s: nat) {
    LineStart(file, s) && s + MAX_SHIP_BYTES < |file| && NEWLINE !in file[s..s + MAX_SHIP_BYTES]
  }

  ghost predicate Faithful(file: Bytes, s: Shipped) {
    s.offset <= |file| && LineStart(file, s.offset) && s.lines == Lines(file, 0, s.offset)
  }

  lemma PrefixLineStart(file: Bytes, length: nat, at: nat)
    requires at <= length <= |file|
    ensures LineStart(file[..length], at) <==> LineStart(file, at)
    ensures Lines(file[..length], 0, at) == Lines(file, 0, at)
  {
    LinesOfSlice(file, 0, length, 0, at);
    assert file[0..length] == file[..length];
  }

  lemma FittingNeverGivesUp(file: Bytes, t: Tick, offset: nat)
    requires LinesFit(file) && offset <= t.size <= t.length <= |file| && LineStart(file, offset)
    ensures !GivesUp(file[..t.length], t.size, offset)
  {
    var buffer := Chunk(file[..t.length], offset);
    assert !Overlong(file, offset);
    if |buffer| == MAX_SHIP_BYTES {
      SameSlice(file[..t.length], file, 0, offset, offset + MAX_SHIP_BYTES);
    }
  }

  lemma ShipKeepsFaith(file: Bytes, s: Shipped, t: Tick)
    requires LinesFit(file) && t.size <= t.length <= |file| && Faithful(file, s) && s.offset <= t.size
    ensures Faithful(file, Ship(file, s, t)) && s.offset <= Ship(file, s, t).offset <= t.length
  {
    PrefixLineStart(file, t.length, s.offset);
    FittingNeverGivesUp(file, t, s.offset);
    TickShipsItsLinesIff(file[..t.length], t.size, s.offset);
    var next := ReadSince(file[..t.length], t.size, s.offset).1;
    PrefixLineStart(file, t.length, next);
    LinesConcat(file[..t.length], 0, s.offset, next);
  }

  lemma {:induction false} RunKeepsFaith(file: Bytes, ticks: seq<Tick>)
    requires LinesFit(file) && Growing(file, ticks)
    ensures Faithful(file, Run(file, ticks))
    ensures Run(file, ticks).offset <= if ticks == [] then 0 else ticks[|ticks| - 1].length
    decreases |ticks|
  {
    if ticks != [] {
      var earlier := ticks[..|ticks| - 1];
      RunKeepsFaith(file, earlier);
      ShipKeepsFaith(file, Run(file, earlier), ticks[|ticks| - 1]);
    }
  }

  /** A reported tick that finds a complete line waiting moves on. */
  lemma PendingLineIsShipped(file: Bytes, ticks: seq<Tick>, t: Tick)
    requires LinesFit(file) && Growing(file, ticks + [t]) && t.reported
    requires Growing(file, ticks) && Run(file, ticks).offset < t.size <= t.length <= |file|
    requires NEWLINE in file[Run(file, ticks).offset..t.size]
    ensures Run(file, ticks + [t]).offset > Run(file, ticks).offset
  {
    RunKeepsFaith(file, ticks);
    assert (ticks + [t])[..|ticks|] == ticks;
    PendingIsRead(file, Run(file, ticks).offset, t);
  }

  lemma PendingIsRead(file: Bytes, offset: nat, t: Tick)
    requires LinesFit(file) && LineStart(file, offset) && offset < t.size <= t.length <= |file|
    requires NEWLINE in file[offset..t.size]
    ensures ReadSince(file[..t.length], t.size, offset).1 > offset
      && ReadSince(file[..t.length], t.size, offset).0 != []
  {
    var whole := file[..t.length];
    var buffer := Chunk(whole, offset);
    assert !Overlong(file, offset);
    if |buffer| == MAX_SHIP_BYTES && offset + MAX_SHIP_BYTES < |file| {
      assert buffer == file[offset..offset + MAX_SHIP_BYTES];
    } else {
      assert whole[offset..t.size] == file[offset..t.size];
      assert forall k | offset <= k < t.size :: file[k] == buffer[k - offset];
    }
    TickShipsItsLinesIff(whole, t.size, offset);
  }

  // ----- the condition is exact -----

  function FullTicks(file: Bytes, n: nat): seq<Tick> {
    seq(n, _ => Tick(|file|, |file|, true))
  }

  ghost predicate AlwaysFaithful(file: Bytes) {
    forall ticks: seq<Tick> | Growing(file, ticks) :: Faithful(file, Run(file, ticks))
  }

  ghost predicate NoneBefore(file: Bytes, s: nat) {
    forall e: nat | e < s :: !Overlong(file, e)
  }

  lemma {:induction false} FirstOverlong(file: Bytes, s: nat) returns (first: nat)
    requires Overlong(file, s)
    ensures Overlong(file, first) && NoneBefore(file, first)
  {
    if NoneBefore(file, s) {
      return s;
    }
    var e: nat :| e < s && Overlong(file, e);
    first := FirstOverlong(file, e);
  }

  /** Before the first overlong line a tick moves on, and not past the start of that line. */
  lemma TickBeforeTheOverlong(file: Bytes, s: nat, at: Shipped)
    requires Overlong(file, s) && NoneBefore(file, s)
    requires Faithful(file, at) && at.offset < s
    ensures
      var next := Ship(file, at, Tick(|file|, |file|, true));
      Faithful(file, next) && at.offset < next.offset <= s
  {
    assert file[..|file|] == file;
    var from := at.offset;
    var buffer := Chunk(file, from);
    assert !Overlong(file, from);
    assert NEWLINE in buffer;
    TickShipsItsLinesIff(file, |file|, from);
    LinesConcat(file, 0, from, ReadSince(file, |file|, from).1);
  }

  lemma OneMore(file: Bytes, n: nat)
    ensures Run(file, FullTicks(file, n + 1)) == Ship(file, Run(file, FullTicks(file, n)), Tick(|file|, |file|, true))
  {
    assert FullTicks(file, n + 1)[..n] == FullTicks(file, n);
  }

  lemma {:induction false} ReachesTheOverlong(file: Bytes, s: nat, n: nat) returns (m: nat)
    requires Overlong(file, s) && NoneBefore(file, s)
    requires Faithful(file, Run(file, FullTicks(file, n))) && Run(file, FullTicks(file, n)).offset <= s
    ensures Run(file, FullTicks(file, m)).offset == s && Faithful(file, Run(file, FullTicks(file, m)))
    decreases s - Run(file, FullTicks(file, n)).offset
  {
    var at := Run(file, FullTicks(file, n));
    if at.offset == s {
      return n;
    }
    TickBeforeTheOverlong(file, s, at);
    OneMore(file, n);
    m := ReachesTheOverlong(file, s, n + 1);
  }

  lemma GivingUpIsUnfaithful(file: Bytes, at: Shipped)
    requires Faithful(file, at) && Overlong(file, at.offset)
    ensures !Faithful(file, Ship(file, at, Tick(|file|, |file|, true)))
  {
    assert file[..|file|] == file;
    TickShipsItsLinesIff(file, |file|, at.offset);
    LinesConcat(file, 0, at.offset, ReadSince(file, |file|, at.offset).1);
    SameTail(Lines(file, 0, at.offset), ReadSince(file, |file|, at.offset).0,
      Lines(file, at.offset, ReadSince(file, |file|, at.offset).1));
  }

  lemma SameTail<T>(a: seq<T>, b: seq<T>, c: seq<T>)
    ensures a + b == a + c <==> b == c
  {
    assert (a + b)[|a|..] == b && (a + c)[|a|..] == c;
  }

  lemma OverlongBreaksFaith(file: Bytes, s: nat) returns (n: nat)
    requires Overlong(file, s)
    ensures !Faithful(file, Run(file, FullTicks(file, n)))
  {
    var first := FirstOverlong(file, s);
    assert Run(file, FullTicks(file, 0)) == Shipped(0, []);
    var m := ReachesTheOverlong(file, first, 0);
    OneMore(file, m);
    GivingUpIsUnfaithful(file, Run(file, FullTicks(file, m)));
    n := m + 1;
  }

  /**
   Every run over every growing file ships exactly the split of what it has passed, in order and
   once each, if and only if no line fills a whole chunk that something follows.
   */
  lemma ShippingIsFaithfulIff(file: Bytes)
    ensures AlwaysFaithful(file) <==> LinesFit(file)
  {
    if LinesFit(file) {
      forall ticks: seq<Tick> | Growing(file, ticks) ensures Faithful(file, Run(file, ticks)) {
        RunKeepsFaith(file, ticks);
      }
    } else {
      var s: nat :| Overlong(file, s);
      var n := OverlongBreaksFaith(file, s);
      assert Growing(file, FullTicks(file, n));
    }
  }

  // ----- the agent -----

  /** An assigned instance: its log if it keeps one, what stat says of it, the answer to a report. */
  datatype Workload = Workload(id: string, log: Option<Bytes>, size: nat, reported: bool) {
    ghost predicate Valid() {
      log.Some? ==> size <= |log.value|
    }
  }

  datatype Report = Report(id: string, lines: seq<Bytes>)

  function OffsetOf(offsets: map<string, nat>, id: string): nat {
    if id in offsets then offsets[id] else 0
  }

  /** What `id` has sent in these reports, in order. */
  function SentBy(id: string, sent: seq<Report>): seq<Bytes> {
    if sent == [] then []
    else
      var last := sent[|sent| - 1];
      SentBy(id, sent[..|sent| - 1]) + if last.id == id then last.lines else []
  }

  ghost predicate Distinct(ws: seq<Workload>) {
    forall i, j | 0 <= i < j < |ws| :: ws[i].id != ws[j].id
  }

  ghost predicate AllValid(ws: seq<Workload>) {
    forall i | 0 <= i < |ws| :: ws[i].Valid()
  }

  /** Where shipping for one workload leaves its offset and what it has sent. */
  ghost function ShippedFor(w: Workload, was: Shipped): Shipped
    requires w.Valid()
  {
    if w.log.None? then was else Ship(w.log.value, was, Tick(|w.log.value|, w.size, w.reported))
  }

  /** Each of the first `n` workloads took its own step; every other offset stands. */
  ghost predicate TickedUpTo(ws: seq<Workload>, n: nat, was: map<string, nat>, now: map<string, nat>, sent: seq<Report>)
    requires n <= |ws| && AllValid(ws)
  {
    && (forall i | 0 <= i < n ::
      Shipped(OffsetOf(now, ws[i].id), SentBy(ws[i].id, sent)) ==
        ShippedFor(ws[i], Shipped(OffsetOf(was, ws[i].id), [])))
    && (forall id | id !in Ids(ws, n) :: Lookup(now, id) == Lookup(was, id) && SentBy(id, sent) == [])
  }

  ghost function Ids(ws: seq<Workload>, n: nat): set<string>
    requires n <= |ws|
  {
    set i | 0 <= i < n :: ws[i].id
  }

  lemma SentByOneMore(id: string, sent: seq<Report>, r: Report)
    ensures SentBy(id, sent + [r]) == SentBy(id, sent) + if r.id == id then r.lines else []
  {
    assert (sent + [r])[..|sent|] == sent;
  }

  /** `w` alone took its step, and it had sent nothing before. */
  ghost predicate TookStep(w: Workload, was: map<string, nat>, sentBefore: seq<Report>, now: map<string, nat>,
                           sent: seq<Report>)
    requires w.Valid()
  {
    && (SentBy(w.id, sentBefore) == [] ==>
      Shipped(OffsetOf(now, w.id), SentBy(w.id, sent)) == ShippedFor(w, Shipped(OffsetOf(was, w.id), [])))
    && (forall id | id != w.id :: Lookup(now, id) == Lookup(was, id) && SentBy(id, sent) == SentBy(id, sentBefore))
  }

  lemma OneMoreTicked(ws: seq<Workload>, n: nat, was: map<string, nat>, mid: map<string, nat>,
                      sentBefore: seq<Report>, now: map<string, nat>, sent: seq<Report>)
    requires n < |ws| && Distinct(ws) && AllValid(ws)
    requires TickedUpTo(ws, n, was, mid, sentBefore) && TookStep(ws[n], mid, sentBefore, now, sent)
    ensures TickedUpTo(ws, n + 1, was, now, sent)
  {
    var w := ws[n];
    assert w.id !in Ids(ws, n);
    assert Lookup(mid, w.id) == Lookup(was, w.id);
    forall i | 0 <= i < n
      ensures Lookup(now, ws[i].id) == Lookup(mid, ws[i].id) && SentBy(ws[i].id, sent) == SentBy(ws[i].id, sentBefore)
    {
      assert ws[i].id != w.id;
    }
    assert Ids(ws, n + 1) == Ids(ws, n) + {w.id};
  }

  class Shipper {
    var offsets: map<string, nat>

    constructor ()
      ensures offsets == map[]
    {
      offsets := map[];
    }

    method ShipLog(w: Workload, sentBefore: seq<Report>) returns (sent: seq<Report>)
      requires w.Valid()
      modifies this
      ensures TookStep(w, old(offsets), sentBefore, offsets, sent)
    {
      sent := sentBefore;
      if w.log.Some? {
        assert w.log.value[..|w.log.value|] == w.log.value;
        var (lines, next) := ReadSince(w.log.value, w.size, OffsetOf(offsets, w.id));
        if lines != [] && w.reported {
          offsets := offsets[w.id := next];
          sent := sentBefore + [Report(w.id, lines)];
          forall id ensures SentBy(id, sent) == SentBy(id, sentBefore) + if w.id == id then lines else [] {
            SentByOneMore(id, sentBefore, Report(w.id, lines));
          }
        }
      }
    }

    /** One pass over the assigned workloads: every one of them takes the step `Ship` describes. */
    method ShipLogs(ws: seq<Workload>) returns (sent: seq<Report>)
      requires Distinct(ws) && AllValid(ws)
      modifies this
      ensures TickedUpTo(ws, |ws|, old(offsets), offsets, sent)
    {
      sent := [];
      for n := 0 to |ws|
        invariant TickedUpTo(ws, n, old(offsets), offsets, sent)
      {
        ghost var mid, sentBefore := offsets, sent;
        sent := ShipLog(ws[n], sent);
        OneMoreTicked(ws, n, old(offsets), mid, sentBefore, offsets, sent);
      }
    }

    /** Offsets of workloads no longer assigned are dropped, the others are kept. */
    method ForgetLogs(ws: seq<Workload>)
      modifies this
      ensures offsets == map id | id in old(offsets) && id in Ids(ws, |ws|) :: old(offsets)[id]
    {
      var wanted := {};
      for n := 0 to |ws|
        invariant wanted == Ids(ws, n)
      {
        wanted := wanted + {ws[n].id};
      }
      var left := offsets.Keys;
      while left != {}
        invariant left <= old(offsets).Keys
        invariant offsets == map id | id in old(offsets) && (id in left || id in wanted) :: old(offsets)[id]
        decreases |left|
      {
        var id :| id in left;
        left := left - {id};
        if id !in wanted {
          offsets := offsets - {id};
        }
      }
    }
  }
}

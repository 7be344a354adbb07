/** The buffer of the agent's last log lines (agent/log_buffer.go). */
module LogBuffer {
  import opened Common

  const NEWLINE: byte := 10
  const RETURN: byte := 13

  // ------------------------------------------------------------- lines of a text

  /** The first place of a newline, or -1. */
  function IndexOf(data: seq<byte>): (i: int)
    ensures -1 <= i < |data|
  {
    if |data| == 0 then -1
    else if data[0] == NEWLINE then 0
    else if IndexOf(data[1..]) < 0 then -1
    else IndexOf(data[1..]) + 1
  }

  lemma {:induction false} IndexOfMeans(data: seq<byte>)
    ensures IndexOf(data) >= 0 ==> data[IndexOf(data)] == NEWLINE && NEWLINE !in data[..IndexOf(data)]
    ensures IndexOf(data) < 0 ==> NEWLINE !in data
  {
    if |data| > 0 && data[0] != NEWLINE {
      IndexOfMeans(data[1..]);
      var rest := IndexOf(data[1..]);
      if rest >= 0 {
        assert data[..rest + 1] == [data[0]] + data[1..][..rest];
      } else {
        assert data == [data[0]] + data[1..];
      }
    }
  }

  /** The terminated lines of a text, without their newlines. */
  function Lines(data: seq<byte>): seq<seq<byte>>
    decreases |data|
  {
    if IndexOf(data) < 0 then [] else [data[..IndexOf(data)]] + Lines(data[IndexOf(data) + 1..])
  }

  /** What follows the last newline. */
  function Tail(data: seq<byte>): seq<byte>
    decreases |data|
  {
    if IndexOf(data) < 0 then data else Tail(data[IndexOf(data) + 1..])
  }

  function Terminated(lines: seq<seq<byte>>): seq<byte> {
    if |lines| == 0 then [] else lines[0] + [NEWLINE] + Terminated(lines[1..])
  }

  lemma {:induction false} LinesAt(data: seq<byte>, i: nat, rest: seq<byte>)
    requires IndexOf(data) == i && rest == data[i + 1..]
    ensures Lines(data) == [data[..i]] + Lines(rest) && Tail(data) == Tail(rest)
  {
  }

  lemma {:induction false} JoinAt(data: seq<byte>, i: nat)
    requires i < |data|
    ensures data == data[..i] + [data[i]] + data[i + 1..]
  {
  }

  lemma {:induction false} TerminatedFirst(line: seq<byte>, lines: seq<seq<byte>>, tail: seq<byte>)
    ensures Terminated([line] + lines) + tail == line + [NEWLINE] + (Terminated(lines) + tail)
  {
    assert ([line] + lines)[1..] == lines;
    Associate(line + [NEWLINE], Terminated(lines), tail);
  }

  /** Splitting loses nothing: the lines with their newlines, then the tail, are the text. */
  lemma {:induction false} SplitRoundTrip(data: seq<byte>)
    ensures Terminated(Lines(data)) + Tail(data) == data
    decreases |data|
  {
    IndexOfMeans(data);
    var i := IndexOf(data);
    if i >= 0 {
      var rest := data[i + 1..];
      LinesAt(data, i, rest);
      SplitRoundTrip(rest);
      TerminatedFirst(data[..i], Lines(rest), Tail(rest));
      JoinAt(data, i);
    }
  }

  /** And it splits at every newline. */
  lemma {:induction false} SplitIsComplete(data: seq<byte>)
    ensures NEWLINE !in Tail(data) && forall line :: line in Lines(data) ==> NEWLINE !in line
    decreases |data|
  {
    IndexOfMeans(data);
    if IndexOf(data) >= 0 {
      SplitIsComplete(data[IndexOf(data) + 1..]);
    }
  }

  lemma {:induction false} IndexOfOn(a: seq<byte>, b: seq<byte>)
    requires IndexOf(a) >= 0
    ensures IndexOf(a + b) == IndexOf(a)
  {
    if a[0] != NEWLINE {
      IndexOfOn(a[1..], b);
      assert (a + b)[1..] == a[1..] + b;
    }
  }

  lemma {:induction false} CutOn(a: seq<byte>, b: seq<byte>, i: nat)
    requires i < |a|
    ensures (a + b)[..i] == a[..i] && (a + b)[i + 1..] == a[i + 1..] + b
  {
  }

  /** Text added later only adds to the tail. */
  lemma {:induction false} SplitOn(a: seq<byte>, b: seq<byte>)
    ensures Lines(a + b) == Lines(a) + Lines(Tail(a) + b)
    ensures Tail(a + b) == Tail(Tail(a) + b)
    decreases |a|
  {
    var i := IndexOf(a);
    if i >= 0 {
      IndexOfOn(a, b);
      var rest := a[i + 1..];
      CutOn(a, b, i);
      LinesAt(a, i, rest);
      LinesAt(a + b, i, rest + b);
      SplitOn(rest, b);
      Associate([a[..i]], Lines(rest), Lines(Tail(rest) + b));
    }
  }

  // ------------------------------------------------------------------ what is kept

  function Trimmed(line: seq<byte>): seq<byte> {
    if |line| > 0 && line[|line| - 1] == RETURN then line[..|line| - 1] else line
  }

  /** One carriage return at the end of a line goes. */
  lemma {:induction false} TrimmedIs(line: seq<byte>)
    ensures Trimmed(line + [RETURN]) == line
    ensures (|line| == 0 || line[|line| - 1] != 13) ==> Trimmed(line) == line
  {
    assert (line + [RETURN])[..|line|] == line;
  }

  function TrimAll(lines: seq<seq<byte>>): seq<seq<byte>> {
    seq(|lines|, i requires 0 <= i < |lines| => Trimmed(lines[i]))
  }

  function Last(lines: seq<seq<byte>>, max: nat): seq<seq<byte>> {
    if |lines| <= max then lines else lines[|lines| - max..]
  }

  lemma {:induction false} LastOn(a: seq<seq<byte>>, b: seq<seq<byte>>, max: nat)
    ensures Last(Last(a, max) + b, max) == Last(a + b, max)
  {
  }

  function Join(lines: seq<seq<byte>>): seq<byte> {
    if |lines| == 0 then [] else if |lines| == 1 then lines[0] else lines[0] + [NEWLINE] + Join(lines[1..])
  }

  lemma {:induction false} IndexOfFirst(line: seq<byte>, rest: seq<byte>)
    requires NEWLINE !in line
    ensures IndexOf(line + [NEWLINE] + rest) == |line|
  {
    var data := line + [NEWLINE] + rest;
    if |line| == 0 {
    } else {
      assert data[0] == line[0] && line[0] in line;
      assert data[1..] == line[1..] + [NEWLINE] + rest;
      IndexOfFirst(line[1..], rest);
    }
  }

  /** Joined lines are told apart again by their newlines. */
  lemma {:induction false} JoinedIsSplit(lines: seq<seq<byte>>)
    requires |lines| > 0 && forall i :: 0 <= i < |lines| ==> NEWLINE !in lines[i]
    ensures Lines(Join(lines) + [NEWLINE]) == lines
  {
    var line, rest := lines[0], lines[1..];
    var more := if |rest| == 0 then [] else Join(rest) + [NEWLINE];
    assert Lines(more) == rest by {
      if |rest| > 0 {
        JoinedIsSplit(rest);
      }
    }
    JoinFirst(line, rest);
    FirstLine(line, more);
    assert lines == [line] + rest;
  }

  lemma {:induction false} JoinFirst(line: seq<byte>, rest: seq<seq<byte>>)
    ensures Join([line] + rest) + [NEWLINE] == line + [NEWLINE] + if |rest| == 0 then [] else Join(rest) + [NEWLINE]
  {
    assert ([line] + rest)[1..] == rest;
  }

  lemma {:induction false} FirstLine(line: seq<byte>, more: seq<byte>)
    requires NEWLINE !in line
    ensures Lines(line + [NEWLINE] + more) == [line] + Lines(more)
  {
    var data := line + [NEWLINE] + more;
    IndexOfFirst(line, more);
    assert data[..|line|] == line && data[|line| + 1..] == more;
    LinesAt(data, |line|, more);
  }

  /** The buffer's contents after some more bytes. */
  datatype Contents = Contents(kept: seq<seq<byte>>, partial: seq<byte>)

  function Written(before: Contents, p: seq<byte>, max: nat): Contents {
    var data := before.partial + p;
    Contents(Last(before.kept + TrimAll(Lines(data)), max), Tail(data))
  }

  function WrittenAll(chunks: seq<seq<byte>>, max: nat): Contents {
    if |chunks| == 0 then Contents([], [])
    else Written(WrittenAll(chunks[..|chunks| - 1], max), chunks[|chunks| - 1], max)
  }

  function Concat(chunks: seq<seq<byte>>): seq<byte> {
    if |chunks| == 0 then [] else Concat(chunks[..|chunks| - 1]) + chunks[|chunks| - 1]
  }

  lemma {:induction false} TrimAllJoins(a: seq<seq<byte>>, b: seq<seq<byte>>)
    ensures TrimAll(a + b) == TrimAll(a) + TrimAll(b)
  {
  }

  /** However the bytes are split into writes, the buffer holds the last complete lines
      of all of them, in order, without carriage returns, and the unterminated tail. */
  lemma {:induction false} ChunksDoNotMatter(chunks: seq<seq<byte>>, max: nat)
    ensures WrittenAll(chunks, max) == Contents(Last(TrimAll(Lines(Concat(chunks))), max), Tail(Concat(chunks)))
  {
    if |chunks| == 0 {
    } else {
      var front, p := chunks[..|chunks| - 1], chunks[|chunks| - 1];
      ChunksDoNotMatter(front, max);
      var data := Concat(front);
      SplitOn(data, p);
      TrimAllJoins(Lines(data), Lines(Tail(data) + p));
      LastOn(TrimAll(Lines(data)), TrimAll(Lines(Tail(data) + p)), max);
    }
  }

  // --------------------------------------------------------------------- the buffer

  class Buffer {
    const max: nat
    var lines: seq<seq<byte>>
    var next: nat
    var partial: seq<byte>
    ghost var written: seq<seq<byte>>

    /** `next` is the oldest line once the buffer is full. */
    ghost predicate IsRing()
      reads this
    {
      max > 0 && |lines| <= max && next < max && (|lines| < max ==> next == 0)
    }

    /** The buffer holds what was written to it. */
    ghost predicate Valid()
      reads this
    {
      IsRing() && State() == WrittenAll(written, max)
    }

    ghost function Ordered(): seq<seq<byte>>
      requires IsRing()
      reads this
    {
      lines[next..] + lines[..next]
    }

    ghost function State(): Contents
      requires IsRing()
      reads this
    {
      Contents(Ordered(), partial)
    }

    constructor (max: nat)
      requires max > 0
      ensures Valid() && this.max == max && written == []
    {
      this.max := max;
      lines, next, partial, written := [], 0, [], [];
    }

    method Add(line: seq<byte>)
      requires IsRing()
      modifies `lines, `next
      ensures IsRing() && Ordered() == Last(old(Ordered()) + [line], max)
    {
      if |lines| < max {
        GrowsAt(lines, line);
        lines := lines + [line];
        return;
      }
      RingAdd(lines, next, line);
      lines := lines[next := line];
      next := Following(next, max);
    }

    /** Splits off the complete lines. */
    method Split(p: seq<byte>)
      requires IsRing()
      modifies `lines, `next, `partial
      ensures IsRing() && State() == Written(old(State()), p, max)
    {
      var data := partial + p;
      ghost var target := Written(State(), p, max);
      while true
        invariant IsRing()
        invariant Last(Ordered() + TrimAll(Lines(data)), max) == target.kept && Tail(data) == target.partial
        decreases |data|
      {
        var i := IndexOf(data);
        if i < 0 {
          break;
        }
        KeepLine(Ordered(), data[..i], Lines(data[i + 1..]), max);
        Add(Trimmed(data[..i]));
        data := data[i + 1..];
      }
      assert Ordered() + TrimAll([]) == Ordered();
      partial := data;
    }

    method Write(p: seq<byte>) returns (n: nat)
      requires Valid()
      modifies this
      ensures Valid() && n == |p| && written == old(written) + [p]
    {
      Split(p);
      WrittenMore(written, p, max);
      written := written + [p];
      n := |p|;
    }

    /** However the bytes were split into writes, the last complete lines of all of them. */
    method String() returns (text: seq<byte>)
      requires Valid()
      ensures text == Join(Last(TrimAll(Lines(Concat(written))), max))
    {
      ChunksDoNotMatter(written, max);
      text := Join(lines[next..] + lines[..next]);
    }
  }

  lemma {:induction false} WrittenMore(chunks: seq<seq<byte>>, p: seq<byte>, max: nat)
    ensures WrittenAll(chunks + [p], max) == Written(WrittenAll(chunks, max), p, max)
  {
    assert (chunks + [p])[..|chunks|] == chunks;
  }

  function Following(next: nat, max: nat): (following: nat)
    requires next < max
    ensures following == if next + 1 == max then 0 else next + 1
  {
    (next + 1) % max
  }

  /** A buffer that is not full is in order. */
  lemma {:induction false} GrowsAt(lines: seq<seq<byte>>, line: seq<byte>)
    ensures (lines + [line])[0..] + (lines + [line])[..0] == lines[0..] + lines[..0] + [line]
  {
    assert lines[0..] + lines[..0] == lines;
  }

  /** Overwriting the oldest line, and starting one later. */
  lemma {:induction false} RingAdd(lines: seq<seq<byte>>, next: nat, line: seq<byte>)
    requires next < |lines|
    ensures var after, next' := lines[next := line], if next + 1 == |lines| then 0 else next + 1;
      after[next'..] + after[..next'] == Last(lines[next..] + lines[..next] + [line], |lines|)
  {
    RingUpdate(lines, next, line);
    DropOldest(lines[next], lines[next + 1..], lines[..next], line);
    assert lines[next..] == [lines[next]] + lines[next + 1..];
  }

  lemma {:induction false} RingUpdate(lines: seq<seq<byte>>, next: nat, line: seq<byte>)
    requires next < |lines|
    ensures var after, next' := lines[next := line], if next + 1 == |lines| then 0 else next + 1;
      after[next'..] + after[..next'] == lines[next + 1..] + (lines[..next] + [line])
  {
    var after := lines[next := line];
    assert after[next + 1..] == lines[next + 1..] && after[..next + 1] == lines[..next] + [line];
    if next + 1 == |lines| {
      assert after[0..] + after[..0] == after[..next + 1];
    }
  }

  lemma {:induction false} DropOldest(oldest: seq<byte>, a: seq<seq<byte>>, b: seq<seq<byte>>, line: seq<byte>)
    ensures Last([oldest] + a + b + [line], |a| + |b| + 1) == a + (b + [line])
  {
    Associate([oldest] + a, b, [line]);
    Associate([oldest], a, b + [line]);
  }

  lemma {:induction false} KeepLine(kept: seq<seq<byte>>, line: seq<byte>, rest: seq<seq<byte>>, max: nat)
    ensures Last(kept + TrimAll([line] + rest), max) == Last(Last(kept + [Trimmed(line)], max) + TrimAll(rest), max)
  {
    TrimAllJoins([line], rest);
    assert TrimAll([line]) == [Trimmed(line)];
    Associate(kept, [Trimmed(line)], TrimAll(rest));
    LastOn(kept + [Trimmed(line)], TrimAll(rest), max);
  }
}

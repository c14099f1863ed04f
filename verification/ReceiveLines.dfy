/** The receive side of a connection: characters are assembled to lines, however they arrive in chunks. */
module ReceiveLines {
  import opened Sequences

  const MAX_LINE_LENGTH: nat := 65536

  predicate IsEnd(ch: char) {
    ch == '\n' || ch == '\r'
  }

  /** The index of the first line end, or the length of the stream if there is none. */
  ghost function FirstEnd(stream: string): (n: nat)
    ensures n <= |stream| && (n < |stream| ==> IsEnd(stream[n]))
    ensures forall k :: 0 <= k < n ==> !IsEnd(stream[k])
  {
    if stream == "" then 0 else if IsEnd(stream[0]) then 0 else 1 + FirstEnd(stream[1..])
  }

  /** The lines of a stream: its non-empty segments between line ends, up to the first that grows too long. */
  ghost function Lines(stream: string): (lines: seq<string>) {
    var n := FirstEnd(stream);
    if n >= MAX_LINE_LENGTH || n == |stream| then []
    else (if n == 0 then [] else [stream[..n]]) + Lines(stream[n + 1..])
  }

  /** Whether some segment of the stream grows too long. */
  ghost predicate TooLong(stream: string) {
    var n := FirstEnd(stream);
    n >= MAX_LINE_LENGTH || (n < |stream| && TooLong(stream[n + 1..]))
  }

  /** The last, unfinished segment. */
  ghost function Rest(stream: string): (rest: string) {
    var n := FirstEnd(stream);
    if n == |stream| then stream else Rest(stream[n + 1..])
  }

  lemma {:induction false} FirstEndOfAppended(a: string, b: string)
    ensures FirstEnd(a + b) == if FirstEnd(a) < |a| then FirstEnd(a) else |a| + FirstEnd(b)
  {
    if a == "" {
      assert a + b == b;
    } else if !IsEnd(a[0]) {
      FirstEndOfAppended(a[1..], b);
      assert (a + b)[1..] == a[1..] + b;
    }
  }

  lemma {:induction false} FirstSegment(a: string, b: string)
    requires FirstEnd(a) < |a|
    ensures var n := FirstEnd(a);
            FirstEnd(a + b) == n && (a + b)[..n] == a[..n] && (a + b)[n + 1..] == a[n + 1..] + b
  {
    FirstEndOfAppended(a, b);
  }

  /** Reading on after a stream: its unfinished segment is read together with what follows. */
  lemma {:induction false} LinesOfAppended(a: string, b: string)
    requires !TooLong(a)
    ensures Lines(a + b) == Lines(a) + Lines(Rest(a) + b)
    ensures TooLong(a + b) <==> TooLong(Rest(a) + b)
  {
    var n := FirstEnd(a);
    if n < |a| {
      FirstLine(a, b);
      LinesOfAppended(a[n + 1..], b);
      Regrouped(if n == 0 then [] else [a[..n]], Lines(a[n + 1..]), Lines(Rest(a) + b));
    } else {
      NothingBefore(Lines(a + b));
    }
  }

  /** The first line of a stream is that of the stream with more behind it. */
  lemma {:induction false} FirstLine(a: string, b: string)
    requires FirstEnd(a) < |a| && FirstEnd(a) < MAX_LINE_LENGTH
    ensures var n := FirstEnd(a);
            && Lines(a + b) == (if n == 0 then [] else [a[..n]]) + Lines(a[n + 1..] + b)
            && (TooLong(a + b) <==> TooLong(a[n + 1..] + b))
  {
    FirstSegment(a, b);
  }

  lemma {:induction false} RestOfAppended(a: string, b: string)
    requires !TooLong(a)
    ensures Rest(a + b) == Rest(Rest(a) + b)
    ensures FirstEnd(Rest(a)) == |Rest(a)| < MAX_LINE_LENGTH
  {
    if FirstEnd(a) < |a| {
      FirstSegment(a, b);
      RestOfAppended(a[FirstEnd(a) + 1..], b);
    }
  }

  /** Nothing is delivered any more once a segment has grown too long. */
  lemma {:induction false} TooLongStays(a: string, b: string)
    requires TooLong(a)
    ensures Lines(a + b) == Lines(a) && TooLong(a + b)
  {
    var n := FirstEnd(a);
    FirstEndOfAppended(a, b);
    if n < |a| && n < MAX_LINE_LENGTH {
      TooLongStays(a[n + 1..], b);
      assert (a + b)[n + 1..] == a[n + 1..] + b;
      assert (a + b)[..n] == a[..n];
    }
  }

  /** One more character after a stream that has not grown too long. */
  lemma {:induction false} NextCharacter(stream: string, ch: char)
    requires !TooLong(stream)
    ensures |Rest(stream)| < MAX_LINE_LENGTH
    ensures Lines(stream + [ch]) == Lines(stream) + if IsEnd(ch) && Rest(stream) != "" then [Rest(stream)] else []
    ensures TooLong(stream + [ch]) <==> !IsEnd(ch) && |Rest(stream)| + 1 == MAX_LINE_LENGTH
    ensures Rest(stream + [ch]) == if IsEnd(ch) then "" else Rest(stream) + [ch]
  {
    var rest := Rest(stream);
    LinesOfAppended(stream, [ch]);
    RestOfAppended(stream, [ch]);
    FirstEndOfAppended(rest, [ch]);
    assert FirstEnd("") == 0;
    if IsEnd(ch) {
      assert (rest + [ch])[..|rest|] == rest;
      assert (rest + [ch])[|rest| + 1..] == "";
    }
  }

  /** Every line is non-empty, short enough and free of line ends. */
  lemma {:induction false} LinesAreLines(stream: string)
    ensures forall line :: line in Lines(stream) ==>
      line != "" && |line| < MAX_LINE_LENGTH && forall k :: 0 <= k < |line| ==> !IsEnd(line[k])
  {
    var n := FirstEnd(stream);
    if n < MAX_LINE_LENGTH && n < |stream| {
      LinesAreLines(stream[n + 1..]);
    }
  }

  /** A line to be sent, and the line ends that follow it. */
  datatype Terminated = Terminated(line: string, ends: string) {
    ghost predicate Fine() {
      && 0 < |line| < MAX_LINE_LENGTH
      && (forall k :: 0 <= k < |line| ==> !IsEnd(line[k]))
      && ends != "" && AllEnds(ends)
    }
  }

  ghost predicate AllEnds(ends: string) {
    forall k :: 0 <= k < |ends| ==> IsEnd(ends[k])
  }

  ghost function Stream(items: seq<Terminated>): string {
    if items == [] then "" else items[0].line + items[0].ends + Stream(items[1..])
  }

  ghost function LinesOf(items: seq<Terminated>): seq<string> {
    seq(|items|, i requires 0 <= i < |items| => items[i].line)
  }

  lemma {:induction false} LeadingEnds(ends: string, stream: string)
    requires AllEnds(ends)
    ensures Lines(ends + stream) == Lines(stream)
  {
    if ends == "" {
      assert ends + stream == stream;
    } else {
      LeadingEnds(ends[1..], stream);
      assert FirstEnd(ends + stream) == 0;
      assert (ends + stream)[1..] == ends[1..] + stream;
    }
  }

  /** A line in front of a stream, followed by line ends, is delivered first. */
  lemma {:induction false} LeadingLine(line: string, ends: string, more: string)
    requires Terminated(line, ends).Fine()
    ensures Lines(line + ends + more) == [line] + Lines(ends[1..] + more)
  {
    NoEndsInside(line);
    FirstEndOfAppended(line, ends + more);
    SplitAtEnd(line, ends, more);
  }

  lemma {:induction false} SplitAtEnd(line: string, ends: string, more: string)
    requires ends != ""
    ensures var stream := line + ends + more;
            && stream == line + (ends + more)
            && stream[..|line|] == line && stream[|line| + 1..] == ends[1..] + more
  {
  }

  /** Lines sent, with any line ends before, between and after them, are the lines delivered. */
  lemma {:induction false} SentLinesArrive(leading: string, items: seq<Terminated>)
    requires AllEnds(leading) && forall i :: 0 <= i < |items| ==> items[i].Fine()
    ensures Lines(leading + Stream(items)) == LinesOf(items)
    decreases |items|
  {
    LeadingEnds(leading, Stream(items));
    if items != [] {
      LeadingLine(items[0].line, items[0].ends, Stream(items[1..]));
      SentLinesArrive(items[0].ends[1..], items[1..]);
      FirstItem(items);
    }
  }

  lemma {:induction false} FirstItem(items: seq<Terminated>)
    requires items != []
    ensures [items[0].line] + LinesOf(items[1..]) == LinesOf(items)
  {
  }

  lemma {:induction false} NoEndsInside(line: string)
    requires forall k :: 0 <= k < |line| ==> !IsEnd(line[k])
    ensures FirstEnd(line) == |line|
  {
    if line != "" {
      NoEndsInside(line[1..]);
    }
  }

  ghost function Concat(chunks: seq<string>): string {
    if chunks == [] then "" else Concat(chunks[..|chunks| - 1]) + chunks[|chunks| - 1]
  }

  class Receiver {
    const lineBuffer: array<char>
    var lineWriteOffset: nat
    var aborted: bool
    var delivered: seq<string>    // the lines handed to the line handler so far
    ghost var received: string    // every character looked at so far

    ghost predicate Valid()
      reads this, lineBuffer
    {
      && lineBuffer.Length == MAX_LINE_LENGTH
      && delivered == Lines(received)
      && (aborted <==> TooLong(received))
      && (!aborted ==> lineWriteOffset < MAX_LINE_LENGTH && lineBuffer[..lineWriteOffset] == Rest(received))
    }

    constructor ()
      ensures Valid() && fresh(lineBuffer) && received == "" && delivered == [] && !aborted
    {
      lineBuffer := new char[MAX_LINE_LENGTH](_ => '\0');
      lineWriteOffset, aborted, delivered, received := 0, false, [], "";
    }

    method ReceiveCharacter(ch: char)
      requires Valid() && !aborted
      modifies this, lineBuffer
      ensures Valid() && received == old(received) + [ch]
    {
      NextCharacter(received, ch);
      if IsEnd(ch) {
        if lineWriteOffset != 0 {
          delivered := delivered + [lineBuffer[..lineWriteOffset]];
          lineWriteOffset := 0;
        }
      } else {
        lineBuffer[lineWriteOffset] := ch;
        lineWriteOffset := lineWriteOffset + 1;
        if lineWriteOffset >= MAX_LINE_LENGTH {
          aborted := true;
        }
      }
      received := received + [ch];
    }

    /** Looks at the characters of one chunk; `closingAfter` is how many are looked at before closing is noticed. */
    method ReceiveChunk(chunk: string, closingAfter: nat)
      requires Valid() && !aborted
      modifies this, lineBuffer
      ensures Valid()
      ensures var n := if closingAfter < |chunk| then closingAfter else |chunk|;
              delivered == Lines(old(received) + chunk[..n]) && (aborted <==> TooLong(old(received) + chunk[..n]))
      ensures !aborted && |chunk| <= closingAfter ==> received == old(received) + chunk
    {
      var i := 0;
      while i < |chunk| && i < closingAfter && !aborted
        invariant 0 <= i <= |chunk| && i <= closingAfter
        invariant Valid() && received == old(received) + chunk[..i]
      {
        ReceiveCharacter(chunk[i]);
        OneFurther(old(received), chunk, i);
        i := i + 1;
      }
      ghost var n := if closingAfter < |chunk| then closingAfter else |chunk|;
      if aborted {
        FurtherMakesNoDifference(old(received), chunk, i, n);
      }
      assert chunk[..|chunk|] == chunk;
    }

    /** The receive loop over all chunks of a connection: the lines do not depend on how the stream was cut. */
    method Run(chunks: seq<string>)
      requires Valid() && received == ""
      modifies this, lineBuffer
      ensures delivered == Lines(Concat(chunks)) && (aborted <==> TooLong(Concat(chunks)))
    {
      var c := 0;
      while c < |chunks| && !aborted
        invariant 0 <= c <= |chunks| && Valid()
        invariant delivered == Lines(Concat(chunks[..c])) && (aborted <==> TooLong(Concat(chunks[..c])))
        invariant !aborted ==> received == Concat(chunks[..c])
      {
        assert chunks[..c + 1][..c] == chunks[..c];
        assert chunks[c][..|chunks[c]|] == chunks[c];
        ReceiveChunk(chunks[c], |chunks[c]|);
        c := c + 1;
      }
      if aborted {
        ConcatExtends(chunks, c);
      } else {
        assert chunks[..c] == chunks;
      }
    }
  }

  lemma {:induction false} OneFurther(before: string, chunk: string, i: nat)
    requires i < |chunk|
    ensures before + chunk[..i + 1] == before + chunk[..i] + [chunk[i]]
  {
  }

  lemma {:induction false} FurtherMakesNoDifference(before: string, chunk: string, i: nat, n: nat)
    requires i <= n <= |chunk| && TooLong(before + chunk[..i])
    ensures Lines(before + chunk[..n]) == Lines(before + chunk[..i]) && TooLong(before + chunk[..n])
  {
    TooLongStays(before + chunk[..i], chunk[i..n]);
    assert before + chunk[..i] + chunk[i..n] == before + chunk[..n];
  }

  lemma {:induction false} ConcatExtends(chunks: seq<string>, c: nat)
    requires c <= |chunks| && TooLong(Concat(chunks[..c]))
    ensures Lines(Concat(chunks)) == Lines(Concat(chunks[..c])) && TooLong(Concat(chunks))
    decreases |chunks|
  {
    if c == |chunks| {
      assert chunks[..c] == chunks;
    } else {
      var n := |chunks| - 1;
      assert chunks[..n][..c] == chunks[..c];
      ConcatExtends(chunks[..n], c);
      TooLongStays(Concat(chunks[..n]), chunks[n]);
    }
  }
}

/** Malformed streams: what `JsonLineDecoder.feed` in ron/network/protocol.py does with any read
    into any buffer, and exactly when it matters how a stream is cut into reads.
 */
module JsonCuts {
  import opened Common
  import opened JsonFraming

  // ---- one read

  /** Complete lines, each of them in order, and the messages they hold. */
  predicate GoodLines<M(==)>(c: Codec<M>, good: Bytes, messages: seq<M>) {
    DecodeLines(c, good) == Lines(Ok(messages), [])
  }

  /** The first bad line of a buffer, with the good lines before it and whatever follows it. */
  predicate FirstBad<M(==)>(c: Codec<M>, s: Bytes, good: Bytes, messages: seq<M>, raw: Bytes, later: Bytes) {
    && s == good + (raw + ([NEWLINE] + later)) && NEWLINE !in raw && DecodeLine(c, raw).Err?
    && GoodLines(c, good, messages)
  }

  lemma {:induction false} GoodThenRest<M>(c: Codec<M>, good: Bytes, messages: seq<M>, more: Bytes)
    requires GoodLines(c, good, messages)
    ensures DecodeLines(c, good + more) == Prepend(messages, DecodeLines(c, more))
    decreases |good|
  {
    hide DecodeLines, DecodeLine, FindNewline;
    var at := FindNewline(good);
    if at < 0 {
      NoLine(c, good);
      assert good + more == more;
      PrependNothing(DecodeLines(c, more));
    } else {
      var line, tail := good[..at], good[at + 1..];
      assert good == line + ([NEWLINE] + tail) && good + more == line + ([NEWLINE] + (tail + more));
      LineThenRest(c, line, tail);
      LineThenRest(c, line, tail + more);
      var ms := DecodeLines(c, tail).messages.value;
      GoodThenRest(c, tail, ms, more);
      PrependTwice(DecodeLine(c, line).value, ms, DecodeLines(c, more));
    }
  }

  lemma PrependNothing<M>(more: Lines<M>)
    ensures Prepend([], more) == more
  {
    if more.messages.Ok? {
      assert [] + more.messages.value == more.messages.value;
    }
  }

  lemma GoodThenBad<M>(c: Codec<M>, s: Bytes, good: Bytes, messages: seq<M>, raw: Bytes, later: Bytes)
    requires FirstBad(c, s, good, messages, raw, later)
    ensures DecodeLines(c, s) == Lines(Err(DecodeLine(c, raw).error), later)
  {
    hide DecodeLines, DecodeLine;
    GoodThenRest(c, good, messages, raw + ([NEWLINE] + later));
    LineThenRest(c, raw, later);
  }

  lemma Regroup(line: Bytes, good: Bytes, more: Bytes)
    ensures line + ([NEWLINE] + (good + more)) == (line + ([NEWLINE] + good)) + more
  {
  }

  lemma {:induction false} FindFirstBad<M>(c: Codec<M>, s: Bytes)
    returns (good: Bytes, messages: seq<M>, raw: Bytes, later: Bytes)
    requires DecodeLines(c, s).messages.Err?
    ensures FirstBad(c, s, good, messages, raw, later)
    decreases |s|
  {
    hide DecodeLines, DecodeLine, FindNewline;
    var at := FindNewline(s);
    if at < 0 {
      NoLine(c, s);
    }
    var line, tail := s[..at], s[at + 1..];
    assert s == line + ([NEWLINE] + tail);
    LineThenRest(c, line, tail);
    if DecodeLine(c, line).Err? {
      good, messages, raw, later := [], [], line, tail;
      NoLine(c, good);
      assert s == [] + (raw + ([NEWLINE] + later));
    } else {
      good, messages, raw, later := FindFirstBad(c, tail);
      LineThenRest(c, line, good);
      Regroup(line, good, raw + ([NEWLINE] + later));
      good, messages := line + ([NEWLINE] + good), DecodeLine(c, line).value + messages;
    }
  }

  /** Too much without a newline. */
  predicate Overlong(s: Bytes) {
    |s| > MAX_MESSAGE_BYTES && NEWLINE !in s
  }

  /** What one read does, for every buffer and every read: it errs exactly if the buffer then is
      overlong without a newline, or holds a bad line. The first bad line decides: the messages of the
      lines before it are lost, and exactly what follows it stays in the buffer. */
  lemma ReadErrsExactly<M(!new)>(c: Codec<M>, buffer: Bytes, data: Bytes)
    ensures FeedOnce(c, buffer, data).messages.Err? <==>
      data != [] && (Overlong(buffer + data) || exists good, messages, raw, later ::
        FirstBad(c, buffer + data, good, messages, raw, later))
    ensures data != [] && Overlong(buffer + data) ==> FeedOnce(c, buffer, data) == Lines(Err(Unterminated), [])
    ensures data != [] ==> forall good, messages, raw, later | FirstBad(c, buffer + data, good, messages, raw, later) ::
      FeedOnce(c, buffer, data) == Lines(Err(DecodeLine(c, raw).error), later)
  {
    hide DecodeLines, DecodeLine, GoodLines;
    var s := buffer + data;
    if data != [] && !Overlong(s) && DecodeLines(c, s).messages.Err? {
      var good, messages, raw, later := FindFirstBad(c, s);
    }
    forall good, messages, raw, later | FirstBad(c, s, good, messages, raw, later)
      ensures !Overlong(s) && DecodeLines(c, s) == Lines(Err(DecodeLine(c, raw).error), later)
    {
      GoodThenBad(c, s, good, messages, raw, later);
      HoldsNewline(c, s, good, messages, raw, later);
    }
  }

  lemma HoldsNewline<M>(c: Codec<M>, s: Bytes, good: Bytes, messages: seq<M>, raw: Bytes, later: Bytes)
    requires FirstBad(c, s, good, messages, raw, later)
    ensures s[|good| + |raw|] == NEWLINE && NEWLINE in s
  {
    hide DecodeLines, DecodeLine;
  }

  /** The messages a bad line takes with it would have been delivered by a read that ended before it,
      whatever the buffer held; a read that begins with it then loses nothing. */
  lemma LostWithTheirRead<M>(c: Codec<M>, buffer: Bytes, data: Bytes, good: Bytes, messages: seq<M>, raw: Bytes,
      later: Bytes)
    requires FirstBad(c, buffer + data, good, messages, raw, later) && NEWLINE !in buffer && good != []
    ensures |buffer| < |good| && good[..|buffer|] == buffer
    ensures FeedAll(c, buffer, [good[|buffer|..], raw + ([NEWLINE] + later)])
         == Delivery(messages, Some(DecodeLine(c, raw).error), later)
    ensures FeedAll(c, buffer, [data]) == Delivery([], Some(DecodeLine(c, raw).error), later)
  {
    hide DecodeLines, DecodeLine, FindNewline;
    var s := buffer + data;
    GoodEnds(c, good, messages);
    assert s[|good| - 1] == NEWLINE;
    assert forall k | 0 <= k < |buffer| :: buffer[k] == s[k] && buffer[k] != NEWLINE;
    assert buffer + good[|buffer|..] == good;
    var first, second := good[|buffer|..], raw + ([NEWLINE] + later);
    assert [] + second == [] + (raw + ([NEWLINE] + later));
    NoLine(c, []);
    assert FirstBad(c, [] + second, [], [], raw, later);
    ReadOk(c, buffer, first, messages, []);
    ReadBad(c, [], second, [], [], raw, later);
    ReadBad(c, buffer, data, good, messages, raw, later);
    TwoReads(c, buffer, first, second);
    OneRead(c, buffer, data);
    assert messages + [] == messages;
  }

  lemma GoodEnds<M>(c: Codec<M>, good: Bytes, messages: seq<M>)
    requires GoodLines(c, good, messages) && good != []
    ensures good[|good| - 1] == NEWLINE
    decreases |good|
  {
    var at := FindNewline(good);
    if good[at + 1..] != [] {
      GoodEnds(c, good[at + 1..], DecodeLines(c, good[at + 1..]).messages.value);
    }
  }

  lemma ReadOk<M>(c: Codec<M>, buffer: Bytes, data: Bytes, messages: seq<M>, rest: Bytes)
    requires data != [] && !Overlong(buffer + data)
    requires DecodeLines(c, buffer + data) == Lines(Ok(messages), rest)
    ensures FeedOnce(c, buffer, data) == Lines(Ok(messages), rest)
  {
    hide DecodeLines;
  }

  lemma ReadBad<M>(c: Codec<M>, buffer: Bytes, data: Bytes, good: Bytes, messages: seq<M>, raw: Bytes, later: Bytes)
    requires FirstBad(c, buffer + data, good, messages, raw, later) && data != []
    ensures FeedOnce(c, buffer, data) == Lines(Err(DecodeLine(c, raw).error), later)
  {
    hide DecodeLines, DecodeLine, FirstBad;
    GoodThenBad(c, buffer + data, good, messages, raw, later);
    HoldsNewline(c, buffer + data, good, messages, raw, later);
  }

  lemma OneRead<M>(c: Codec<M>, buffer: Bytes, data: Bytes)
    ensures var first := FeedOnce(c, buffer, data);
      FeedAll(c, buffer, [data]) ==
        if first.messages.Err? then Delivery([], Some(first.messages.error), first.rest)
        else Delivery(first.messages.value, None, first.rest)
  {
    hide FeedOnce;
    assert [data][1..] == [];
    var first := FeedOnce(c, buffer, data);
    if first.messages.Ok? {
      assert first.messages.value + [] == first.messages.value;
    }
  }

  lemma TwoReads<M>(c: Codec<M>, buffer: Bytes, a: Bytes, b: Bytes)
    ensures var first := FeedOnce(c, buffer, a);
      FeedAll(c, buffer, [a, b]) ==
        if first.messages.Err? then Delivery([], Some(first.messages.error), first.rest)
        else
          var more := FeedAll(c, first.rest, [b]);
          Delivery(first.messages.value + more.delivered, more.error, more.rest)
  {
    hide FeedOnce;
    assert [a, b][1..] == [b];
  }

  // ---- any cut into reads

  /** Every way to cut `s` into reads delivers what one read of it delivers. */
  ghost predicate CutIndependent<M(!new)>(c: Codec<M>, buffer: Bytes, s: Bytes) {
    forall chunks | Flatten(chunks) == s :: FeedAll(c, buffer, chunks) == FeedAll(c, buffer, [s])
  }

  /** A single malformed line of tolerable length, ending the stream and preceded by blank lines only. */
  predicate LoneBadLine<M>(c: Codec<M>, t: Bytes)
    decreases |t|
  {
    && t != []
    && if t[0] == NEWLINE then LoneBadLine(c, t[1..])
       else FindNewline(t) == |t| - 1 <= MAX_MESSAGE_BYTES && c.read(t[..|t| - 1]).None?
  }

  /** The last case is the newline of a line that is already too long when it comes. */
  predicate Indifferent<M>(c: Codec<M>, buffer: Bytes, s: Bytes) {
    var t := buffer + s;
    s == [] || Clean(c, t) || NEWLINE !in t || LoneBadLine(c, t) || (|buffer| > MAX_MESSAGE_BYTES && s == [NEWLINE])
  }

  /** Exactly when the cuts do not matter, from any buffer a decoder can be left with before its first
      error: on a clean stream, on one that never ends a line, and on one whose only content is a bad
      line at its very end. On every other stream some cut changes the messages delivered, the error,
      or what is left. */
  lemma CutsDoNotMatterExactly<M(!new)>(c: Codec<M>, buffer: Bytes, s: Bytes)
    requires NEWLINE !in buffer
    ensures CutIndependent(c, buffer, s) <==> Indifferent(c, buffer, s)
  {
    hide DecodeLines, FeedAll, Clean, LoneBadLine, Indifferent;
    if Indifferent(c, buffer, s) {
      assert Flatten([s]) == s by { assert [s][1..] == [] && s + [] == s; }
      forall chunks | Flatten(chunks) == s
        ensures FeedAll(c, buffer, chunks) == FeedAll(c, buffer, [s])
      {
        SameForAll(c, buffer, chunks, [s]);
      }
    } else {
      var chunks := CutThatMatters(c, buffer, s);
    }
  }

  lemma SameForAll<M>(c: Codec<M>, buffer: Bytes, one: seq<Bytes>, other: seq<Bytes>)
    requires NEWLINE !in buffer && Flatten(one) == Flatten(other) && Indifferent(c, buffer, Flatten(one))
    ensures FeedAll(c, buffer, one) == FeedAll(c, buffer, other)
  {
    hide DecodeLines, FeedAll, Clean, LoneBadLine, Flatten;
    var t := buffer + Flatten(one);
    if Flatten(one) == [] {
      NothingRead(c, buffer, one);
      NothingRead(c, buffer, other);
    } else if Clean(c, t) {
      CutsDoNotMatter(c, buffer, one);
      CutsDoNotMatter(c, buffer, other);
    } else if NEWLINE !in t {
      UnfinishedIsClean(c, t);
      NeverEnds(c, buffer, one);
      NeverEnds(c, buffer, other);
    } else if LoneBadLine(c, t) {
      LoneBadLineAnyhow(c, buffer, one);
      LoneBadLineAnyhow(c, buffer, other);
    } else {
      LateNewline(c, buffer, one);
      LateNewline(c, buffer, other);
    }
  }

  lemma UnfinishedIsClean<M>(c: Codec<M>, t: Bytes)
    requires NEWLINE !in t
    ensures Clean(c, t) <==> |t| <= MAX_MESSAGE_BYTES
  {
  }

  lemma {:induction false} NeverEnds<M>(c: Codec<M>, buffer: Bytes, chunks: seq<Bytes>)
    requires NEWLINE !in buffer + Flatten(chunks) && |buffer + Flatten(chunks)| > MAX_MESSAGE_BYTES
    requires Flatten(chunks) != []
    ensures FeedAll(c, buffer, chunks) == Delivery([], Some(Unterminated), [])
    decreases |chunks|
  {
    if chunks != [] {
      var head, tail := buffer + chunks[0], Flatten(chunks[1..]);
      assert buffer + Flatten(chunks) == head + tail;
      if chunks[0] == [] || |head| <= MAX_MESSAGE_BYTES {
        assert chunks[0] == [] ==> head == buffer;
        NoLine(c, head);
        NeverEnds(c, head, chunks[1..]);
      }
    }
  }

  lemma {:induction false} NothingRead<M>(c: Codec<M>, buffer: Bytes, chunks: seq<Bytes>)
    requires Flatten(chunks) == []
    ensures FeedAll(c, buffer, chunks) == Delivery([], None, buffer)
    decreases |chunks|
  {
    if chunks != [] {
      assert chunks[0] == [] && Flatten(chunks[1..]) == [];
      NothingRead(c, buffer, chunks[1..]);
    }
  }

  lemma {:induction false} LateNewline<M>(c: Codec<M>, buffer: Bytes, chunks: seq<Bytes>)
    requires NEWLINE !in buffer && |buffer| > MAX_MESSAGE_BYTES && Flatten(chunks) == [NEWLINE]
    ensures FeedAll(c, buffer, chunks) == Delivery([], Some(Oversized), [])
    decreases |chunks|
  {
    hide DecodeLines;
    if chunks[0] == [] {
      assert Flatten(chunks[1..]) == [NEWLINE];
      LateNewline(c, buffer, chunks[1..]);
    } else {
      assert chunks[0] + Flatten(chunks[1..]) == [NEWLINE];
      assert chunks[0] == [NEWLINE];
      assert buffer + [NEWLINE] == buffer + ([NEWLINE] + []);
      LineThenRest(c, buffer, []);
    }
  }

  lemma {:induction false} LoneBadLineAnyhow<M>(c: Codec<M>, buffer: Bytes, chunks: seq<Bytes>)
    requires NEWLINE !in buffer && LoneBadLine(c, buffer + Flatten(chunks))
    ensures FeedAll(c, buffer, chunks) == Delivery([], Some(Malformed), [])
    decreases |chunks|
  {
    hide DecodeLines, LoneBadLine;
    NoLine(c, buffer);
    LoneBadLineInParts(c, buffer, Flatten(chunks));
    if chunks != [] {
      var head, tail := buffer + chunks[0], Flatten(chunks[1..]);
      assert buffer + Flatten(chunks) == head + tail;
      LoneBadLineInParts(c, head, tail);
      if chunks[0] == [] {
        assert head == buffer;
        LoneBadLineAnyhow(c, buffer, chunks[1..]);
      } else if tail != [] {
        LoneBadLineAnyhow(c, DecodeLines(c, head).rest, chunks[1..]);
      }
    }
  }

  /** Nothing comes of such a stream before its last newline, and only the error with it. */
  lemma {:induction false} LoneBadLineInParts<M>(c: Codec<M>, head: Bytes, tail: Bytes)
    requires LoneBadLine(c, head + tail)
    ensures !Overlong(head)
    ensures tail == [] ==> DecodeLines(c, head) == Lines(Err(Malformed), [])
    ensures tail != [] ==>
      var d := DecodeLines(c, head);
      d.messages == Ok([]) && NEWLINE !in d.rest && LoneBadLine(c, d.rest + tail)
    decreases |head|
  {
    hide DecodeLines, FindNewline;
    var t := head + tail;
    if head == [] {
      NoLine(c, head);
      assert t == tail;
    } else if head[0] == NEWLINE {
      assert t[1..] == head[1..] + tail;
      LoneBadLineInParts(c, head[1..], tail);
      assert head == [] + ([NEWLINE] + head[1..]);
      LineThenRest(c, [], head[1..]);
      PrependNothing(DecodeLines(c, head[1..]));
    } else {
      LoneLineInParts(c, head, tail);
    }
  }

  lemma LoneLineInParts<M>(c: Codec<M>, head: Bytes, tail: Bytes)
    requires LoneBadLine(c, head + tail) && head != [] && head[0] != NEWLINE
    ensures tail == [] ==> DecodeLines(c, head) == Lines(Err(Malformed), []) && NEWLINE in head
    ensures tail != [] ==> DecodeLines(c, head) == Lines(Ok([]), head) && |head| <= MAX_MESSAGE_BYTES
    ensures tail != [] ==> NEWLINE !in head
  {
    hide DecodeLines, FindNewline;
    var t := head + tail;
    var raw := t[..|t| - 1];
    assert t == raw + [NEWLINE] && NEWLINE !in raw;
    if tail == [] {
      assert head == raw + ([NEWLINE] + []);
      LineThenRest(c, raw, []);
      assert raw != [];
    } else {
      assert head == raw[..|head|];
      NoLine(c, head);
    }
  }

  // ---- the cut that matters

  /** A decoded buffer is its complete lines and the unfinished one. */
  lemma {:induction false} GoodThenUnfinished<M>(c: Codec<M>, s: Bytes) returns (good: Bytes)
    requires DecodeLines(c, s).messages.Ok?
    ensures var d := DecodeLines(c, s);
      && s == good + d.rest && NEWLINE !in d.rest && GoodLines(c, good, d.messages.value)
      && (Clean(c, s) <==> |d.rest| <= MAX_MESSAGE_BYTES)
    decreases |s|
  {
    hide DecodeLines, DecodeLine, FindNewline, Clean;
    var at := FindNewline(s);
    if at < 0 {
      NoLine(c, s);
      NoLine(c, []);
      UnfinishedIsClean(c, s);
      good := [];
    } else {
      var line, tail := s[..at], s[at + 1..];
      assert s == line + ([NEWLINE] + tail);
      LineThenRest(c, line, tail);
      good := GoodThenUnfinished(c, tail);
      LineThenRest(c, line, good);
      good := line + ([NEWLINE] + good);
      assert s == good + DecodeLines(c, s).rest;
    }
  }

  /** A read without an error leaves no newline in the buffer. */
  lemma ReadLeavesUnfinished<M>(c: Codec<M>, buffer: Bytes, data: Bytes)
    requires NEWLINE !in buffer && FeedOnce(c, buffer, data).messages.Ok?
    ensures NEWLINE !in FeedOnce(c, buffer, data).rest
  {
    hide DecodeLines;
    if data != [] {
      var good := GoodThenUnfinished(c, buffer + data);
    }
  }

  lemma {:induction false} BlankThenLoneBadLine<M>(c: Codec<M>, good: Bytes, raw: Bytes)
    requires GoodLines(c, good, []) && NEWLINE !in raw && DecodeLine(c, raw) == Err(Malformed)
    ensures LoneBadLine(c, good + (raw + [NEWLINE]))
    decreases |good|
  {
    hide DecodeLines, DecodeLine, FindNewline, LoneBadLine, Prepend;
    if NEWLINE !in good {
      NoLine(c, good);
      assert good + (raw + [NEWLINE]) == raw + [NEWLINE];
      LoneLine(c, raw);
    } else {
      var tail := BlankFirst(c, good);
      BlankThenLoneBadLine(c, tail, raw);
      BlankLine(c, tail + (raw + [NEWLINE]));
      assert good + (raw + [NEWLINE]) == [NEWLINE] + (tail + (raw + [NEWLINE]));
    }
  }

  /** Complete lines that hold no message are blank. */
  lemma BlankFirst<M>(c: Codec<M>, good: Bytes) returns (tail: Bytes)
    requires GoodLines(c, good, []) && NEWLINE in good
    ensures good == [NEWLINE] + tail && GoodLines(c, tail, [])
  {
    hide DecodeLines, DecodeLine, FindNewline;
    var at := FindNewline(good);
    var line := good[..at];
    tail := good[at + 1..];
    assert good == line + ([NEWLINE] + tail);
    LineThenRest(c, line, tail);
    PrependNothing(DecodeLines(c, tail));
    EmptyLine(c, line);
  }

  lemma EmptyLine<M>(c: Codec<M>, raw: Bytes)
    ensures DecodeLine(c, raw) == Ok([]) <==> raw == []
  {
  }

  lemma LoneLine<M>(c: Codec<M>, raw: Bytes)
    requires NEWLINE !in raw && DecodeLine(c, raw) == Err(Malformed)
    ensures LoneBadLine(c, raw + [NEWLINE])
  {
    hide FindNewline;
    var t := raw + [NEWLINE];
    assert t[..|t| - 1] == raw;
    FirstNewline(t, |raw|);
    assert t[0] == raw[0];
  }

  lemma BlankLine<M>(c: Codec<M>, t: Bytes)
    requires LoneBadLine(c, t)
    ensures LoneBadLine(c, [NEWLINE] + t)
  {
    hide FindNewline;
    assert ([NEWLINE] + t)[1..] == t;
  }

  /** Cutting a stream where its first part holds a newline, so beyond the old buffer. */
  lemma SplitStream(buffer: Bytes, s: Bytes, head: Bytes, tail: Bytes) returns (first: Bytes)
    requires buffer + s == head + tail && NEWLINE !in buffer && NEWLINE in head
    ensures first != [] && buffer + first == head && s == first + tail
  {
    var k :| 0 <= k < |head| && head[k] == NEWLINE;
    assert (buffer + s)[k] == NEWLINE;
    assert |buffer| <= k;
    first := head[|buffer|..];
    assert buffer == (buffer + s)[..|buffer|] == head[..|buffer|];
    assert s == (buffer + s)[|buffer|..] == first + tail;
  }

  lemma FlattenTwo(a: Bytes, b: Bytes)
    ensures Flatten([a, b]) == a + b
  {
    assert [a, b][1..] == [b] && [b][1..] == [];
    assert Flatten([b]) == b + [] == b;
  }

  /** After a bad line: what follows it is either left in the buffer or not read at all. */
  lemma CutAfterBad<M>(c: Codec<M>, buffer: Bytes, s: Bytes, good: Bytes, messages: seq<M>, raw: Bytes, later: Bytes)
    returns (chunks: seq<Bytes>)
    requires NEWLINE !in buffer && FirstBad(c, buffer + s, good, messages, raw, later) && later != []
    ensures Flatten(chunks) == s && FeedAll(c, buffer, chunks) != FeedAll(c, buffer, [s])
  {
    hide DecodeLines, DecodeLine, FindNewline, Flatten, GoodLines;
    var head := good + (raw + ([NEWLINE] + []));
    assert head[|good| + |raw|] == NEWLINE;
    assert buffer + s == head + later;
    var first := SplitStream(buffer, s, head, later);
    chunks := [first, later];
    FlattenTwo(first, later);
    assert FirstBad(c, buffer + first, good, messages, raw, []);
    ReadBad(c, buffer, first, good, messages, raw, []);
    TwoReads(c, buffer, first, later);
    assert s != [];
    ReadBad(c, buffer, s, good, messages, raw, later);
    OneRead(c, buffer, s);
  }

  /** Before the unfinished line: a line too long is refused only when it is alone in the buffer. */
  lemma CutBeforeUnfinished<M>(c: Codec<M>, buffer: Bytes, s: Bytes, good: Bytes, messages: seq<M>, rest: Bytes)
    returns (chunks: seq<Bytes>)
    requires NEWLINE !in buffer && buffer + s == good + rest && good != [] && GoodLines(c, good, messages)
    requires Overlong(rest) && DecodeLines(c, buffer + s) == Lines(Ok(messages), rest)
    ensures Flatten(chunks) == s && FeedAll(c, buffer, chunks) != FeedAll(c, buffer, [s])
  {
    hide DecodeLines, DecodeLine, FindNewline, Flatten;
    GoodEnds(c, good, messages);
    var first := SplitStream(buffer, s, good, rest);
    chunks := [first, rest];
    FlattenTwo(first, rest);
    assert (buffer + s)[|good| - 1] == NEWLINE;
    ReadOk(c, buffer, first, messages, []);
    ReadOk(c, buffer, s, messages, rest);
    TwoReads(c, buffer, first, rest);
    assert [] + rest == rest;
    OneRead(c, [], rest);
    OneRead(c, buffer, s);
  }

  /** A line too long is called oversized when its newline came in the same read as its beginning, and
      unterminated when it came later. */
  lemma CutInLongLine<M>(c: Codec<M>, buffer: Bytes, s: Bytes, good: Bytes, raw: Bytes) returns (chunks: seq<Bytes>)
    requires NEWLINE !in buffer && (|buffer| <= MAX_MESSAGE_BYTES || s != [NEWLINE])
    requires FirstBad(c, buffer + s, good, [], raw, []) && |raw| > MAX_MESSAGE_BYTES
    ensures Flatten(chunks) == s
    ensures FeedAll(c, buffer, [s]) == Delivery([], Some(Oversized), [])
    ensures FeedAll(c, buffer, chunks) == Delivery([], Some(Unterminated), [])
  {
    hide DecodeLines, DecodeLine, FindNewline, FeedAll, Flatten;
    var end := raw + ([NEWLINE] + []);
    assert buffer + s == good + end;
    WholeLongLine(c, buffer, s, good, raw);
    if good == [] {
      var first := SplitLine(buffer, s, raw);
      chunks := [first, [NEWLINE]];
      FlattenTwo(first, [NEWLINE]);
      LongRead(c, buffer, first, [NEWLINE]);
    } else {
      GoodEnds(c, good, []);
      var first := SplitStream(buffer, s, good, end);
      chunks := [first] + [raw, [NEWLINE]];
      FlattenTwo(raw, [NEWLINE]);
      FlattenFirst(first, [raw, [NEWLINE]]);
      ReadOk(c, buffer, first, [], []);
      assert [] + raw == raw;
      LongRead(c, [], raw, [NEWLINE]);
      ReadThenRest(c, buffer, first, [raw, [NEWLINE]]);
    }
  }

  lemma SplitLine(buffer: Bytes, s: Bytes, raw: Bytes) returns (first: Bytes)
    requires buffer + s == raw + [NEWLINE] && NEWLINE !in buffer
    ensures buffer + first == raw && s == first + [NEWLINE]
  {
    assert (buffer + s)[|raw|] == NEWLINE;
    assert raw[..|buffer|] == (buffer + s)[..|buffer|] == buffer;
    first := raw[|buffer|..];
    assert s == (buffer + s)[|buffer|..] == first + [NEWLINE];
  }

  lemma FlattenFirst(first: Bytes, later: seq<Bytes>)
    ensures Flatten([first] + later) == first + Flatten(later)
  {
    assert ([first] + later)[1..] == later;
  }

  /** A read that leaves too much without a newline ends the stream. */
  lemma LongRead<M>(c: Codec<M>, buffer: Bytes, first: Bytes, second: Bytes)
    requires first != [] && Overlong(buffer + first)
    ensures FeedAll(c, buffer, [first, second]) == Delivery([], Some(Unterminated), [])
  {
    hide DecodeLines, FeedAll;
    TwoReads(c, buffer, first, second);
  }

  lemma ReadThenRest<M>(c: Codec<M>, buffer: Bytes, first: Bytes, later: seq<Bytes>)
    requires FeedOnce(c, buffer, first) == Lines(Ok([]), [])
    ensures FeedAll(c, buffer, [first] + later) == FeedAll(c, [], later)
  {
    hide FeedOnce;
    assert ([first] + later)[1..] == later;
    assert [] + FeedAll(c, [], later).delivered == FeedAll(c, [], later).delivered;
  }

  lemma WholeLongLine<M>(c: Codec<M>, buffer: Bytes, s: Bytes, good: Bytes, raw: Bytes)
    requires NEWLINE !in buffer && FirstBad(c, buffer + s, good, [], raw, []) && |raw| > MAX_MESSAGE_BYTES
    ensures FeedAll(c, buffer, [s]) == Delivery([], Some(Oversized), [])
  {
    hide DecodeLines, FindNewline;
    assert (buffer + s)[|good| + |raw|] == NEWLINE;
    assert s != [];
    ReadBad(c, buffer, s, good, [], raw, []);
    OneRead(c, buffer, s);
  }

  lemma CutThatMatters<M>(c: Codec<M>, buffer: Bytes, s: Bytes) returns (chunks: seq<Bytes>)
    requires NEWLINE !in buffer && !Indifferent(c, buffer, s)
    ensures Flatten(chunks) == s && FeedAll(c, buffer, chunks) != FeedAll(c, buffer, [s])
  {
    hide DecodeLines, FindNewline, Clean, LoneBadLine, FeedAll, Flatten;
    var t := buffer + s;
    if DecodeLines(c, t).messages.Ok? {
      var d := DecodeLines(c, t);
      var good := GoodThenUnfinished(c, t);
      chunks := CutBeforeUnfinished(c, buffer, s, good, d.messages.value, d.rest);
    } else {
      var good, messages, raw, later := FindFirstBad(c, t);
      assert later == [] ==> t == good + (raw + [NEWLINE]);
      if messages != [] {
        NoLine(c, []);
        LostWithTheirRead(c, buffer, s, good, messages, raw, later);
        chunks := [good[|buffer|..], raw + ([NEWLINE] + later)];
        FlattenTwo(good[|buffer|..], raw + ([NEWLINE] + later));
        assert t[|buffer|..] == s;
      } else if later != [] {
        chunks := CutAfterBad(c, buffer, s, good, messages, raw, later);
      } else if |raw| > MAX_MESSAGE_BYTES {
        chunks := CutInLongLine(c, buffer, s, good, raw);
      } else {
        BlankThenLoneBadLine(c, good, raw);
      }
    }
  }
}

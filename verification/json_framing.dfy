/** Newline framing of JSON messages: `encode_message` and `JsonLineDecoder` in
    ron/network/protocol.py.

    The JSON codec itself is a parameter. What framing needs of it is `Faithful`: encodings
    are not empty and hold no raw newline, and decoding inverts encoding.
 */
module JsonFraming {
  import opened Common

  const NEWLINE: byte := 10
  const MAX_MESSAGE_BYTES: nat := 8192

  datatype Error = Unterminated | Oversized | Malformed

  /** `write` is json.dumps (None when it refuses the value), `read` json.loads with the check
      for a top-level object (None when either fails). */
  datatype Codec<!M> = Codec(write: M -> Option<Bytes>, read: Bytes -> Option<M>)

  ghost predicate Faithful<M(!new)>(c: Codec<M>) {
    forall m: M | c.write(m).Some? ::
      var payload := c.write(m).value;
      payload != [] && NEWLINE !in payload && c.read(payload) == Some(m)
  }

  /** `encode_message`. */
  function Encode<M>(c: Codec<M>, m: M): Option<Bytes> {
    match c.write(m)
    case None => None
    case Some(payload) => if |payload| > MAX_MESSAGE_BYTES then None else Some(payload + [NEWLINE])
  }

  /** A message is refused exactly if the JSON codec refuses it or its payload is over the limit; the limit
      itself is not. */
  lemma EncodedExactly<M(!new)>(c: Codec<M>, m: M)
    requires Faithful(c)
    ensures Encode(c, m).Some? <==> c.write(m).Some? && |c.write(m).value| <= 8192
    ensures Encode(c, m).Some? ==>
      && Encode(c, m).value[|Encode(c, m).value| - 1] == NEWLINE
      && NEWLINE !in Encode(c, m).value[..|Encode(c, m).value| - 1]
      && c.read(Encode(c, m).value[..|Encode(c, m).value| - 1]) == Some(m)
  {
    if Encode(c, m).Some? {
      assert (c.write(m).value + [NEWLINE])[..|c.write(m).value|] == c.write(m).value;
    }
  }

  /** Position of the first newline, or -1. */
  function FindNewline(b: Bytes): (at: int)
    ensures -1 <= at < |b|
    ensures at >= 0 ==> b[at] == NEWLINE && NEWLINE !in b[..at]
    ensures at < 0 <==> NEWLINE !in b
  {
    if b == [] then -1
    else if b[0] == NEWLINE then 0
    else
      var rest := FindNewline(b[1..]);
      assert b == [b[0]] + b[1..];
      assert rest >= 0 ==> b[..rest + 1] == [b[0]] + b[1..][..rest];
      if rest < 0 then -1 else rest + 1
  }

  /** One line without its newline: nothing when it is empty. */
  function DecodeLine<M>(c: Codec<M>, raw: Bytes): Result<seq<M>, Error> {
    if raw == [] then Ok([])
    else if |raw| > MAX_MESSAGE_BYTES then Err(Oversized)
    else
      match c.read(raw)
      case None => Err(Malformed)
      case Some(m) => Ok([m])
  }

  /** What the complete lines at the front of a buffer decode to, and what is left of the
      buffer. After a bad line the messages before it are lost and the lines after it stay. */
  datatype Lines<+M> = Lines(messages: Result<seq<M>, Error>, rest: Bytes)

  function Prepend<M>(ms: seq<M>, more: Lines<M>): Lines<M> {
    match more.messages
    case Ok(ns) => Lines(Ok(ms + ns), more.rest)
    case Err(_) => more
  }

  function DecodeLines<M>(c: Codec<M>, buffer: Bytes): Lines<M>
    decreases |buffer|
  {
    var at := FindNewline(buffer);
    if at < 0 then Lines(Ok([]), buffer)
    else
      match DecodeLine(c, buffer[..at])
      case Err(e) => Lines(Err(e), buffer[at + 1..])
      case Ok(ms) => Prepend(ms, DecodeLines(c, buffer[at + 1..]))
  }

  /** One `feed`: the result and the buffer it leaves. */
  function FeedOnce<M>(c: Codec<M>, buffer: Bytes, data: Bytes): Lines<M> {
    if data == [] then Lines(Ok([]), buffer)
    else if |buffer + data| > MAX_MESSAGE_BYTES && NEWLINE !in buffer + data then Lines(Err(Unterminated), [])
    else DecodeLines(c, buffer + data)
  }

  /** What a stream of reads has delivered to the caller; the first error ends it. */
  datatype Delivery<+M> = Delivery(delivered: seq<M>, error: Option<Error>, rest: Bytes)

  function FeedAll<M>(c: Codec<M>, buffer: Bytes, chunks: seq<Bytes>): Delivery<M>
    decreases |chunks|
  {
    if chunks == [] then Delivery([], None, buffer)
    else
      var first := FeedOnce(c, buffer, chunks[0]);
      match first.messages
      case Err(e) => Delivery([], Some(e), first.rest)
      case Ok(ms) =>
        var more := FeedAll(c, first.rest, chunks[1..]);
        Delivery(ms + more.delivered, more.error, more.rest)
  }

  /** A stream on which no line is bad and no unfinished line too long. */
  predicate Clean<M>(c: Codec<M>, stream: Bytes)
    decreases |stream|
  {
    var at := FindNewline(stream);
    if at < 0 then |stream| <= MAX_MESSAGE_BYTES
    else DecodeLine(c, stream[..at]).Ok? && Clean(c, stream[at + 1..])
  }

  /** A newline with none before it is the first. */
  lemma {:induction false} FirstNewline(b: Bytes, i: nat)
    requires i < |b| && b[i] == NEWLINE && NEWLINE !in b[..i]
    ensures FindNewline(b) == i
  {
    if i > 0 {
      assert b[0] in b[..i] && b[1..][..i - 1] == b[1..i];
      FirstNewline(b[1..], i - 1);
    }
  }

  lemma FindInConcat(a: Bytes, b: Bytes)
    ensures FindNewline(a) >= 0 ==> FindNewline(a + b) == FindNewline(a)
    ensures FindNewline(a) < 0 && FindNewline(b) >= 0 ==> FindNewline(a + b) == |a| + FindNewline(b)
  {
    if FindNewline(a) >= 0 {
      assert (a + b)[..FindNewline(a)] == a[..FindNewline(a)];
      FirstNewline(a + b, FindNewline(a));
    } else if FindNewline(b) >= 0 {
      assert (a + b)[..|a| + FindNewline(b)] == a + b[..FindNewline(b)];
      FirstNewline(a + b, |a| + FindNewline(b));
    }
  }

  /** Decoding a clean stream leaves an unfinished line of tolerable length. */
  lemma {:induction false} CleanDecodes<M>(c: Codec<M>, stream: Bytes)
    requires Clean(c, stream)
    ensures var d := DecodeLines(c, stream);
            d.messages.Ok? && NEWLINE !in d.rest && |d.rest| <= MAX_MESSAGE_BYTES
    decreases |stream|
  {
    hide FindNewline, DecodeLine;
    var at := FindNewline(stream);
    if at >= 0 {
      CleanDecodes(c, stream[at + 1..]);
    }
  }

  /** Decoding a stream in two goes gives what decoding it at once gives. */
  lemma {:induction false} DecodeInTwoGoes<M>(c: Codec<M>, a: Bytes, b: Bytes)
    requires Clean(c, a + b)
    ensures var first := DecodeLines(c, a);
            && first.messages.Ok? && NEWLINE !in first.rest && Clean(c, first.rest + b)
            && DecodeLines(c, a + b) == Prepend(first.messages.value, DecodeLines(c, first.rest + b))
    decreases |a|
  {
    hide DecodeLines, DecodeLine, Clean, FindNewline;
    var at := FindNewline(a);
    if at < 0 {
      CleanDecodes(c, a + b);
      NoLine(c, a);
      assert [] + DecodeLines(c, a + b).messages.value == DecodeLines(c, a + b).messages.value;
    } else {
      var line, tail := a[..at], a[at + 1..];
      assert a == line + ([NEWLINE] + tail) && a + b == line + ([NEWLINE] + (tail + b));
      LineThenRest(c, line, tail);
      LineThenRest(c, line, tail + b);
      DecodeInTwoGoes(c, tail, b);
      var first := DecodeLines(c, tail);
      PrependTwice(DecodeLine(c, line).value, first.messages.value, DecodeLines(c, first.rest + b));
    }
  }

  lemma NoLine<M>(c: Codec<M>, a: Bytes)
    requires NEWLINE !in a
    ensures DecodeLines(c, a) == Lines(Ok([]), a)
  {
  }

  lemma PrependTwice<M>(ms: seq<M>, ns: seq<M>, more: Lines<M>)
    ensures Prepend(ms, Prepend(ns, more)) == Prepend(ms + ns, more)
  {
    if more.messages.Ok? {
      assert ms + (ns + more.messages.value) == (ms + ns) + more.messages.value;
    }
  }

  /** An unfinished line at the front of a clean stream is not too long. */
  lemma UnfinishedLineFits<M>(c: Codec<M>, a: Bytes, b: Bytes)
    requires NEWLINE !in a && Clean(c, a + b)
    ensures |a| <= MAX_MESSAGE_BYTES
  {
    FindInConcat(a, b);
    if FindNewline(b) >= 0 {
      assert a <= (a + b)[..FindNewline(a + b)];
    } else {
      assert NEWLINE !in a + b;
    }
  }

  /** On a clean stream the decoder does not depend on how the stream is cut into reads. */
  lemma {:induction false} CutsDoNotMatter<M>(c: Codec<M>, buffer: Bytes, chunks: seq<Bytes>)
    requires NEWLINE !in buffer && Clean(c, buffer + Flatten(chunks))
    ensures DecodeLines(c, buffer + Flatten(chunks)).messages.Ok?
    ensures var all := DecodeLines(c, buffer + Flatten(chunks));
            FeedAll(c, buffer, chunks) == Delivery(all.messages.value, None, all.rest)
    decreases |chunks|
  {
    if chunks == [] {
      assert buffer + Flatten(chunks) == buffer;
    } else {
      var head, tail := buffer + chunks[0], Flatten(chunks[1..]);
      assert buffer + Flatten(chunks) == head + tail;
      DecodeInTwoGoes(c, head, tail);
      if chunks[0] == [] {
        assert head == buffer;
      } else if NEWLINE !in head {
        UnfinishedLineFits(c, head, tail);
      }
      CutsDoNotMatter(c, DecodeLines(c, head).rest, chunks[1..]);
    }
  }

  /** A complete line at the front of a stream is decoded first. */
  lemma LineThenRest<M>(c: Codec<M>, raw: Bytes, rest: Bytes)
    requires NEWLINE !in raw
    ensures var stream := raw + ([NEWLINE] + rest);
            && (Clean(c, stream) <==> DecodeLine(c, raw).Ok? && Clean(c, rest))
            && DecodeLines(c, stream) ==
                 if DecodeLine(c, raw).Err? then Lines(Err(DecodeLine(c, raw).error), rest)
                 else Prepend(DecodeLine(c, raw).value, DecodeLines(c, rest))
  {
    var stream := raw + ([NEWLINE] + rest);
    FindInConcat(raw, [NEWLINE] + rest);
    assert FindNewline(stream) == |raw|;
    assert stream[..|raw|] == raw && stream[|raw| + 1..] == rest;
  }

  /** The encodings of a list of messages, one after another; None if one cannot be encoded. */
  function EncodeAll<M>(c: Codec<M>, messages: seq<M>): Option<Bytes> {
    if messages == [] then Some([])
    else
      match (Encode(c, messages[0]), EncodeAll(c, messages[1..]))
      case (Some(first), Some(rest)) => Some(first + rest)
      case _ => None
  }

  lemma EncodingInFront<M(!new)>(c: Codec<M>, message: M, rest: Bytes, later: seq<M>)
    requires Faithful(c) && Encode(c, message).Some? && Clean(c, rest) && DecodeLines(c, rest) == Lines(Ok(later), [])
    ensures Clean(c, Encode(c, message).value + rest)
    ensures DecodeLines(c, Encode(c, message).value + rest) == Lines(Ok([message] + later), [])
  {
    hide DecodeLines, Clean, FindNewline;
    var payload := c.write(message).value;
    assert payload + [NEWLINE] + rest == payload + ([NEWLINE] + rest);
    LineThenRest(c, payload, rest);
  }

  lemma {:induction false} EncodingsAreClean<M(!new)>(c: Codec<M>, messages: seq<M>)
    requires Faithful(c) && EncodeAll(c, messages).Some?
    ensures Clean(c, EncodeAll(c, messages).value)
    ensures DecodeLines(c, EncodeAll(c, messages).value) == Lines(Ok(messages), [])
  {
    if messages == [] {
    } else {
      EncodingsAreClean(c, messages[1..]);
      EncodingInFront(c, messages[0], EncodeAll(c, messages[1..]).value, messages[1..]);
      assert [messages[0]] + messages[1..] == messages;
    }
  }

  /** Round trip: any encodable messages, in any reads, come out as they went in, in order,
      with no error and an empty buffer. */
  lemma FramingRoundTrip<M(!new)>(c: Codec<M>, messages: seq<M>, chunks: seq<Bytes>)
    requires Faithful(c) && EncodeAll(c, messages) == Some(Flatten(chunks))
    ensures FeedAll(c, [], chunks) == Delivery(messages, None, [])
  {
    EncodingsAreClean(c, messages);
    assert [] + Flatten(chunks) == Flatten(chunks);
    CutsDoNotMatter(c, [], chunks);
  }

  /** The decoder object: a buffer edited in place. */
  class JsonLineDecoder<M> {
    const codec: Codec<M>
    var buffer: Bytes

    constructor (codec: Codec<M>)
      ensures this.codec == codec && buffer == []
    {
      this.codec, buffer := codec, [];
    }

    /** `feed`. */
    method Feed(data: Bytes) returns (result: Result<seq<M>, Error>)
      modifies this
      ensures FeedOnce(codec, old(buffer), data) == Lines(result, buffer)
    {
      if data == [] {
        return Ok([]);
      }
      buffer := buffer + data;
      if |buffer| > MAX_MESSAGE_BYTES && NEWLINE !in buffer {
        buffer := [];
        return Err(Unterminated);
      }
      var messages: seq<M> := [];
      ghost var all := DecodeLines(codec, buffer);
      assert all.messages.Ok? ==> [] + all.messages.value == all.messages.value;
      while true
        invariant all == Prepend(messages, DecodeLines(codec, buffer))
        decreases |buffer|
      {
        var newline := FindNewline(buffer);
        if newline < 0 {
          assert messages + [] == messages;
          return Ok(messages);
        }
        var raw := buffer[..newline];
        ghost var more := DecodeLines(codec, buffer[newline + 1..]);
        buffer := buffer[newline + 1..];
        if raw != [] {
          if |raw| > MAX_MESSAGE_BYTES {
            return Err(Oversized);
          }
          match codec.read(raw) {
            case None => return Err(Malformed);
            case Some(m) =>
              PrependTwice(messages, [m], more);
              messages := messages + [m];
          }
        } else {
          PrependTwice(messages, [], more);
          assert messages + [] == messages;
        }
      }
    }
  }
}

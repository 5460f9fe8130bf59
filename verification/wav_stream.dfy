/** Streaming RIFF/WAVE parsing: `_stream_wav` and `_decode_pcm` of `GroqSpeechSynthesizer`
    in ron/voice/speech.py. The layout is the one of the section "Waveform Audio File Format
    (WAVE)" of Multimedia Programming Interface and Data Specifications 1.0.

    Samples are exact fractions; the program rounds them to single precision.
 */
module WavStream {
  import opened Common

  type Samples = seq<real>

  const MAX_SPEECH_BYTES: nat := 16 * 1024 * 1024
  const MAX_HEADER_BYTES: nat := 64 * 1024
  const UNKNOWN_LENGTH: nat := 0xFFFFFFFF
  const MAX_SECONDS: nat := 120

  const RIFF: Bytes := [0x52, 0x49, 0x46, 0x46]
  const WAVE: Bytes := [0x57, 0x41, 0x56, 0x45]
  const FMT: Bytes := [0x66, 0x6D, 0x74, 0x20]
  const DATA: Bytes := [0x64, 0x61, 0x74, 0x61]

  datatype Error =
    | IncompleteHeader | NotWave | IncompleteChunkHeader | DataBeforeFormat | OversizedChunk
    | IncompleteChunk | OversizedHeader | IncompleteFormat | UnsupportedLayout | InvalidSettings
    | InvalidAlignment | InvalidLength | IncompleteAudio | EmptyAudio | OversizedAudio

  /** Sample rate and bytes per mono frame. */
  datatype Format = Format(rate: nat, width: nat)

  predicate ValidFormat(f: Format) {
    8_000 <= f.rate <= 96_000 && f.width in {1, 2, 3, 4}
  }

  // ---- the specification: a parser of the whole byte string

  function LittleEndian(b: Bytes): nat {
    if b == [] then 0 else b[0] as nat + 256 * LittleEndian(b[1..])
  }

  function ReadFormat(payload: Bytes): (r: Result<Format, Error>)
    ensures r.Ok? ==> ValidFormat(r.value)
    ensures r.Ok? ==> |payload| >= 16 && LittleEndian(payload[0..2]) == 1 && LittleEndian(payload[2..4]) == 1
  {
    if |payload| < 16 then Err(IncompleteFormat)
    else
      var audioFormat, channels := LittleEndian(payload[0..2]), LittleEndian(payload[2..4]);
      var rate, blockAlign := LittleEndian(payload[4..8]), LittleEndian(payload[12..14]);
      var bits := LittleEndian(payload[14..16]);
      if audioFormat != 1 || channels != 1 then Err(UnsupportedLayout)
      else if bits !in {8, 16, 24, 32} || !(8_000 <= rate <= 96_000) then Err(InvalidSettings)
      else if blockAlign != bits / 8 then Err(InvalidAlignment)
      else Ok(Format(rate, bits / 8))
  }

  /** Where the audio starts: its format, its declared length unless unknown, and the rest of the string. */
  datatype Body = Body(format: Format, declared: Option<nat>, bytes: Bytes)

  /** What the chunk at the front of the string amounts to: an error, the start of the audio,
      or a chunk to step over, with the format known after it. */
  datatype Chunk = Bad(error: Error) | Start(body: Body) | Skip(size: nat, format: Option<Format>)

  function FirstChunk(rest: Bytes, header: nat, format: Option<Format>): (c: Chunk)
    requires format.Some? ==> ValidFormat(format.value)
    ensures c.Start? ==> ValidFormat(c.body.format)
    ensures c.Skip? ==> 8 <= c.size <= |rest| && (c.format.Some? ==> ValidFormat(c.format.value))
  {
    if |rest| < 8 then Bad(IncompleteChunkHeader)
    else
      var name, size := rest[..4], LittleEndian(rest[4..8]);
      var padded := size + size % 2;
      if name == DATA then
        if format.None? then Bad(DataBeforeFormat)
        else Start(Body(format.value, if size == UNKNOWN_LENGTH then None else Some(size), rest[8..]))
      else if size > MAX_HEADER_BYTES then Bad(OversizedChunk)
      else if |rest| < 8 + padded then Bad(IncompleteChunk)
      else if header + 8 + padded > MAX_HEADER_BYTES then Bad(OversizedHeader)
      else if name != FMT then Skip(8 + padded, format)
      else
        match ReadFormat(rest[8..8 + size])
        case Err(e) => Bad(e)
        case Ok(f) => Skip(8 + padded, Some(f))
  }

  /** The chunks up to the start of the audio, with the header bytes seen so far. */
  function ParseChunks(rest: Bytes, header: nat, format: Option<Format>): (r: Result<Body, Error>)
    requires format.Some? ==> ValidFormat(format.value)
    ensures r.Ok? ==> ValidFormat(r.value.format)
    decreases |rest|
  {
    match FirstChunk(rest, header, format)
    case Bad(e) => Err(e)
    case Start(body) => Ok(body)
    case Skip(size, known) => ParseChunks(rest[size..], header + size, known)
  }

  function ParseHeader(all: Bytes): (r: Result<Body, Error>)
    ensures r.Ok? ==> ValidFormat(r.value.format)
  {
    if |all| < 12 then Err(IncompleteHeader)
    else if all[..4] != RIFF || all[8..12] != WAVE then Err(NotWave)
    else ParseChunks(all[12..], 12, None)
  }

  /** The audio bytes present: what follows the header, up to the declared length. */
  function AudioBytes(body: Body): Bytes {
    if body.declared.None? || |body.bytes| <= body.declared.value then body.bytes
    else body.bytes[..body.declared.value]
  }

  function CheckAudio(body: Body): Result<(), Error>
    requires ValidFormat(body.format)
  {
    var present := |AudioBytes(body)|;
    if present / body.format.width > body.format.rate * MAX_SECONDS then Err(InvalidLength)
    else if present % body.format.width != 0 || (body.declared.Some? && present < body.declared.value)
    then Err(IncompleteAudio)
    else if present == 0 then Err(EmptyAudio)
    else Ok(())
  }

  /** One frame as a fraction of full scale. */
  function Sample(frame: Bytes): real
    requires |frame| in {1, 2, 3, 4}
  {
    var unsigned := LittleEndian(frame);
    match |frame|
    case 1 => (unsigned - 128) as real / 128.0
    case 2 => Signed(unsigned, 0x8000) as real / 32_768.0
    case 3 => Signed(unsigned, 0x80_0000) as real / 8_388_608.0
    case _ => Signed(unsigned, 0x8000_0000) as real / 2_147_483_648.0
  }

  /** Two's complement with the given sign bit. */
  function Signed(unsigned: nat, half: nat): int {
    if unsigned < half then unsigned else unsigned - 2 * half
  }

  /** `_decode_pcm`, of the complete frames in a byte string. */
  function DecodePcm(frames: Bytes, width: nat): Samples
    requires width in {1, 2, 3, 4}
  {
    if |frames| < width then [] else [Sample(frames[..width])] + DecodePcm(frames[width..], width)
  }

  datatype Audio = Audio(samples: Samples, rate: nat)

  /** Everything in the string that can be heard, whether or not the rest is in order. */
  function Audible(all: Bytes): Samples {
    match ParseHeader(all)
    case Err(_) => []
    case Ok(body) => DecodePcm(AudioBytes(body), body.format.width)
  }

  function ParseWav(all: Bytes): Result<Audio, Error> {
    match ParseHeader(all)
    case Err(e) => Err(e)
    case Ok(body) =>
      match CheckAudio(body)
      case Err(e) => Err(e)
      case Ok(_) => Ok(Audio(DecodePcm(AudioBytes(body), body.format.width), body.format.rate))
  }

  // ---- facts about the specification

  /** n bytes are exactly this many whole frames. */
  predicate Frames(n: nat, count: nat, width: nat)
    requires width > 0
  {
    if count == 0 then n == 0 else n >= width && Frames(n - width, count - 1, width)
  }

  lemma {:induction false} FramesDivide(n: nat, count: nat, extra: nat, width: nat)
    requires width in {1, 2, 3, 4} && Frames(n, count, width) && extra < width
    ensures (n + extra) / width == count && (n + extra) % width == extra
  {
    if count > 0 {
      FramesDivide(n - width, count - 1, extra, width);
    }
  }

  lemma {:induction false} FramesAdd(n: nat, count: nat, m: nat, more: nat, width: nat)
    requires width > 0 && Frames(n, count, width) && Frames(m, more, width)
    ensures Frames(n + m, count + more, width)
  {
    if count > 0 {
      FramesAdd(n - width, count - 1, m, more, width);
    }
  }

  lemma DecodeFirst(frame: Bytes, rest: Bytes, width: nat)
    requires width in {1, 2, 3, 4} && |frame| == width
    ensures DecodePcm(frame + rest, width) == [Sample(frame)] + DecodePcm(rest, width)
  {
    assert (frame + rest)[..width] == frame && (frame + rest)[width..] == rest;
  }

  /** Decoding goes frame by frame: a cut between frames can be decoded on each side. */
  lemma {:induction false} DecodeConcat(a: Bytes, b: Bytes, count: nat, width: nat)
    requires width in {1, 2, 3, 4} && Frames(|a|, count, width)
    ensures DecodePcm(a + b, width) == DecodePcm(a, width) + DecodePcm(b, width)
    decreases count
  {
    if count == 0 {
      assert a == [] && a + b == b;
    } else {
      ghost var frame, rest := a[..width], a[width..];
      calc {
        DecodePcm(a + b, width);
        { assert a + b == frame + (rest + b); DecodeFirst(frame, rest + b, width); }
        [Sample(frame)] + DecodePcm(rest + b, width);
        { DecodeConcat(rest, b, count - 1, width); }
        [Sample(frame)] + (DecodePcm(rest, width) + DecodePcm(b, width));
        { assert a == frame + rest; DecodeFirst(frame, rest, width); }
        DecodePcm(a, width) + DecodePcm(b, width);
      }
    }
  }

  // ---- the response and its buffer

  datatype Filled = Enough | Short | TooMuch

  datatype End = Finished | Stopped | Failed(error: Error)

  /** The response body arriving in reads, with the parser's buffer in front of it. */
  class Reader {
    const stopAt: Option<nat>        // from which look on the stop event is found set
    const expected: nat              // how many reads bring bytes
    ghost const all: Bytes
    var arriving: seq<Bytes>
    var buffer: Bytes
    var totalBytes: nat
    var ended: bool
    var looks: nat                   // how often the event was looked at

    constructor (arriving: seq<Bytes>, stopAt: Option<nat>)
      requires forall k | 0 <= k < |arriving| :: arriving[k] != []
      ensures Valid() && Reading() && Rest() == all == Flatten(arriving) && buffer == []
      ensures this.stopAt == stopAt && expected == |arriving|
    {
      this.arriving, this.stopAt, expected, all := arriving, stopAt, |arriving|, Flatten(arriving);
      buffer, totalBytes, ended, looks := [], 0, false, 0;
    }

    /** Some look has found the event set. */
    predicate StopSeen()
      reads this
    {
      stopAt.Some? && stopAt.value < looks
    }

    /** One look for every read, and at most so many besides. */
    predicate Looked(besides: nat)
      reads this
    {
      looks + |arriving| <= expected + besides
    }

    predicate Reading()
      reads this
    {
      !StopSeen() && !ended && Looked(0)
    }

    /** A stream is stopped exactly if a look has found the event set. */
    predicate Heeded(end: End)
      reads this
    {
      (end == Stopped <==> StopSeen()) && Looked(2)
    }

    ghost predicate Valid()
      reads this
    {
      && (forall k | 0 <= k < |arriving| :: arriving[k] != [])
      && totalBytes + |Flatten(arriving)| == |all| && totalBytes <= MAX_SPEECH_BYTES
      && (ended ==> arriving == [])
    }

    /** What the parser has not consumed yet. */
    ghost function Rest(): Bytes
      reads this
    {
      buffer + Flatten(arriving)
    }

    /** The stop event can be set at any time, and stays set. */
    method PollStop() returns (isSet: bool)
      modifies this`looks
      ensures looks == old(looks) + 1 && (isSet <==> StopSeen())
    {
      looks := looks + 1;
      return stopAt.Some? && stopAt.value < looks;
    }

    method Read() returns (chunk: Bytes)
      requires Valid() && !StopSeen()
      modifies this`arriving
      ensures chunk == [] <==> old(arriving) == []
      ensures chunk + Flatten(arriving) == Flatten(old(arriving))
      ensures forall k | 0 <= k < |arriving| :: arriving[k] != []
      ensures |arriving| == |old(arriving)| - if chunk == [] then 0 else 1
    {
      if arriving == [] {
        return [];
      }
      chunk := arriving[0];
      arriving := arriving[1..];
    }

    /** `fill`. Once the event is seen, nothing more is read. */
    method Fill(minimum: nat) returns (filled: Filled)
      requires Valid() && Reading()
      modifies this`arriving, this`buffer, this`totalBytes, this`ended, this`looks
      ensures filled == TooMuch ==> |all| > MAX_SPEECH_BYTES
      ensures filled != TooMuch ==> Valid() && Rest() == old(Rest())
      ensures filled == Enough ==> |buffer| >= minimum
      ensures filled == Short ==> StopSeen() || |Rest()| < minimum
      ensures filled == Enough ==> Reading()
      ensures filled == TooMuch ==> !StopSeen() && Looked(0)
      ensures Looked(1)
    {
      while |buffer| < minimum && !ended
        invariant Valid() && Rest() == old(Rest()) && !StopSeen()
        invariant if ended then |buffer| < minimum && Looked(1) else Looked(0)
        decreases |arriving|
      {
        var stop := PollStop();
        if stop {
          return Short;
        }
        var chunk := Read();
        if chunk == [] {
          ended := true;
          break;
        }
        totalBytes := totalBytes + |chunk|;
        if totalBytes > MAX_SPEECH_BYTES {
          return TooMuch;
        }
        buffer := buffer + chunk;
      }
      return if |buffer| >= minimum then Enough else Short;
    }

    /** `fill`, then take that many bytes off the front of the buffer. */
    method Next(n: nat) returns (filled: Filled, taken: Bytes)
      requires Valid() && Reading()
      modifies this`arriving, this`buffer, this`totalBytes, this`ended, this`looks
      ensures filled == TooMuch ==> |all| > MAX_SPEECH_BYTES
      ensures filled != TooMuch ==> Valid()
      ensures filled == Enough ==> |taken| == n && old(Rest()) == taken + Rest()
      ensures filled == Short ==> StopSeen() || |old(Rest())| < n
      ensures filled == Enough ==> Reading()
      ensures filled == TooMuch ==> !StopSeen() && Looked(0)
      ensures Looked(1)
    {
      filled := Fill(n);
      if filled != Enough {
        return filled, [];
      }
      taken := buffer[..n];
      buffer := buffer[n..];
    }

    /** What a fill that did not bring enough means; the stop event is looked at again. */
    method EndOfFill(filled: Filled, incomplete: Error) returns (end: End)
      requires filled != Enough && incomplete != OversizedAudio
      requires Looked(1) && (filled == TooMuch ==> !StopSeen())
      modifies this`looks
      ensures Heeded(end) && (old(StopSeen()) ==> StopSeen())
      ensures filled == TooMuch ==> end == Failed(OversizedAudio)
      ensures filled == Short ==> end == if StopSeen() then Stopped else Failed(incomplete)
    {
      if filled == TooMuch {
        return Failed(OversizedAudio);
      }
      var stop := PollStop();
      return if stop then Stopped else Failed(incomplete);
    }
  }

  // ---- the program

  /** How `_stream_wav` may end on a given string: as the whole-string parser ends, unless it
      was stopped, or the string is over the size limit. What was heard is the beginning of what can
      be heard, and all of it unless the stream was broken off. */
  ghost predicate EndsLike(end: End, heard: Samples, rates: seq<nat>, all: Bytes) {
    && (end == Failed(OversizedAudio) ==> |all| > MAX_SPEECH_BYTES)
    && (end.Finished? ==> rates != [] && ParseWav(all) == Ok(Audio(heard, rates[0])))
    && (forall k | 0 <= k < |rates| :: ParseHeader(all).Ok? && rates[k] == ParseHeader(all).value.format.rate)
    && (end.Failed? && end.error != OversizedAudio ==> ParseWav(all) == Err(end.error))
    && heard <= Audible(all)
    && (end == Failed(IncompleteAudio) ==> heard == Audible(all))
  }

  /** How a stream may end before any audio. */
  predicate EndsInHeader(end: End, header: Result<Body, Error>, size: nat) {
    CutShort(end, size) || (end.Failed? && end.error != OversizedAudio && header == Err(end.error))
  }

  /** Endings that say nothing of the content. */
  predicate CutShort(end: End, size: nat) {
    end == Stopped || (end == Failed(OversizedAudio) && size > MAX_SPEECH_BYTES)
  }

  /** The header half: either the start of the audio, or how the stream ends. */
  method ReadHeader(reader: Reader) returns (r: Result<Format, End>, declared: Option<nat>)
    requires reader.Valid() && reader.Rest() == reader.all && reader.buffer == []
    requires reader.Reading()
    modifies reader
    ensures if r.Err? then reader.Heeded(r.error) else reader.Reading()
    ensures r.Ok? ==> reader.Valid() && ParseHeader(reader.all) == Ok(Body(r.value, declared, reader.Rest()))
    ensures r.Err? ==> EndsInHeader(r.error, ParseHeader(reader.all), |reader.all|)
  {
    declared := None;
    var filled, magic := reader.Next(12);
    if filled != Enough {
      var end := reader.EndOfFill(filled, IncompleteHeader);
      return Err(end), None;
    }
    assert reader.all[..4] == magic[..4] && reader.all[8..12] == magic[8..12] && reader.all[12..] == reader.Rest();
    if magic[..4] != RIFF || magic[8..12] != WAVE {
      return Err(Failed(NotWave)), None;
    }
    r, declared := ReadChunks(reader);
  }

  /** The chunks not yet read decide the header. */
  ghost predicate Leads(rest: Bytes, header: nat, format: Option<Format>, goal: Result<Body, Error>)
    requires format.Some? ==> ValidFormat(format.value)
  {
    ParseChunks(rest, header, format) == goal
  }

  method ReadChunks(reader: Reader) returns (r: Result<Format, End>, declared: Option<nat>)
    requires reader.Valid() && ParseHeader(reader.all) == ParseChunks(reader.Rest(), 12, None)
    requires reader.Reading()
    modifies reader
    ensures if r.Err? then reader.Heeded(r.error) else reader.Reading()
    ensures r.Ok? ==> reader.Valid() && ParseHeader(reader.all) == Ok(Body(r.value, declared, reader.Rest()))
    ensures r.Err? ==> EndsInHeader(r.error, ParseHeader(reader.all), |reader.all|)
  {
    ghost var goal := ParseHeader(reader.all);
    var header: nat := 12;
    var format := None;
    while true
      invariant reader.Valid() && (format.Some? ==> ValidFormat(format.value))
      invariant Leads(reader.Rest(), header, format, goal) && reader.Reading()
      decreases |reader.Rest()|
    {
      var chunk := ReadChunk(reader, header, format, goal);
      if chunk.Err? {
        return Err(chunk.error), None;
      }
      if chunk.value.Start? {
        return Ok(chunk.value.body.format), chunk.value.body.declared;
      }
      header, format := header + chunk.value.size, chunk.value.format;
    }
  }

  /** One round of the chunk loop, told by what becomes of the whole header. */
  method ReadChunk(reader: Reader, header: nat, format: Option<Format>, ghost goal: Result<Body, Error>)
      returns (r: Result<Chunk, End>)
    requires reader.Valid() && (format.Some? ==> ValidFormat(format.value))
    requires Leads(reader.Rest(), header, format, goal) && reader.Reading()
    modifies reader
    ensures if r.Err? then reader.Heeded(r.error) else reader.Reading()
    ensures r.Ok? ==> reader.Valid() && !r.value.Bad?
    ensures r.Ok? && r.value.Start? ==> goal == Ok(Body(r.value.body.format, r.value.body.declared, reader.Rest()))
    ensures r.Ok? && r.value.Skip? ==>
      |reader.Rest()| < |old(reader.Rest())| && (r.value.format.Some? ==> ValidFormat(r.value.format.value))
    ensures r.Ok? && r.value.Skip? ==> Leads(reader.Rest(), header + r.value.size, r.value.format, goal)
    ensures r.Err? ==> EndsInHeader(r.error, goal, |reader.all|)
  {
    r := TakeFirstChunk(reader, header, format);
  }

  /** The chunk at the front. The bytes of a started audio are left with the reader. */
  method TakeFirstChunk(reader: Reader, header: nat, format: Option<Format>) returns (r: Result<Chunk, End>)
    requires reader.Valid() && (format.Some? ==> ValidFormat(format.value))
    requires reader.Reading()
    modifies reader
    ensures if r.Err? then reader.Heeded(r.error) else reader.Reading()
    ensures r.Ok? ==> reader.Valid() && !r.value.Bad?
    ensures var first := FirstChunk(old(reader.Rest()), header, format);
      && (r.Ok? && r.value.Start? ==> first == Start(Body(r.value.body.format, r.value.body.declared, reader.Rest())))
      && (r.Ok? && r.value.Skip? ==> first == r.value && reader.Rest() == old(reader.Rest())[first.size..])
      && (r.Err? ==> if first.Bad? then EndsInHeader(r.error, Err(first.error), |reader.all|)
                     else CutShort(r.error, |reader.all|))
  {
    ghost var rest := reader.Rest();
    var filled, start := reader.Next(8);
    if filled != Enough {
      var end := reader.EndOfFill(filled, IncompleteChunkHeader);
      return Err(end);
    }
    var name, size := start[..4], LittleEndian(start[4..8]);
    assert rest == start + reader.Rest();
    assert rest[..4] == name && rest[4..8] == start[4..8] && rest[8..] == reader.Rest();
    if name == DATA {
      if format.None? {
        return Err(Failed(DataBeforeFormat));
      }
      return Ok(Start(Body(format.value, if size == UNKNOWN_LENGTH then None else Some(size), [])));
    }
    if size > MAX_HEADER_BYTES {
      return Err(Failed(OversizedChunk));
    }
    r := TakePayload(reader, header, format, start);
  }

  /** The rest of a header chunk, its name and size taken. */
  method TakePayload(reader: Reader, header: nat, format: Option<Format>, start: Bytes) returns (r: Result<Chunk, End>)
    requires reader.Valid() && (format.Some? ==> ValidFormat(format.value))
    requires |start| == 8 && start[..4] != DATA && LittleEndian(start[4..8]) <= MAX_HEADER_BYTES
    requires reader.Reading()
    modifies reader
    ensures if r.Err? then reader.Heeded(r.error) else reader.Reading()
    ensures r.Ok? ==> reader.Valid() && r.value.Skip?
    ensures var first := FirstChunk(start + old(reader.Rest()), header, format);
      && (r.Ok? ==> first == r.value && reader.Rest() == (start + old(reader.Rest()))[first.size..])
      && (r.Err? ==> if first.Bad? then EndsInHeader(r.error, Err(first.error), |reader.all|)
                     else CutShort(r.error, |reader.all|))
  {
    ghost var rest := start + reader.Rest();
    var size := LittleEndian(start[4..8]);
    var padded := size + size % 2;
    assert rest[..4] == start[..4] && rest[4..8] == start[4..8];
    var filled, payload := reader.Next(padded);
    if filled != Enough {
      var end := reader.EndOfFill(filled, IncompleteChunk);
      return Err(end);
    }
    assert rest == start + payload + reader.Rest();
    assert rest[8..8 + size] == payload[..size] && rest[8 + padded..] == reader.Rest();
    if header + 8 + padded > MAX_HEADER_BYTES {
      return Err(Failed(OversizedHeader));
    }
    if start[..4] != FMT {
      return Ok(Skip(8 + padded, format));
    }
    var read := ReadFormat(payload[..size]);
    return if read.Err? then Err(Failed(read.error)) else Ok(Skip(8 + padded, Some(read.value)));
  }

  /** The part of a chunk that still belongs to the declared audio. */
  function Cut(chunk: Bytes, remaining: Option<nat>): Bytes {
    if remaining.Some? && |chunk| > remaining.value then chunk[..remaining.value] else chunk
  }

  /** Taking a chunk stays inside the audio bytes, and exhausts them when nothing remains. */
  lemma TakeChunk(body: Body, chunk: Bytes, rest: Bytes, remaining: Option<nat>, consumed: Bytes)
    requires body.bytes == consumed + (chunk + rest)
    requires body.declared.None? <==> remaining.None?
    requires remaining.Some? ==> |consumed| + remaining.value == body.declared.value
    ensures consumed + Cut(chunk, remaining) <= AudioBytes(body)
    ensures remaining.Some? && remaining.value <= |chunk| ==> consumed + Cut(chunk, remaining) == AudioBytes(body)
    ensures remaining.None? || remaining.value > |chunk| ==> body.bytes == consumed + Cut(chunk, remaining) + rest
  {
    assert body.bytes == (consumed + chunk) + rest;
    if remaining.Some? && remaining.value < |chunk| {
      assert consumed + chunk[..remaining.value] == (consumed + chunk)[..body.declared.value];
    }
  }

  /** How many of the carried bytes are whole frames, and how many frames they are. */
  function WholeBytes(n: nat, width: nat): (bytes: nat)
    requires width in {1, 2, 3, 4}
    ensures bytes <= n && n - bytes < width
  {
    if n < width then 0 else width + WholeBytes(n - width, width)
  }

  function WholeFrames(n: nat, width: nat): (frames: nat)
    requires width in {1, 2, 3, 4}
    ensures Frames(WholeBytes(n, width), frames, width) && (frames == 0 <==> n < width)
  {
    if n < width then 0 else 1 + WholeFrames(n - width, width)
  }

  /** Moving whole frames from the carry to the decoded bytes. */
  lemma DecodeMore(pcm: Bytes, count: nat, carry: Bytes, complete: nat, more: nat, width: nat)
    requires width in {1, 2, 3, 4} && Frames(|pcm|, count, width) && Frames(complete, more, width)
      && complete <= |carry|
    ensures var longer := pcm + carry[..complete];
            && longer + carry[complete..] == pcm + carry
            && Frames(|longer|, count + more, width)
            && DecodePcm(longer, width) == DecodePcm(pcm, width) + DecodePcm(carry[..complete], width)
  {
    FramesAdd(|pcm|, count, complete, more, width);
    DecodeConcat(pcm, carry[..complete], count, width);
  }

  /** The verdict once all the audio bytes are in. */
  lemma Verdict(body: Body, pcm: Bytes, count: nat, carry: Bytes)
    requires ValidFormat(body.format) && pcm + carry == AudioBytes(body)
    requires Frames(|pcm|, count, body.format.width) && |carry| < body.format.width
    requires count <= body.format.rate * MAX_SECONDS
    ensures CheckAudio(body) ==
      if carry != [] || (body.declared.Some? && |pcm| + |carry| < body.declared.value) then Err(IncompleteAudio)
      else if count == 0 then Err(EmptyAudio) else Ok(())
  {
    FramesDivide(|pcm|, count, |carry|, body.format.width);
  }

  /** Too many whole frames among the first bytes are too many altogether. */
  lemma TooManyFrames(body: Body, part: nat, count: nat)
    requires ValidFormat(body.format) && part <= |AudioBytes(body)|
    requires Frames(part, count, body.format.width) && count > body.format.rate * MAX_SECONDS
    ensures CheckAudio(body) == Err(InvalidLength)
  {
    var width := body.format.width;
    FramesDivide(part, count, 0, width);
    QuotientGrows(part, |AudioBytes(body)|, width);
  }

  lemma QuotientGrows(m: nat, n: nat, width: nat)
    requires width in {1, 2, 3, 4} && m <= n
    ensures m / width <= n / width
  {
  }

  /** The locals of the data loop. `pcm` are the bytes decoded so far. */
  class PcmDecoder {
    const width: nat
    const rate: nat
    ghost const body: Body
    var remaining: Option<nat>
    var carry: Bytes
    var totalFrames: nat
    var heard: Samples
    var rates: seq<nat>
    ghost var pcm: Bytes

    constructor (format: Format, declared: Option<nat>, ghost body: Body)
      requires ValidFormat(format) && format == body.format && declared == body.declared
      ensures Valid() && this.body == body && pcm == carry == []
      ensures remaining == declared && rates == []
    {
      width, rate, this.body := format.width, format.rate, body;
      remaining, carry, totalFrames, heard, rates := declared, [], 0, [], [];
      pcm := [];
    }

    /** All the audio taken in is decoded or carried, and the counters say how much. */
    ghost predicate Accounted()
      reads this
    {
      && ValidFormat(body.format) && width == body.format.width && rate == body.format.rate
      && Frames(|pcm|, totalFrames, width) && pcm + carry <= AudioBytes(body)
      && totalFrames <= rate * MAX_SECONDS
      && heard == DecodePcm(pcm, width)
      && (body.declared.None? <==> remaining.None?)
      && (remaining.Some? ==> |pcm| + |carry| + remaining.value == body.declared.value)
      && (rates != [] <==> pcm != []) && (forall k | 0 <= k < |rates| :: rates[k] == rate)
    }

    ghost predicate Valid()
      reads this
    {
      Accounted() && |carry| < width
    }

    /** Cut a chunk to the declared length, decode its whole frames and carry the rest. */
    method Absorb(chunk: Bytes, ghost rest: Bytes) returns (tooLong: bool)
      requires Valid() && body.bytes == pcm + carry + (chunk + rest)
      modifies this
      ensures Accounted()
      ensures if tooLong then CheckAudio(body) == Err(InvalidLength) else |carry| < width
      ensures remaining == Some(0) ==> pcm + carry == AudioBytes(body)
      ensures remaining != Some(0) ==> body.bytes == pcm + carry + rest
      ensures |pcm + carry| <= |old(pcm + carry)| + |chunk|
    {
      TakeChunk(body, chunk, rest, remaining, pcm + carry);
      var cut := Cut(chunk, remaining);
      assert pcm + (carry + cut) == pcm + carry + cut;
      if remaining.Some? {
        remaining := Some(remaining.value - |cut|);
      }
      carry := carry + cut;
      tooLong := DecodeWholeFrames();
    }

    method DecodeWholeFrames() returns (tooLong: bool)
      requires Accounted()
      modifies this`carry, this`totalFrames, this`heard, this`rates, this`pcm
      ensures Accounted() && pcm + carry == old(pcm + carry)
      ensures if tooLong then CheckAudio(body) == Err(InvalidLength) else |carry| < width
    {
      var more := WholeFrames(|carry|, width);
      if more == 0 {
        return false;
      }
      var complete := WholeBytes(|carry|, width);
      DecodeMore(pcm, totalFrames, carry, complete, more, width);
      if totalFrames + more > rate * MAX_SECONDS {
        TooManyFrames(body, |pcm| + complete, totalFrames + more);
        return true;
      }
      totalFrames := totalFrames + more;
      heard, rates := heard + DecodePcm(carry[..complete], width), rates + [rate];
      pcm, carry := pcm + carry[..complete], carry[complete..];
      return false;
    }

    /** After the last chunk. */
    method Conclude() returns (end: End)
      requires Valid() && pcm + carry == AudioBytes(body)
      ensures end == Finished ==> CheckAudio(body) == Ok(()) && rates != [] && pcm == AudioBytes(body)
      ensures end != Finished ==> end.Failed? && end.error != OversizedAudio && CheckAudio(body) == Err(end.error)
    {
      Verdict(body, pcm, totalFrames, carry);
      if carry != [] || (remaining.Some? && remaining.value != 0) {
        return Failed(IncompleteAudio);
      }
      assert pcm + [] == pcm;
      return if totalFrames == 0 then Failed(EmptyAudio) else Finished;
    }
  }

  /** How a stream with a good header may end, told from its audio bytes. */
  ghost predicate EndsInAudio(end: End, decoder: PcmDecoder, all: Bytes)
    reads decoder
  {
    && decoder.Accounted()
    && (end == Finished ==>
      CheckAudio(decoder.body) == Ok(()) && decoder.rates != [] && decoder.pcm == AudioBytes(decoder.body))
    && (end != Finished ==>
          CutShort(end, |all|)
            || (end.Failed? && end.error != OversizedAudio && CheckAudio(decoder.body) == Err(end.error)))
    && (end == Failed(IncompleteAudio) ==>
          decoder.pcm + decoder.carry == AudioBytes(decoder.body) && |decoder.carry| < decoder.width)
  }

  /** The bytes up to the end of the audio. */
  function Needed(all: Bytes, body: Body): int {
    |all| - |body.bytes| + |AudioBytes(body)|
  }

  /** The data half. */
  method StreamBody(reader: Reader, format: Format, declared: Option<nat>, ghost body: Body)
      returns (heard: Samples, rates: seq<nat>, end: End)
    requires reader.Valid() && ParseHeader(reader.all) == Ok(body) && body == Body(format, declared, reader.Rest())
    requires reader.Reading()
    modifies reader
    ensures EndsLike(end, heard, rates, reader.all) && reader.Heeded(end)
    ensures end == Finished ==> Needed(reader.all, body) <= MAX_SPEECH_BYTES
  {
    hide ParseHeader, CheckAudio, AudioBytes, DecodePcm, Frames, EndsLike;
    var decoder := new PcmDecoder(format, declared, body);
    assert body.bytes == [] + [] + reader.Rest();
    end := DecodeBody(reader, decoder);
    heard, rates := decoder.heard, decoder.rates;
    PrefixIsHeardFirst(decoder.pcm, AudioBytes(body), decoder.totalFrames, body.format.width);
    CarryIsNotHeard(decoder.pcm, decoder.carry, decoder.totalFrames, body.format.width);
    AudioVerdict(reader.all, body, decoder.pcm, heard, rates, end);
  }

  /** From the verdict on the audio bytes to the verdict on the string. */
  lemma AudioVerdict(all: Bytes, body: Body, pcm: Bytes, heard: Samples, rates: seq<nat>, end: End)
    requires ValidFormat(body.format) && ParseHeader(all) == Ok(body)
    requires heard == DecodePcm(pcm, body.format.width) <= DecodePcm(AudioBytes(body), body.format.width)
    requires forall k | 0 <= k < |rates| :: rates[k] == body.format.rate
    requires end == Finished ==> CheckAudio(body) == Ok(()) && rates != [] && pcm == AudioBytes(body)
    requires end != Finished ==>
      CutShort(end, |all|)
        || (end.Failed? && end.error != OversizedAudio && CheckAudio(body) == Err(end.error))
    requires end == Failed(IncompleteAudio) ==> heard == DecodePcm(AudioBytes(body), body.format.width)
    ensures EndsLike(end, heard, rates, all)
  {
    hide ParseHeader, CheckAudio, AudioBytes, DecodePcm;
  }

  method DecodeBody(reader: Reader, decoder: PcmDecoder) returns (end: End)
    requires reader.Valid() && decoder.Valid()
    requires decoder.body.bytes == decoder.pcm + decoder.carry + reader.Rest()
    requires reader.Reading()
    modifies reader, decoder
    ensures EndsInAudio(end, decoder, reader.all) && reader.Heeded(end)
    ensures end == Finished ==> |reader.all| - |decoder.body.bytes| + |AudioBytes(decoder.body)| <= MAX_SPEECH_BYTES
  {
    hide AudioBytes, CheckAudio, DecodePcm, Frames;
    while true
      invariant reader.Valid() && decoder.Valid()
      invariant decoder.body.bytes == decoder.pcm + decoder.carry + reader.Rest()
      invariant !reader.StopSeen() && reader.Looked(if reader.buffer == [] then 1 else 0)
      decreases |reader.Rest()|
    {
      var cut, last := DecodeRound(reader, decoder);
      if cut.Some? {
        return cut.value;
      }
      if last {
        break;
      }
    }
    end := decoder.Conclude();
  }

  /** One round of the data loop: cut short, the last one, or one of many. */
  method DecodeRound(reader: Reader, decoder: PcmDecoder) returns (cut: Option<End>, last: bool)
    requires reader.Valid() && decoder.Valid()
    requires decoder.body.bytes == decoder.pcm + decoder.carry + reader.Rest()
    requires !reader.StopSeen() && reader.Looked(if reader.buffer == [] then 1 else 0)
    modifies reader, decoder
    ensures cut.Some? ==>
      cut.value != Finished && EndsInAudio(cut.value, decoder, reader.all) && reader.Heeded(cut.value)
    ensures cut.None? ==> reader.Valid() && decoder.Valid() && !reader.StopSeen()
    ensures cut.None? ==> if last then reader.Looked(2) else reader.buffer == [] && reader.Looked(1)
    ensures cut.None? && last ==> decoder.pcm + decoder.carry == AudioBytes(decoder.body)
    ensures cut.None? && last ==> |AudioBytes(decoder.body)| + |reader.Rest()| <= |decoder.body.bytes|
    ensures cut.None? && !last ==>
      decoder.body.bytes == decoder.pcm + decoder.carry + reader.Rest() && |reader.Rest()| < |old(reader.Rest())|
  {
    hide CheckAudio, DecodePcm, Frames;
    var stop := reader.PollStop();
    if stop {
      return Some(Stopped), false;
    }
    var chunk, oversized := NextChunk(reader);
    if oversized {
      return Some(Failed(OversizedAudio)), false;
    }
    if chunk == [] {
      return None, true;
    }
    var tooLong := decoder.Absorb(chunk, reader.Rest());
    if tooLong {
      return Some(Failed(InvalidLength)), false;
    }
    return None, decoder.remaining == Some(0);
  }

  /** The buffer left over from the header, then one read after the other. */
  method NextChunk(reader: Reader) returns (chunk: Bytes, oversized: bool)
    requires reader.Valid() && !reader.StopSeen()
    modifies reader`arriving, reader`buffer, reader`totalBytes
    ensures reader.buffer == [] && (old(reader.buffer) != [] ==> reader.arriving == old(reader.arriving))
    ensures |reader.arriving| ==
      |old(reader.arriving)| - if old(reader.buffer) != [] || chunk == [] then 0 else 1
    ensures oversized ==> |reader.all| > MAX_SPEECH_BYTES
    ensures !oversized ==> reader.Valid() && chunk + reader.Rest() == old(reader.Rest())
    ensures !oversized && chunk == [] ==> reader.Rest() == []
  {
    if reader.buffer != [] {
      chunk := reader.buffer;
      reader.buffer := [];
      return chunk, false;
    }
    chunk := reader.Read();
    reader.totalBytes := reader.totalBytes + |chunk|;
    return chunk, chunk != [] && reader.totalBytes > MAX_SPEECH_BYTES;
  }

  /** Frames decoded from a prefix are heard in that order. */
  lemma PrefixIsHeardFirst(pcm: Bytes, whole: Bytes, count: nat, width: nat)
    requires width in {1, 2, 3, 4} && Frames(|pcm|, count, width) && pcm <= whole
    ensures DecodePcm(pcm, width) <= DecodePcm(whole, width)
  {
    assert whole == pcm + whole[|pcm|..];
    DecodeConcat(pcm, whole[|pcm|..], count, width);
  }

  /** Less than a frame is not heard. */
  lemma CarryIsNotHeard(pcm: Bytes, carry: Bytes, count: nat, width: nat)
    requires width in {1, 2, 3, 4} && Frames(|pcm|, count, width)
    ensures |carry| < width ==> DecodePcm(pcm + carry, width) == DecodePcm(pcm, width)
  {
    DecodeConcat(pcm, carry, count, width);
  }

  /** `_stream_wav` on a response body arriving in any reads, with a stop event found set from any look at it
      on. It is stopped exactly if it has found the event set, and it looks once for every read and at most
      twice more. Otherwise it ends as the whole-string parser does. */
  method StreamWav(arriving: seq<Bytes>, stopAt: Option<nat>)
    returns (heard: Samples, rates: seq<nat>, end: End, looks: nat)
    requires forall k | 0 <= k < |arriving| :: arriving[k] != []
    ensures EndsLike(end, heard, rates, Flatten(arriving))
    ensures end == Stopped <==> stopAt.Some? && stopAt.value < looks
    ensures looks <= |arriving| + 2
    ensures end != Stopped && |Flatten(arriving)| <= 16 * 1024 * 1024 ==>
      if ParseWav(Flatten(arriving)).Ok? then end == Finished && heard == ParseWav(Flatten(arriving)).value.samples
      else end == Failed(ParseWav(Flatten(arriving)).error)
    ensures end == Finished ==>
      ParseHeader(Flatten(arriving)).Ok?
        && Needed(Flatten(arriving), ParseHeader(Flatten(arriving)).value) <= MAX_SPEECH_BYTES
  {
    var reader := new Reader(arriving, stopAt);
    var header, declared := ReadHeader(reader);
    if header.Err? {
      return [], [], header.error, reader.looks;
    }
    heard, rates, end := StreamBody(reader, header.value, declared, ParseHeader(reader.all).value);
    looks := reader.looks;
  }
}

/** What a wave file is, said without a parser, and the proof that exactly these byte strings are accepted
    by the parser of ron/voice/speech.py.
 */
module WavGrammar {
  import opened Common
  import opened WavStream
  import opened WavWriter

  // ---- what a wave file is

  /** A chunk in front of the audio: its name, its contents and the padding of an odd one. */
  datatype HeaderChunk = HeaderChunk(name: Bytes, payload: Bytes, pad: Bytes)

  predicate Proper(c: HeaderChunk) {
    && |c.name| == 4 && c.name != DATA && |c.pad| == |c.payload| % 2 && |c.payload| <= 65_536
    && (c.name == FMT ==> ReadFormat(c.payload).Ok?)
  }

  function Spelled(c: HeaderChunk): Bytes {
    c.name + Encoded(|c.payload|, 4) + c.payload + c.pad
  }

  function SpelledAll(chunks: seq<HeaderChunk>): Bytes {
    if chunks == [] then [] else Spelled(chunks[0]) + SpelledAll(chunks[1..])
  }

  /** The last format chunk says this format. */
  ghost predicate SaysFormat(chunks: seq<HeaderChunk>, f: Format) {
    exists k :: 0 <= k < |chunks| && LastFormatAt(chunks, k) && ReadFormat(chunks[k].payload) == Ok(f)
  }

  predicate LastFormatAt(chunks: seq<HeaderChunk>, k: nat)
    requires k < |chunks|
  {
    chunks[k].name == FMT && forall j | k < j < |chunks| :: chunks[j].name != FMT
  }

  /** The parts of a file: the size in its first line, the chunks before the audio, the length the audio
      declares, and all that follows. */
  datatype Parts = Parts(size: Bytes, chunks: seq<HeaderChunk>, format: Format, length: nat, rest: Bytes)

  ghost predicate HasHeader(file: Bytes, p: Parts) {
    && |p.size| == 4 && (forall k | 0 <= k < |p.chunks| :: Proper(p.chunks[k]))
    && 12 + |SpelledAll(p.chunks)| <= 65_536 && SaysFormat(p.chunks, p.format)
    && p.length < 0x1_0000_0000
    && file == RIFF + p.size + WAVE + (SpelledAll(p.chunks) + (DATA + Encoded(p.length, 4) + p.rest))
  }

  /** The audio is whole frames, at least one and at most two minutes of them, and as long as declared unless
      its length is left unknown; what follows a declared length does not matter. */
  ghost predicate HasAudio(p: Parts, frames: nat) {
    && 0 < frames <= p.format.rate * 120
    && if p.length == 0xFFFF_FFFF then |p.rest| == frames * p.format.width
       else p.length <= |p.rest| && p.length == frames * p.format.width
  }

  ghost predicate IsWave(file: Bytes) {
    exists p: Parts, frames: nat :: HasHeader(file, p) && HasAudio(p, frames)
  }

  function Declared(length: nat): Option<nat> {
    if length == 0xFFFF_FFFF then None else Some(length)
  }

  // ---- from the parts to the parser

  function FormatAfter(chunks: seq<HeaderChunk>, known: Option<Format>): (f: Option<Format>)
    requires known.Some? ==> ValidFormat(known.value)
    requires forall k | 0 <= k < |chunks| :: Proper(chunks[k])
    ensures f.Some? ==> ValidFormat(f.value)
  {
    if chunks == [] then known else FormatAfter(chunks[1..], FormatBy(chunks[0], known))
  }

  function FormatBy(c: HeaderChunk, known: Option<Format>): (f: Option<Format>)
    requires Proper(c) && (known.Some? ==> ValidFormat(known.value))
    ensures f.Some? ==> ValidFormat(f.value)
  {
    if c.name == FMT then Some(ReadFormat(c.payload).value) else known
  }

  lemma ReadsChunk(c: HeaderChunk, tail: Bytes)
    requires Proper(c)
    ensures var rest, size := Spelled(c) + tail, |c.payload|;
      && |rest| == 8 + size + size % 2 + |tail| && rest[..4] == c.name && LittleEndian(rest[4..8]) == size
      && rest[8..8 + size] == c.payload && rest[8 + size + size % 2..] == tail
  {
    hide ReadFormat, LittleEndian;
    var rest := Spelled(c) + tail;
    assert rest[4..8] == Encoded(|c.payload|, 4);
    Powers();
    NumbersSurvive(|c.payload|, 4);
  }

  lemma ChunkIsSkipped(c: HeaderChunk, tail: Bytes, header: nat, known: Option<Format>)
    requires Proper(c) && (known.Some? ==> ValidFormat(known.value)) && header + |Spelled(c)| <= 65_536
    ensures ParseChunks(Spelled(c) + tail, header, known) ==
      ParseChunks(tail, header + |Spelled(c)|, FormatBy(c, known))
  {
    hide ParseChunks, ReadFormat, LittleEndian;
    ReadsChunk(c, tail);
    StepOver(Spelled(c) + tail, header, known, |Spelled(c)|, FormatBy(c, known));
  }

  lemma {:induction false} ChunksAreSkipped(chunks: seq<HeaderChunk>, tail: Bytes, header: nat, known: Option<Format>)
    requires forall k | 0 <= k < |chunks| :: Proper(chunks[k])
    requires (known.Some? ==> ValidFormat(known.value)) && header + |SpelledAll(chunks)| <= 65_536
    ensures ParseChunks(SpelledAll(chunks) + tail, header, known) ==
      ParseChunks(tail, header + |SpelledAll(chunks)|, FormatAfter(chunks, known))
    decreases |chunks|
  {
    hide ParseChunks, Proper, Spelled, FormatBy;
    if chunks == [] {
      assert SpelledAll(chunks) + tail == tail;
    } else {
      var later := SpelledAll(chunks[1..]);
      assert SpelledAll(chunks) + tail == Spelled(chunks[0]) + (later + tail);
      ChunkIsSkipped(chunks[0], later + tail, header, known);
      ChunksAreSkipped(chunks[1..], tail, header + |Spelled(chunks[0])|, FormatBy(chunks[0], known));
    }
  }

  lemma {:induction false} LastFormatCounts(chunks: seq<HeaderChunk>, known: Option<Format>, k: nat)
    requires forall j | 0 <= j < |chunks| :: Proper(chunks[j])
    requires (known.Some? ==> ValidFormat(known.value)) && k < |chunks| && LastFormatAt(chunks, k)
    ensures FormatAfter(chunks, known) == Some(ReadFormat(chunks[k].payload).value)
    decreases |chunks|
  {
    hide ReadFormat;
    if k == 0 {
      NoFormatBehind(chunks[1..], FormatBy(chunks[0], known));
    } else {
      LastFormatCounts(chunks[1..], FormatBy(chunks[0], known), k - 1);
    }
  }

  lemma {:induction false} NoFormatBehind(chunks: seq<HeaderChunk>, known: Option<Format>)
    requires forall j | 0 <= j < |chunks| :: Proper(chunks[j]) && chunks[j].name != FMT
    requires known.Some? ==> ValidFormat(known.value)
    ensures FormatAfter(chunks, known) == known
    decreases |chunks|
  {
    hide ReadFormat;
    if chunks != [] {
      NoFormatBehind(chunks[1..], known);
    }
  }

  lemma AudioStarts(length: nat, rest: Bytes, header: nat, f: Format)
    requires ValidFormat(f) && length < 0x1_0000_0000
    ensures ParseChunks(DATA + Encoded(length, 4) + rest, header, Some(f)) == Ok(Body(f, Declared(length), rest))
  {
    hide LittleEndian;
    var all := DATA + Encoded(length, 4) + rest;
    assert all[..4] == DATA && all[4..8] == Encoded(length, 4) && all[8..] == rest;
    Powers();
    NumbersSurvive(length, 4);
  }

  lemma HeaderIsParsed(file: Bytes, p: Parts)
    requires HasHeader(file, p)
    ensures ParseHeader(file) == Ok(Body(p.format, Declared(p.length), p.rest))
  {
    hide ParseChunks, ReadFormat, SpelledAll, Encoded;
    var tail := DATA + Encoded(p.length, 4) + p.rest;
    var k :| 0 <= k < |p.chunks| && LastFormatAt(p.chunks, k) && ReadFormat(p.chunks[k].payload) == Ok(p.format);
    assert file[..4] == RIFF && file[8..12] == WAVE && file[12..] == SpelledAll(p.chunks) + tail;
    ChunksAreSkipped(p.chunks, tail, 12, None);
    LastFormatCounts(p.chunks, None, k);
    AudioStarts(p.length, p.rest, 12 + |SpelledAll(p.chunks)|, p.format);
  }

  // ---- from the parser to the parts

  lemma FirstChunkIs(rest: Bytes, header: nat, known: Option<Format>) returns (c: HeaderChunk)
    requires known.Some? ==> ValidFormat(known.value)
    requires FirstChunk(rest, header, known).Skip?
    ensures Proper(c) && header + |Spelled(c)| <= 65_536
    ensures FirstChunk(rest, header, known) == Skip(|Spelled(c)|, FormatBy(c, known))
    ensures rest == Spelled(c) + rest[|Spelled(c)|..]
  {
    hide ReadFormat, LittleEndian;
    var size := LittleEndian(rest[4..8]);
    var padded := size + size % 2;
    c := HeaderChunk(rest[..4], rest[8..8 + size], rest[8 + size..8 + padded]);
    BytesSurvive(rest[4..8]);
    assert rest[..8 + padded] == rest[..4] + rest[4..8] + rest[8..8 + size] + rest[8 + size..8 + padded];
  }

  lemma {:induction false} ChunksAre(rest: Bytes, header: nat, known: Option<Format>)
      returns (chunks: seq<HeaderChunk>, length: nat)
    requires (known.Some? ==> ValidFormat(known.value)) && ParseChunks(rest, header, known).Ok? && header <= 65_536
    ensures forall k | 0 <= k < |chunks| :: Proper(chunks[k])
    ensures header + |SpelledAll(chunks)| <= 65_536 && length < 0x1_0000_0000
    ensures var body := ParseChunks(rest, header, known).value;
      && body.declared == Declared(length) && FormatAfter(chunks, known) == Some(body.format)
      && rest == SpelledAll(chunks) + (DATA + Encoded(length, 4) + body.bytes)
    decreases |rest|
  {
    hide ReadFormat, Proper, Spelled, FormatBy, FirstChunk;
    match FirstChunk(rest, header, known)
    case Start(body) =>
      chunks := [];
      length := StartIs(rest, header, known);
    case Skip(size, format) =>
      var c := FirstChunkIs(rest, header, known);
      var later;
      later, length := ChunksAre(rest[size..], header + size, format);
      chunks := [c] + later;
      assert chunks[1..] == later;
      var tail := DATA + Encoded(length, 4) + ParseChunks(rest, header, known).value.bytes;
      assert Spelled(c) + (SpelledAll(later) + tail) == SpelledAll(chunks) + tail;
  }

  lemma StartIs(rest: Bytes, header: nat, known: Option<Format>) returns (length: nat)
    requires (known.Some? ==> ValidFormat(known.value)) && FirstChunk(rest, header, known).Start?
    ensures length < 0x1_0000_0000
    ensures var body := FirstChunk(rest, header, known).body;
      known == Some(body.format) && body.declared == Declared(length) && rest == DATA + Encoded(length, 4) + body.bytes
  {
    hide ReadFormat, LittleEndian;
    length := LittleEndian(rest[4..8]);
    BytesSurvive(rest[4..8]);
    FourBytes(rest[4..8]);
    assert rest == rest[..4] + rest[4..8] + rest[8..];
  }

  lemma FourBytes(b: Bytes)
    requires |b| == 4
    ensures LittleEndian(b) < 0x1_0000_0000
  {
    assert LittleEndian(b[3..]) < 256;
    assert b[2..][1..] == b[3..] && LittleEndian(b[2..]) < 0x1_0000;
    assert b[1..][1..] == b[2..] && LittleEndian(b[1..]) < 0x100_0000;
  }

  lemma {:induction false} FormatComesFrom(chunks: seq<HeaderChunk>, known: Option<Format>) returns (k: nat)
    requires forall j | 0 <= j < |chunks| :: Proper(chunks[j])
    requires (known.Some? ==> ValidFormat(known.value)) && exists j :: 0 <= j < |chunks| && chunks[j].name == FMT
    ensures k < |chunks| && LastFormatAt(chunks, k)
    decreases |chunks|
  {
    hide Proper;
    if exists j :: 0 <= j < |chunks[1..]| && chunks[1..][j].name == FMT {
      k := FormatComesFrom(chunks[1..], known);
      k := k + 1;
    } else {
      k := 0;
      assert forall j | 0 < j < |chunks| :: chunks[1..][j - 1] == chunks[j];
    }
  }

  lemma PartsOf(file: Bytes) returns (p: Parts)
    requires ParseHeader(file).Ok?
    ensures HasHeader(file, p) && ParseHeader(file).value == Body(p.format, Declared(p.length), p.rest)
  {
    hide ParseChunks, ReadFormat, SpelledAll, Encoded, Proper;
    var body := ParseHeader(file).value;
    var chunks, length := ChunksAre(file[12..], 12, None);
    if forall j | 0 <= j < |chunks| :: chunks[j].name != FMT {
      NoFormatBehind(chunks, None);
    }
    var k := FormatComesFrom(chunks, None);
    LastFormatCounts(chunks, None, k);
    FormatIsProper(chunks[k], body.format);
    p := Parts(file[4..8], chunks, body.format, length, body.bytes);
    assert file == file[..4] + file[4..8] + file[8..12] + file[12..];
  }

  lemma FormatIsProper(c: HeaderChunk, f: Format)
    requires Proper(c) && c.name == FMT && ReadFormat(c.payload).value == f
    ensures ReadFormat(c.payload) == Ok(f)
  {
  }

  // ---- exactly these are accepted

  lemma AudioExactly(p: Parts)
    requires ValidFormat(p.format)
    ensures CheckAudio(Body(p.format, Declared(p.length), p.rest)).Ok? <==> exists frames: nat :: HasAudio(p, frames)
  {
    var body := Body(p.format, Declared(p.length), p.rest);
    var width, present := p.format.width, |AudioBytes(body)|;
    if CheckAudio(body).Ok? {
      assert present == present / width * width;
      assert HasAudio(p, present / width);
    }
    if frames: nat :| HasAudio(p, frames) {
      assert present == frames * width;
    }
  }

  /** A byte string is accepted if and only if it is a wave file. */
  lemma AcceptedExactly(file: Bytes)
    ensures ParseWav(file).Ok? <==> IsWave(file)
  {
    hide ParseHeader, CheckAudio, HasHeader, HasAudio;
    if ParseHeader(file).Ok? {
      var p := PartsOf(file);
      AudioExactly(p);
    }
    if IsWave(file) {
      var p: Parts, frames: nat :| HasHeader(file, p) && HasAudio(p, frames);
      HeaderIsParsed(file, p);
      AudioExactly(p);
    }
  }
}

/** A writer of the wave format, and the proof that what it writes is what the parser of
    ron/voice/speech.py hears.
 */
module WavWriter {
  import opened Common
  import opened WavStream

  type Chunks = seq<(Bytes, Bytes)>

  // ---- numbers and samples

  function Encoded(n: nat, width: nat): (b: Bytes)
    ensures |b| == width
  {
    if width == 0 then [] else [(n % 256) as byte] + Encoded(n / 256, width - 1)
  }

  function Power256(width: nat): nat {
    if width == 0 then 1 else 256 * Power256(width - 1)
  }

  lemma {:induction false} NumbersSurvive(n: nat, width: nat)
    requires n < Power256(width)
    ensures LittleEndian(Encoded(n, width)) == n
  {
    if width > 0 {
      NumbersSurvive(n / 256, width - 1);
      assert Encoded(n, width)[1..] == Encoded(n / 256, width - 1);
    }
  }

  lemma {:induction false} BytesSurvive(b: Bytes)
    ensures Encoded(LittleEndian(b), |b|) == b
  {
    if b != [] {
      BytesSurvive(b[1..]);
      LowByte(b[0] as nat, LittleEndian(b[1..]));
      assert Encoded(LittleEndian(b), |b|) == [b[0]] + Encoded(LittleEndian(b[1..]), |b| - 1);
      assert b == [b[0]] + b[1..];
    }
  }

  lemma LowByte(low: nat, high: nat)
    requires low < 256
    ensures (low + 256 * high) % 256 == low && (low + 256 * high) / 256 == high
  {
  }

  function FullScale(width: nat): (scale: nat)
    ensures scale >= 128
  {
    if width <= 1 then 128 else 256 * FullScale(width - 1)
  }

  predicate Fits(value: int, width: nat) {
    0 <= value + FullScale(width) && value < FullScale(width)
  }

  /** One signed sample: offset binary in one byte, two's complement in more. */
  function Unsigned(value: int, width: nat): nat
    requires Fits(value, width)
  {
    if width <= 1 then value + 128 else if value < 0 then value + 2 * FullScale(width) else value
  }

  lemma Powers()
    ensures Power256(1) == 256 && Power256(2) == 0x1_0000 && Power256(3) == 0x100_0000 && Power256(4) == 0x1_0000_0000
    ensures FullScale(2) == 0x8000 && FullScale(3) == 0x80_0000 && FullScale(4) == 0x8000_0000
  {
    assert Power256(2) == 0x1_0000 && FullScale(2) == 0x8000;
  }

  lemma FrameIsHeard(value: int, width: nat)
    requires width in {1, 2, 3, 4} && Fits(value, width)
    ensures Sample(Encoded(Unsigned(value, width), width)) == value as real / FullScale(width) as real
  {
    Powers();
    var unsigned := Unsigned(value, width);
    NumbersSurvive(unsigned, width);
    var frame := Encoded(unsigned, width);
    assert LittleEndian(frame) == unsigned && |frame| == width;
    if width > 1 {
      assert Signed(unsigned, FullScale(width)) == value;
    }
  }

  function Pcm(values: seq<int>, width: nat): Bytes
    requires forall k | 0 <= k < |values| :: Fits(values[k], width)
  {
    if values == [] then [] else Encoded(Unsigned(values[0], width), width) + Pcm(values[1..], width)
  }

  lemma {:induction false} PcmIsHeard(values: seq<int>, width: nat)
    requires width in {1, 2, 3, 4} && forall k | 0 <= k < |values| :: Fits(values[k], width)
    ensures Frames(|Pcm(values, width)|, |values|, width)
    ensures var samples := DecodePcm(Pcm(values, width), width);
            |samples| == |values| && forall k | 0 <= k < |values| ::
              samples[k] == values[k] as real / FullScale(width) as real
  {
    if values != [] {
      FrameIsHeard(values[0], width);
      PcmIsHeard(values[1..], width);
      DecodeFirst(Encoded(Unsigned(values[0], width), width), Pcm(values[1..], width), width);
    }
  }

  // ---- chunks

  /** A chunk, padded to an even length. */
  function ChunkBytes(name: Bytes, payload: Bytes): Bytes {
    name + Encoded(|payload|, 4) + payload + (if |payload| % 2 == 0 then [] else [0])
  }

  function FormatPayload(f: Format): Bytes {
    Encoded(1, 2) + Encoded(1, 2) + Encoded(f.rate, 4) + Encoded(f.rate * f.width, 4) + Encoded(f.width, 2)
      + Encoded(8 * f.width, 2)
  }

  /** The chunk of a format. Writers may append fields of their own. */
  function FormatChunk(f: Format, extra: Bytes): Bytes {
    ChunkBytes(FMT, FormatPayload(f) + extra)
  }

  predicate OtherChunk(chunk: (Bytes, Bytes)) {
    |chunk.0| == 4 && chunk.0 != FMT && chunk.0 != DATA
  }

  /** Chunks other than format and audio, in front of the rest of a file. */
  function Others(others: Chunks, tail: Bytes): Bytes {
    if others == [] then tail else ChunkBytes(others[0].0, others[0].1) + Others(others[1..], tail)
  }

  function SizeOf(others: Chunks): nat {
    if others == [] then 0 else |ChunkBytes(others[0].0, others[0].1)| + SizeOf(others[1..])
  }

  function AudioChunk(pcm: Bytes, declared: bool): Bytes {
    DATA + Encoded(if declared then |pcm| else UNKNOWN_LENGTH, 4) + pcm
  }

  /** A file: its format, other chunks around it, and the audio, its length declared or left unknown. */
  function File(size: nat, before: Chunks, f: Format, extra: Bytes, after: Chunks, pcm: Bytes, declared: bool): Bytes {
    RIFF + Encoded(size, 4) + WAVE + FileChunks(before, f, extra, after, pcm, declared)
  }

  function FileChunks(before: Chunks, f: Format, extra: Bytes, after: Chunks, pcm: Bytes, declared: bool): Bytes {
    Others(before, FormatChunk(f, extra) + Others(after, AudioChunk(pcm, declared)))
  }

  // ---- the parser on what was written

  lemma ReadsName(name: Bytes, payload: Bytes, tail: Bytes)
    requires |name| == 4 && |payload| <= MAX_HEADER_BYTES
    ensures var rest, whole := ChunkBytes(name, payload) + tail, |ChunkBytes(name, payload)|;
      && whole == 8 + |payload| + |payload| % 2 && |rest| == whole + |tail|
      && rest[..4] == name && LittleEndian(rest[4..8]) == |payload|
      && rest[8..8 + |payload|] == payload && rest[whole..] == tail
  {
    var rest := ChunkBytes(name, payload) + tail;
    assert rest[4..8] == Encoded(|payload|, 4);
    Powers();
    NumbersSurvive(|payload|, 4);
  }

  lemma StepOver(rest: Bytes, header: nat, format: Option<Format>, size: nat, known: Option<Format>)
    requires format.Some? ==> ValidFormat(format.value)
    requires FirstChunk(rest, header, format) == Skip(size, known)
    ensures ParseChunks(rest, header, format) == ParseChunks(rest[size..], header + size, known)
  {
    hide FirstChunk;
  }

  lemma OtherIsSkipped(other: (Bytes, Bytes), tail: Bytes, header: nat, format: Option<Format>)
    requires OtherChunk(other) && header + |ChunkBytes(other.0, other.1)| <= MAX_HEADER_BYTES
    requires format.Some? ==> ValidFormat(format.value)
    ensures var whole := ChunkBytes(other.0, other.1);
            ParseChunks(whole + tail, header, format) == ParseChunks(tail, header + |whole|, format)
  {
    hide ParseChunks;
    ReadsName(other.0, other.1, tail);
    var whole := ChunkBytes(other.0, other.1);
    StepOver(whole + tail, header, format, |whole|, format);
  }

  lemma {:induction false} OthersAreSkipped(others: Chunks, tail: Bytes, header: nat, format: Option<Format>)
    requires forall k | 0 <= k < |others| :: OtherChunk(others[k])
    requires header + SizeOf(others) <= MAX_HEADER_BYTES
    requires format.Some? ==> ValidFormat(format.value)
    ensures ParseChunks(Others(others, tail), header, format) == ParseChunks(tail, header + SizeOf(others), format)
    decreases |others|
  {
    hide ParseChunks;
    if others != [] {
      OtherIsSkipped(others[0], Others(others[1..], tail), header, format);
      OthersAreSkipped(others[1..], tail, header + |ChunkBytes(others[0].0, others[0].1)|, format);
    }
  }

  lemma SixFields(a: Bytes, b: Bytes, c: Bytes, d: Bytes, e: Bytes, g: Bytes, extra: Bytes)
    requires |a| == |b| == |e| == |g| == 2 && |c| == |d| == 4
    ensures var all := a + b + c + d + e + g + extra;
      all[0..2] == a && all[2..4] == b && all[4..8] == c && all[12..14] == e && all[14..16] == g
  {
  }

  lemma FormatSurvives(f: Format, extra: Bytes)
    requires ValidFormat(f)
    ensures |FormatPayload(f)| == 16 && ReadFormat(FormatPayload(f) + extra) == Ok(f)
  {
    hide Encoded, LittleEndian;
    SixFields(Encoded(1, 2), Encoded(1, 2), Encoded(f.rate, 4), Encoded(f.rate * f.width, 4), Encoded(f.width, 2),
      Encoded(8 * f.width, 2), extra);
    Powers();
    NumbersSurvive(1, 2);
    NumbersSurvive(f.rate, 4);
    NumbersSurvive(f.width, 2);
    NumbersSurvive(8 * f.width, 2);
  }

  /** The first fields of a payload: everything of a format but the bytes per second, which are not looked at. */
  function Fields(payload: Bytes): Bytes
    requires |payload| >= 16
  {
    payload[..8] + payload[12..16]
  }

  /** A payload is read as a format exactly if it begins as a writer writes that format. */
  lemma FormatsAreRead(payload: Bytes, f: Format)
    ensures ReadFormat(payload) == Ok(f) <==>
      ValidFormat(f) && |payload| >= 16 && Fields(payload) == Fields(FormatPayload(f))
  {
    if |payload| >= 16 && ValidFormat(f) {
      FormatSurvives(f, []);
      FieldsDecide(payload, FormatPayload(f) + []);
      if ReadFormat(payload) == Ok(f) {
        SameFields(payload, FormatPayload(f) + []);
      }
    }
  }

  lemma FieldsDecide(a: Bytes, b: Bytes)
    requires |a| >= 16 && |b| >= 16
    ensures Fields(a) == Fields(b) ==> ReadFormat(a) == ReadFormat(b)
  {
    FieldsAre(a);
    FieldsAre(b);
  }

  lemma FieldsAre(a: Bytes)
    requires |a| >= 16
    ensures var fields := Fields(a);
      && a[0..2] == fields[0..2] && a[2..4] == fields[2..4] && a[4..8] == fields[4..8]
      && a[12..14] == fields[8..10] && a[14..16] == fields[10..12]
  {
    assert Fields(a)[8..12] == a[12..16];
    assert a[12..14] == a[12..16][..2] && a[14..16] == a[12..16][2..];
    assert Fields(a)[8..10] == Fields(a)[8..12][..2] && Fields(a)[10..12] == Fields(a)[8..12][2..];
  }

  lemma SameFields(a: Bytes, b: Bytes)
    requires |a| >= 16 && |b| >= 16 && ReadFormat(a).Ok? && ReadFormat(a) == ReadFormat(b)
    ensures Fields(a) == Fields(b)
  {
    SameNumbers(a[0..2], b[0..2]);
    SameNumbers(a[2..4], b[2..4]);
    SameNumbers(a[4..8], b[4..8]);
    SameNumbers(a[12..14], b[12..14]);
    SameNumbers(a[14..16], b[14..16]);
    assert Fields(a) == a[0..2] + a[2..4] + a[4..8] + a[12..14] + a[14..16];
    assert Fields(b) == b[0..2] + b[2..4] + b[4..8] + b[12..14] + b[14..16];
  }

  lemma SameNumbers(a: Bytes, b: Bytes)
    requires |a| == |b|
    ensures LittleEndian(a) == LittleEndian(b) ==> a == b
  {
    BytesSurvive(a);
    BytesSurvive(b);
  }

  lemma FormatIsRead(f: Format, extra: Bytes, tail: Bytes, header: nat)
    requires ValidFormat(f) && header + |FormatChunk(f, extra)| <= MAX_HEADER_BYTES
    ensures ParseChunks(FormatChunk(f, extra) + tail, header, None) ==
      ParseChunks(tail, header + |FormatChunk(f, extra)|, Some(f))
  {
    hide ParseChunks;
    FormatSurvives(f, extra);
    ReadsName(FMT, FormatPayload(f) + extra, tail);
    StepOver(FormatChunk(f, extra) + tail, header, None, |FormatChunk(f, extra)|, Some(f));
  }

  lemma AudioIsFound(pcm: Bytes, declared: bool, header: nat, f: Format)
    requires ValidFormat(f) && |pcm| < UNKNOWN_LENGTH
    ensures ParseChunks(AudioChunk(pcm, declared), header, Some(f)) ==
      Ok(Body(f, if declared then Some(|pcm|) else None, pcm))
  {
    var rest := AudioChunk(pcm, declared);
    assert rest[..4] == DATA && rest[4..8] == Encoded(if declared then |pcm| else UNKNOWN_LENGTH, 4)
      && rest[8..] == pcm;
    Powers();
    NumbersSurvive(if declared then |pcm| else UNKNOWN_LENGTH, 4);
  }

  lemma FormatAndRestAreRead(header: nat, f: Format, extra: Bytes, after: Chunks, pcm: Bytes, declared: bool)
    requires ValidFormat(f) && |pcm| < UNKNOWN_LENGTH
    requires forall k | 0 <= k < |after| :: OtherChunk(after[k])
    requires header + |FormatChunk(f, extra)| + SizeOf(after) <= MAX_HEADER_BYTES
    ensures ParseChunks(FormatChunk(f, extra) + Others(after, AudioChunk(pcm, declared)), header, None)
         == Ok(Body(f, if declared then Some(|pcm|) else None, pcm))
  {
    hide ParseChunks, FormatChunk, Others, AudioChunk, SizeOf;
    var known := header + |FormatChunk(f, extra)|;
    FormatIsRead(f, extra, Others(after, AudioChunk(pcm, declared)), header);
    OthersAreSkipped(after, AudioChunk(pcm, declared), known, Some(f));
    AudioIsFound(pcm, declared, known + SizeOf(after), f);
  }

  lemma ChunksAreRead(before: Chunks, f: Format, extra: Bytes, after: Chunks, pcm: Bytes, declared: bool)
    requires ValidFormat(f) && |pcm| < UNKNOWN_LENGTH
    requires forall k | 0 <= k < |before| :: OtherChunk(before[k])
    requires forall k | 0 <= k < |after| :: OtherChunk(after[k])
    requires 12 + SizeOf(before) + |FormatChunk(f, extra)| + SizeOf(after) <= MAX_HEADER_BYTES
    ensures ParseChunks(FileChunks(before, f, extra, after, pcm, declared), 12, None) ==
      Ok(Body(f, if declared then Some(|pcm|) else None, pcm))
  {
    hide ParseChunks, FormatChunk, Others, AudioChunk, SizeOf;
    FormatAndRestAreRead(12 + SizeOf(before), f, extra, after, pcm, declared);
    OthersAreSkipped(before, FormatChunk(f, extra) + Others(after, AudioChunk(pcm, declared)), 12, None);
  }

  lemma MagicIsRead(size: nat, rest: Bytes)
    ensures ParseHeader(RIFF + Encoded(size, 4) + WAVE + rest) == ParseChunks(rest, 12, None)
  {
    var file := RIFF + Encoded(size, 4) + WAVE + rest;
    assert file[..4] == RIFF && file[8..12] == WAVE && file[12..] == rest;
  }

  lemma {:induction false} SizeOfFrames(n: nat, count: nat, width: nat)
    requires width in {1, 2, 3, 4} && Frames(n, count, width)
    ensures count <= n <= 4 * count
  {
    if count > 0 {
      SizeOfFrames(n - width, count - 1, width);
    }
  }

  /** A file that a writer can write: a small header, and between one frame and two minutes of audio. */
  predicate Writable(before: Chunks, f: Format, extra: Bytes, after: Chunks, values: seq<int>) {
    && 8_000 <= f.rate <= 96_000 && f.width in {1, 2, 3, 4} && 0 < |values| <= f.rate * 120
    && (forall k | 0 <= k < |values| :: Fits(values[k], f.width))
    && (forall k | 0 <= k < |before| :: OtherChunk(before[k]))
    && (forall k | 0 <= k < |after| :: OtherChunk(after[k]))
    && 12 + SizeOf(before) + |FormatChunk(f, extra)| + SizeOf(after) <= 65_536
  }

  predicate AsWritten(samples: Samples, values: seq<int>, width: nat) {
    && |samples| == |values|
    && forall k | 0 <= k < |values| :: samples[k] == values[k] as real / FullScale(width) as real
  }

  /** The whole-string parser reads every writable file as written, and needs all of it. */
  lemma FileParses(size: nat, before: Chunks, f: Format, extra: Bytes, after: Chunks, values: seq<int>, declared: bool)
    requires Writable(before, f, extra, after, values)
    ensures var file := File(size, before, f, extra, after, Pcm(values, f.width), declared);
      && ParseWav(file).Ok? && ParseWav(file).value.rate == f.rate
      && AsWritten(ParseWav(file).value.samples, values, f.width)
      && ParseHeader(file).Ok? && Needed(file, ParseHeader(file).value) == |file|
  {
    hide ParseHeader, ParseChunks, FileChunks, DecodePcm, Pcm, Fits, OtherChunk, Encoded, FullScale, SizeOf, Frames,
         FormatChunk;
    var pcm := Pcm(values, f.width);
    PcmIsHeard(values, f.width);
    SizeOfFrames(|pcm|, |values|, f.width);
    FramesDivide(|pcm|, |values|, 0, f.width);
    ChunksAreRead(before, f, extra, after, pcm, declared);
    MagicIsRead(size, FileChunks(before, f, extra, after, pcm, declared));
  }

  /** However it is cut into reads, a writable file is heard as written exactly if it is no larger
      than the program accepts; a larger one is refused for its size. */
  method HearFile(arriving: seq<Bytes>, size: nat, before: Chunks, f: Format, extra: Bytes, after: Chunks,
      values: seq<int>, declared: bool)
    returns (heard: Samples, rates: seq<nat>, end: End)
    requires Writable(before, f, extra, after, values)
    requires forall k | 0 <= k < |arriving| :: arriving[k] != []
    requires Flatten(arriving) == File(size, before, f, extra, after, Pcm(values, f.width), declared)
    ensures end == if |Flatten(arriving)| <= 16 * 1024 * 1024 then Finished else Failed(OversizedAudio)
    ensures end == Finished ==>
      AsWritten(heard, values, f.width) && rates != [] && forall k | 0 <= k < |rates| :: rates[k] == f.rate
  {
    hide ParseWav, ParseHeader, File, Pcm, AsWritten, Needed;
    FileParses(size, before, f, extra, after, values, declared);
    var looks;
    heard, rates, end, looks := StreamWav(arriving, None);
    RateOfAudio(Flatten(arriving));
  }

  lemma RateOfAudio(all: Bytes)
    ensures ParseWav(all).Ok? ==> ParseHeader(all).Ok? && ParseWav(all).value.rate == ParseHeader(all).value.format.rate
  {
    hide ParseHeader;
  }
}

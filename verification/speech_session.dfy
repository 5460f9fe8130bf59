/** Speaking a reply while it is written: `StreamingSpeechSession` in ron/voice/speech.py.

    Tokens of a reply are fed in, and the texts to be spoken come out under budgets of
    characters, requests, and characters a request. What the session says is first given as a
    function of what it was fed; the class keeps to it at any moment it is not cancelled.
 */
module SpeechSession {
  import opened Common
  import opened SpeechText

  /** The settings a session depends on. No cloud limit means the local voice. */
  datatype Voice = Voice(cleaner: Cleaner, maximum: nat, chunkSetting: nat, cloudLimit: Option<nat>)

  predicate ValidVoice(v: Voice) {
    && 120 <= v.maximum <= 4_000 && 80 <= v.chunkSetting <= 500
    && (v.cloudLimit.Some? ==> 1 <= v.cloudLimit.value <= 6)
  }

  /** `cloud_chunk_characters`. */
  function CloudChunk(v: Voice): (n: nat)
    ensures 120 <= n <= 190 && (120 <= v.chunkSetting <= 190 ==> n == v.chunkSetting)
  {
    if v.chunkSetting < 120 then 120 else if v.chunkSetting > 190 then 190 else v.chunkSetting
  }

  function Min(a: nat, b: nat): nat {
    if a <= b then a else b
  }

  /** The limit of the formatter all sessions share. */
  function FormatterLimit(v: Voice): (n: nat)
    requires ValidVoice(v)
    ensures 120 <= n <= v.maximum
  {
    if v.cloudLimit.None? then v.maximum else Min(v.maximum, CloudChunk(v) * v.cloudLimit.value)
  }

  function Total(texts: seq<string>): nat {
    if texts == [] then 0 else Total(texts[..|texts| - 1]) + |texts[|texts| - 1]|
  }

  // ---- what is said, as a function of what was said before

  function HardLimit(v: Voice, said: seq<string>): nat {
    var remaining := if Total(said) <= v.maximum then v.maximum - Total(said) else 0;
    if v.cloudLimit.None? then remaining else Min(remaining, CloudChunk(v))
  }

  /** The text a piece is spoken as, or the empty string. */
  function SpokenAs(v: Voice, hardLimit: nat, text: string): string
    requires ValidVoice(v) && hardLimit <= v.maximum
  {
    var spoken := Prepare(v.cleaner, FormatterLimit(v), text);
    var fitted :=
      if |spoken| <= hardLimit then spoken
      else if hardLimit < 120 then ""
      else Prepare(v.cleaner, hardLimit, spoken);
    if v.cloudLimit.None? then fitted else RightStrip(fitted[..Min(MAX_REQUEST_CHARACTERS, |fitted|)])
  }

  /** `_emit`. */
  function Emit(v: Voice, said: seq<string>, text: string): seq<string>
    requires ValidVoice(v)
  {
    if v.cloudLimit.Some? && |said| >= v.cloudLimit.value then said
    else if Total(said) >= v.maximum then said
    else
      var spoken := SpokenAs(v, HardLimit(v, said), text);
      if spoken == "" then said else said + [spoken]
  }

  function EmitAll(v: Voice, said: seq<string>, texts: seq<string>): seq<string>
    requires ValidVoice(v)
    decreases |texts|
  {
    if texts == [] then said else EmitAll(v, Emit(v, said, texts[0]), texts[1..])
  }

  /** Where the first sentence ends: white space right behind a full stop, question or exclamation mark. */
  function SentenceEnd(text: string): (at: Option<nat>)
    ensures at.Some? ==> 0 < at.value < |text| && EndsSentence(text, at.value)
    ensures forall k | EndsSentence(text, k) :: at.Some? && at.value <= k
  {
    if |text| < 2 then None
    else if text[0] in ".?!" && IsSpace(text[1]) then Some(1)
    else
      assert forall k | EndsSentence(text, k) && k != 1 :: EndsSentence(text[1..], k - 1);
      match SentenceEnd(text[1..])
      case None => None
      case Some(k) => Some(k + 1)
  }

  predicate EndsSentence(text: string, k: int) {
    0 < k < |text| && text[k - 1] in ".?!" && IsSpace(text[k])
  }

  /** The first sentence of the text kept, and what is behind the white space after it. */
  function Sentence(pending: string): string
    requires SentenceEnd(pending).Some?
  {
    Strip(pending[..SentenceEnd(pending).value])
  }

  function AfterSentence(pending: string): (rest: string)
    requires SentenceEnd(pending).Some?
    ensures |rest| < |pending|
  {
    LeftStrip(pending[SentenceEnd(pending).value..])
  }

  /** The first sentence is complete and leaves a request for the end of the reply. */
  predicate Ready(v: Voice, said: seq<string>, pending: string)
    requires ValidVoice(v) && v.cloudLimit.Some?
  {
    && |said| < v.cloudLimit.value - 1 && SentenceEnd(pending).Some?
    && (Sentence(pending) == "" || RequestsNeeded(v, Sentence(pending)) <= v.cloudLimit.value - 1 - |said|)
  }

  function SaySentence(v: Voice, said: seq<string>, sentence: string): seq<string>
    requires ValidVoice(v) && v.cloudLimit.Some? && |said| < v.cloudLimit.value - 1
  {
    if sentence == "" then said
    else EmitAll(v, said, Requests(v, v.cloudLimit.value - 1 - |said|, FormatterLimit(v), sentence))
  }

  /** `_drain_cloud_sentences`: what has been said, and what is kept for later. */
  function Drain(v: Voice, said: seq<string>, pending: string): (state: (seq<string>, string))
    requires ValidVoice(v) && v.cloudLimit.Some?
    ensures |state.1| <= |pending|
    decreases |pending|
  {
    if Ready(v, said, pending) then Drain(v, SaySentence(v, said, Sentence(pending)), AfterSentence(pending))
    else (said, pending)
  }

  function RequestsNeeded(v: Voice, sentence: string): (n: nat)
    requires ValidVoice(v)
  {
    var n := (|Prepare(v.cleaner, FormatterLimit(v), sentence)| + CloudChunk(v) - 1) / CloudChunk(v);
    if n < 1 then 1 else n
  }

  /** `prepare_cloud_chunks` with the session's chunk size. */
  function Requests(v: Voice, slots: nat, limit: nat, text: string): (chunks: seq<string>)
    requires 1 <= slots <= 6 && 120 <= limit <= 4_000
    ensures |chunks| <= slots
  {
    var budget := Min(limit, CloudChunk(v) * slots);
    PrepareFits(v.cleaner, budget, text);
    ChunksFit(v.cleaner, CloudChunk(v), slots, Prepare(v.cleaner, budget, text));
    CloudChunks(v.cleaner, CloudChunk(v), slots, Prepare(v.cleaner, budget, text))
  }

  /** The limit of the formatter for what is left at the end. */
  function RemainderLimit(v: Voice, said: seq<string>): (n: nat)
    requires ValidVoice(v) && v.cloudLimit.Some? && |said| < v.cloudLimit.value && Total(said) + 120 <= v.maximum
    ensures 120 <= n <= v.maximum - Total(said) && n >= Min(v.maximum - Total(said), CloudChunk(v))
  {
    var available := v.cloudLimit.value - |said|;
    OneOrMore(available, CloudChunk(v));
    Min(v.maximum - Total(said), available * CloudChunk(v))
  }

  /** `_emit_cloud_remainder`. */
  function EmitRemainder(v: Voice, said: seq<string>, pending: string): seq<string>
    requires ValidVoice(v) && v.cloudLimit.Some?
  {
    if Strip(pending) == "" || |said| >= v.cloudLimit.value || Total(said) + 120 > v.maximum then said
    else
      EmitAll(v, said, Requests(v, v.cloudLimit.value - |said|, RemainderLimit(v, said), pending))
  }

  lemma OneOrMore(n: nat, m: nat)
    requires n >= 1
    ensures n * m >= m
  {
  }

  /** The limit of the buffer. */
  function MaxPending(v: Voice): nat {
    if v.maximum * 2 > 1_000 then v.maximum * 2 else 1_000
  }

  /** What the buffer holds of a text; the rest is lost. */
  function Held(v: Voice, text: string): (held: string)
    ensures held <= text && |held| == Min(MaxPending(v), |text|)
  {
    text[..Min(MaxPending(v), |text|)]
  }

  /** A cloud session before the end of the reply: every token is cut to the buffer and drained. */
  function FeedAll(v: Voice, said: seq<string>, pending: string, tokens: seq<string>): (seq<string>, string)
    requires ValidVoice(v) && v.cloudLimit.Some?
    decreases |tokens|
  {
    if tokens == [] then (said, pending)
    else if tokens[0] == "" then FeedAll(v, said, pending, tokens[1..])
    else
      var (now, kept) := Drain(v, said, Held(v, pending + tokens[0]));
      FeedAll(v, now, kept, tokens[1..])
  }

  /** What of the tokens gets into the buffer. */
  function Survives(v: Voice, said: seq<string>, pending: string, tokens: seq<string>): string
    requires ValidVoice(v) && v.cloudLimit.Some? && |pending| <= MaxPending(v)
    decreases |tokens|
  {
    if tokens == [] then ""
    else if tokens[0] == "" then Survives(v, said, pending, tokens[1..])
    else
      var held := Held(v, pending + tokens[0]);
      var (now, kept) := Drain(v, said, held);
      held[|pending|..] + Survives(v, now, kept, tokens[1..])
  }

  /** No token finds the buffer too full. */
  predicate NeverOverflows(v: Voice, said: seq<string>, pending: string, tokens: seq<string>)
    requires ValidVoice(v) && v.cloudLimit.Some?
    decreases |tokens|
  {
    tokens == [] ||
    if tokens[0] == "" then NeverOverflows(v, said, pending, tokens[1..])
    else
      var (now, kept) := Drain(v, said, Held(v, pending + tokens[0]));
      |pending + tokens[0]| <= MaxPending(v) && NeverOverflows(v, now, kept, tokens[1..])
  }

  function Finished(v: Voice, state: (seq<string>, string)): seq<string>
    requires ValidVoice(v) && v.cloudLimit.Some?
  {
    var (said, pending) := Drain(v, state.0, state.1);
    EmitRemainder(v, said, pending)
  }

  // ---- budgets

  /** Everything said so far is within the budgets. */
  ghost predicate Within(v: Voice, said: seq<string>) {
    && Total(said) <= v.maximum
    && (forall k | 0 <= k < |said| :: said[k] != "")
    && (v.cloudLimit.Some? ==> |said| <= v.cloudLimit.value && forall k | 0 <= k < |said| :: |said[k]| <= CloudChunk(v))
  }

  lemma SpokenFits(v: Voice, hardLimit: nat, text: string)
    requires ValidVoice(v) && hardLimit <= v.maximum
    ensures |SpokenAs(v, hardLimit, text)| <= hardLimit
  {
    hide Prepare;
    var spoken := Prepare(v.cleaner, FormatterLimit(v), text);
    if |spoken| > hardLimit >= 120 {
      PrepareFits(v.cleaner, hardLimit, spoken);
    }
  }

  lemma EmitKeepsBudgets(v: Voice, said: seq<string>, text: string)
    requires ValidVoice(v) && Within(v, said)
    ensures Within(v, Emit(v, said, text))
    ensures said <= Emit(v, said, text) && |Emit(v, said, text)| <= |said| + 1
  {
    hide SpokenAs, Within;
    SpokenFits(v, HardLimit(v, said), text);
    OneMoreWithin(v, said, SpokenAs(v, HardLimit(v, said), text));
  }

  lemma OneMoreWithin(v: Voice, said: seq<string>, spoken: string)
    requires Within(v, said) && spoken != "" ==> |spoken| <= HardLimit(v, said)
    ensures Within(v, said) && spoken != "" && (v.cloudLimit.Some? ==> |said| < v.cloudLimit.value) ==>
      Within(v, said + [spoken])
  {
    assert (said + [spoken])[..|said|] == said;
  }

  lemma EmitAllFrom(v: Voice, said: seq<string>, texts: seq<string>, i: nat)
    requires ValidVoice(v) && i <= |texts|
    ensures EmitAll(v, said, texts[i..]) ==
      if i == |texts| then said else EmitAll(v, Emit(v, said, texts[i]), texts[i + 1..])
  {
    hide Emit;
    if i < |texts| {
      assert texts[i..][0] == texts[i] && texts[i..][1..] == texts[i + 1..];
    }
  }

  lemma {:induction false} EmitAllKeepsBudgets(v: Voice, said: seq<string>, texts: seq<string>)
    requires ValidVoice(v) && Within(v, said)
    ensures Within(v, EmitAll(v, said, texts))
    ensures said <= EmitAll(v, said, texts) && |EmitAll(v, said, texts)| <= |said| + |texts|
    decreases |texts|
  {
    hide Within, Emit;
    if texts != [] {
      EmitKeepsBudgets(v, said, texts[0]);
      EmitAllKeepsBudgets(v, Emit(v, said, texts[0]), texts[1..]);
    }
  }

  /** Draining leaves a request for the end of the reply. */
  lemma {:induction false} DrainKeepsBudgets(v: Voice, said: seq<string>, pending: string)
    requires ValidVoice(v) && v.cloudLimit.Some? && Within(v, said) && |said| < v.cloudLimit.value
    ensures var (now, kept) := Drain(v, said, pending);
      Within(v, now) && said <= now && |now| < v.cloudLimit.value && |kept| <= |pending|
    decreases |pending|
  {
    hide Within, RequestsNeeded, SaySentence, AfterSentence, Sentence, SentenceEnd;
    if Ready(v, said, pending) {
      SayKeepsBudgets(v, said, pending);
      DrainKeepsBudgets(v, SaySentence(v, said, Sentence(pending)), AfterSentence(pending));
    }
  }

  lemma SayKeepsBudgets(v: Voice, said: seq<string>, pending: string)
    requires ValidVoice(v) && v.cloudLimit.Some? && Within(v, said) && Ready(v, said, pending)
    ensures |said| < v.cloudLimit.value - 1
    ensures var now := SaySentence(v, said, Sentence(pending));
      Within(v, now) && said <= now && |now| < v.cloudLimit.value
  {
    hide Within, EmitAll, Requests, RequestsNeeded, Sentence;
    if Sentence(pending) != "" {
      EmitAllKeepsBudgets(v, said, Requests(v, v.cloudLimit.value - 1 - |said|, FormatterLimit(v), Sentence(pending)));
    }
  }

  lemma RemainderKeepsBudgets(v: Voice, said: seq<string>, pending: string)
    requires ValidVoice(v) && v.cloudLimit.Some? && Within(v, said)
    ensures Within(v, EmitRemainder(v, said, pending)) && said <= EmitRemainder(v, said, pending)
  {
    hide Within, EmitAll, Requests;
    if Strip(pending) != "" && |said| < v.cloudLimit.value && Total(said) + 120 <= v.maximum {
      EmitAllKeepsBudgets(v, said, Requests(v, v.cloudLimit.value - |said|, RemainderLimit(v, said), pending));
    }
  }

  // ---- draining early or late

  lemma {:induction false} LeftStripAppend(a: string, b: string)
    ensures LeftStrip(LeftStrip(a) + b) == LeftStrip(a + b)
  {
    hide IsSpace;
    if a != "" && IsSpace(a[0]) {
      LeftStripAppend(a[1..], b);
      assert (a + b)[1..] == a[1..] + b;
    }
  }

  lemma LeftStripTwice(a: string)
    ensures LeftStrip(LeftStrip(a)) == LeftStrip(a)
  {
  }

  /** Equal up to white space at the front of what is kept. */
  predicate Alike(a: (seq<string>, string), b: (seq<string>, string)) {
    a.0 == b.0 && LeftStrip(a.1) == LeftStrip(b.1)
  }

  lemma MarkIsNoSpace(c: char)
    requires c in ".?!"
    ensures !IsSpace(c)
  {
  }

  lemma SpaceInFront(text: string)
    requires text != "" && IsSpace(text[0])
    ensures SentenceEnd(text).Some? <==> SentenceEnd(text[1..]).Some?
    ensures SentenceEnd(text).Some? ==>
      Sentence(text) == Sentence(text[1..]) && AfterSentence(text) == AfterSentence(text[1..])
  {
    hide IsSpace;
    if text[0] in ".?!" {
      MarkIsNoSpace(text[0]);
    }
    if SentenceEnd(text).Some? {
      var k := SentenceEnd(text).value;
      assert text[..k][0] == text[0] && text[..k][1..] == text[1..][..k - 1];
      assert text[k..] == text[1..][k - 1..];
    }
  }

  lemma DrainPastSpace(v: Voice, said: seq<string>, pending: string)
    requires ValidVoice(v) && v.cloudLimit.Some? && pending != "" && IsSpace(pending[0])
    ensures Alike(Drain(v, said, pending), Drain(v, said, pending[1..]))
  {
    hide SentenceEnd, SaySentence, RequestsNeeded, Sentence, AfterSentence, IsSpace;
    SpaceInFront(pending);
    assert LeftStrip(pending) == LeftStrip(pending[1..]);
  }

  lemma {:induction false} DrainFromStripped(v: Voice, said: seq<string>, pending: string)
    requires ValidVoice(v) && v.cloudLimit.Some?
    ensures Alike(Drain(v, said, pending), Drain(v, said, LeftStrip(pending)))
  {
    hide Drain;
    if pending != "" && IsSpace(pending[0]) {
      DrainPastSpace(v, said, pending);
      DrainFromStripped(v, said, pending[1..]);
    }
  }

  lemma DrainAlike(v: Voice, said: seq<string>, a: string, b: string)
    requires ValidVoice(v) && v.cloudLimit.Some? && LeftStrip(a) == LeftStrip(b)
    ensures Alike(Drain(v, said, a), Drain(v, said, b))
  {
    hide Drain;
    DrainFromStripped(v, said, a);
    DrainFromStripped(v, said, b);
  }

  lemma SentenceEndStays(text: string, more: string)
    requires SentenceEnd(text).Some?
    ensures SentenceEnd(text + more) == SentenceEnd(text)
  {
    hide SentenceEnd, IsSpace;
    var k := SentenceEnd(text).value;
    assert EndsSentence(text + more, k);
    var j := SentenceEnd(text + more).value;
    assert EndsSentence(text, j);
  }

  lemma SentenceStays(text: string, more: string)
    requires SentenceEnd(text).Some?
    ensures SentenceEnd(text + more) == SentenceEnd(text) && Sentence(text + more) == Sentence(text)
    ensures LeftStrip(AfterSentence(text + more)) == LeftStrip(AfterSentence(text) + more)
  {
    hide SentenceEnd, IsSpace, Strip, LeftStrip;
    SentenceEndStays(text, more);
    var k := SentenceEnd(text).value;
    assert (text + more)[..k] == text[..k] && (text + more)[k..] == text[k..] + more;
    LeftStripAppend(text[k..], more);
    LeftStripTwice(text[k..] + more);
  }

  /** Draining before more text arrives comes to the same as draining afterwards. */
  lemma {:induction false} DrainInTwoGoes(v: Voice, said: seq<string>, pending: string, more: string)
    requires ValidVoice(v) && v.cloudLimit.Some?
    ensures var (now, kept) := Drain(v, said, pending);
            Alike(Drain(v, now, kept + more), Drain(v, said, pending + more))
    decreases |pending|
  {
    hide SentenceEnd, SaySentence, RequestsNeeded, Sentence, AfterSentence, LeftStrip;
    if Ready(v, said, pending) {
      SentenceStays(pending, more);
      var now, rest := SaySentence(v, said, Sentence(pending)), AfterSentence(pending);
      DrainInTwoGoes(v, now, rest, more);
      DrainAlike(v, now, rest + more, AfterSentence(pending + more));
    }
  }

  lemma PrepareAlike(c: Cleaner, maximum: nat, a: string, b: string)
    requires 120 <= maximum <= 4_000 && Strip(a) == Strip(b)
    ensures Prepare(c, maximum, a) == Prepare(c, maximum, b)
  {
    hide Strip, Clipped;
  }

  lemma RequestsAlike(v: Voice, slots: nat, limit: nat, a: string, b: string)
    requires 1 <= slots <= 6 && 120 <= limit <= 4_000 && Strip(a) == Strip(b)
    ensures Requests(v, slots, limit, a) == Requests(v, slots, limit, b)
  {
    hide Prepare, Strip, CloudChunks;
    PrepareAlike(v.cleaner, Min(limit, CloudChunk(v) * slots), a, b);
  }

  lemma RemainderAlike(v: Voice, said: seq<string>, a: string, b: string)
    requires ValidVoice(v) && v.cloudLimit.Some? && LeftStrip(a) == LeftStrip(b)
    ensures EmitRemainder(v, said, a) == EmitRemainder(v, said, b)
  {
    hide EmitAll, Requests, LeftStrip, RemainderLimit;
    assert Strip(a) == Strip(b);
    if |said| < v.cloudLimit.value && Total(said) + 120 <= v.maximum {
      RequestsAlike(v, v.cloudLimit.value - |said|, RemainderLimit(v, said), a, b);
    }
  }

  lemma FinishInTwoGoes(v: Voice, said: seq<string>, pending: string, more: string)
    requires ValidVoice(v) && v.cloudLimit.Some?
    ensures var (now, kept) := Drain(v, said, pending);
            Finished(v, (now, kept + more)) == Finished(v, (said, pending + more))
  {
    hide Drain, EmitRemainder, LeftStrip, IsSpace;
    var (now, kept) := Drain(v, said, pending);
    DrainInTwoGoes(v, said, pending, more);
    RemainderAlike(v, Drain(v, now, kept + more).0, Drain(v, now, kept + more).1, Drain(v, said, pending + more).1);
  }

  // ---- the cuts between tokens

  /** Whatever the tokens, the session says what would be said of the text that got into the buffer. */
  lemma {:induction false} WhatSurvivesIsSaid(v: Voice, said: seq<string>, pending: string, tokens: seq<string>)
    requires ValidVoice(v) && v.cloudLimit.Some? && |pending| <= MaxPending(v)
    ensures Finished(v, FeedAll(v, said, pending, tokens)) ==
      Finished(v, (said, pending + Survives(v, said, pending, tokens)))
    decreases |tokens|
  {
    hide Drain, Finished;
    if tokens == [] {
      assert pending + "" == pending;
    } else if tokens[0] == "" {
      WhatSurvivesIsSaid(v, said, pending, tokens[1..]);
    } else {
      var held := Held(v, pending + tokens[0]);
      var (now, kept) := Drain(v, said, held);
      var later := Survives(v, now, kept, tokens[1..]);
      WhatSurvivesIsSaid(v, now, kept, tokens[1..]);
      FinishInTwoGoes(v, said, held, later);
      assert held[..|pending|] == pending;
      assert held + later == pending + (held[|pending|..] + later);
    }
  }

  /** All of a reply gets into the buffer exactly if no token overflows it. */
  lemma {:induction false} AllSurvivesExactly(v: Voice, said: seq<string>, pending: string, tokens: seq<string>)
    requires ValidVoice(v) && v.cloudLimit.Some? && |pending| <= MaxPending(v)
    ensures |Survives(v, said, pending, tokens)| <= |Flatten(tokens)|
    ensures NeverOverflows(v, said, pending, tokens) <==> Survives(v, said, pending, tokens) == Flatten(tokens)
    decreases |tokens|
  {
    hide Drain;
    if tokens == [] {
    } else if tokens[0] == "" {
      AllSurvivesExactly(v, said, pending, tokens[1..]);
      assert Flatten(tokens) == Flatten(tokens[1..]);
    } else {
      var held := Held(v, pending + tokens[0]);
      var (now, kept) := Drain(v, said, held);
      AllSurvivesExactly(v, now, kept, tokens[1..]);
      if |pending + tokens[0]| <= MaxPending(v) {
        assert held == pending + tokens[0] && held[|pending|..] == tokens[0];
        SameAfter(tokens[0], Survives(v, now, kept, tokens[1..]), Flatten(tokens[1..]));
      }
    }
  }

  lemma SameAfter(front: string, a: string, b: string)
    ensures front + a == front + b <==> a == b
  {
    assert (front + a)[|front|..] == a && (front + b)[|front|..] == b;
  }

  /** However a reply is cut into tokens that do not overflow the buffer, the session says the same. */
  lemma TokensMakeNoDifference(v: Voice, said: seq<string>, pending: string, tokens: seq<string>)
    requires ValidVoice(v) && v.cloudLimit.Some? && |pending| <= MaxPending(v)
    requires NeverOverflows(v, said, pending, tokens)
    ensures Finished(v, FeedAll(v, said, pending, tokens)) == Finished(v, (said, pending + Flatten(tokens)))
  {
    hide Finished, FeedAll, Survives, NeverOverflows;
    WhatSurvivesIsSaid(v, said, pending, tokens);
    AllSurvivesExactly(v, said, pending, tokens);
  }

  /** What fits the buffer never overflows it. */
  lemma {:induction false} ShortNeverOverflows(v: Voice, said: seq<string>, pending: string, tokens: seq<string>)
    requires ValidVoice(v) && v.cloudLimit.Some? && |pending| + |Flatten(tokens)| <= MaxPending(v)
    ensures NeverOverflows(v, said, pending, tokens)
    decreases |tokens|
  {
    hide Drain;
    if tokens != [] {
      var (now, kept) := Drain(v, said, Held(v, pending + tokens[0]));
      ShortNeverOverflows(v, now, kept, tokens[1..]);
      if tokens[0] == "" {
        ShortNeverOverflows(v, said, pending, tokens[1..]);
      }
    }
  }

  // ---- the local voice

  /** `_sentence_end.split`: complete sentences, and the part after the last. */
  function Split(text: string): (parts: (seq<string>, string))
    decreases |text|
  {
    if SentenceEnd(text).None? then ([], text)
    else
      var (later, last) := Split(AfterSentence(text));
      ([text[..SentenceEnd(text).value]] + later, last)
  }

  predicate IsSentence(part: string) {
    part != "" && part[|part| - 1] in ".?!" && SentenceEnd(part).None?
  }

  /** A text is these parts and the last, with nothing but white space taken out behind every part. */
  predicate CutsInto(text: string, parts: seq<string>, last: string)
    decreases |parts|
  {
    if parts == [] then text == last
    else
      && parts[0] <= text && LeftStrip(text[|parts[0]|..]) != text[|parts[0]|..]
      && CutsInto(LeftStrip(text[|parts[0]|..]), parts[1..], last)
  }

  /** Splitting loses nothing: the parts are the complete sentences, in order, and the last has none. */
  lemma {:induction false} SplitExactly(text: string)
    ensures var (parts, last) := Split(text);
      CutsInto(text, parts, last) && (forall k | 0 <= k < |parts| :: IsSentence(parts[k])) && SentenceEnd(last).None?
    decreases |text|
  {
    hide IsSpace, SentenceEnd;
    if SentenceEnd(text).Some? {
      var k := SentenceEnd(text).value;
      var part := text[..k];
      assert forall j | EndsSentence(part, j) :: EndsSentence(text, j);
      assert SentenceEnd(part).None?;
      assert text[k..][0] == text[k];
      SplitExactly(AfterSentence(text));
      var (later, last) := Split(AfterSentence(text));
      assert ([part] + later)[1..] == later;
    }
  }

  /** Where a long text without a sentence end is cut for the local voice: at the last space in the window
      that is not too early, and through the word if there is none. */
  function LocalCut(pending: string, target: nat): (cut: nat)
    requires 80 <= target <= |pending|
    ensures 40 <= cut <= target
    ensures forall k | target / 2 <= k <= target && k < |pending| && pending[k] == ' ' ::
      k <= cut < |pending| && pending[cut] == ' '
    ensures cut < target ==> pending[cut] == ' ' && cut >= target / 2
  {
    assert forall k | 0 <= k <= target && k < |pending| :: pending[..Min(target + 1, |pending|)][k] == pending[k];
    var space := LastSpace(pending[..Min(target + 1, |pending|)]);
    if space < 40 || space < target / 2 then target else space
  }

  function Local(v: Voice, said: seq<string>, text: string): (seq<string>, string)
    requires ValidVoice(v) && v.cloudLimit.None?
  {
    var (sentences, last) := Split(text);
    var now := EmitAll(v, said, sentences);
    if |last| < v.chunkSetting then (now, last)
    else
      var cut := LocalCut(last, v.chunkSetting);
      (Emit(v, now, last[..cut]), last[cut..])
  }

  // ---- the session

  class StreamingSpeechSession {
    const voice: Voice
    const interruptible: bool        // whether anybody may cancel the reply while it is spoken
    var pending: string
    var said: seq<string>            // the texts handed to the player
    var characters: nat
    var chunksEmitted: nat
    var hasContent: bool
    var closed: bool
    var cancelled: bool

    constructor (voice: Voice, interruptible: bool)
      requires ValidVoice(voice)
      ensures Valid() && this.voice == voice && this.interruptible == interruptible
      ensures said == [] && pending == "" && !closed && !cancelled
    {
      this.voice, this.interruptible := voice, interruptible;
      pending, said, characters, chunksEmitted := "", [], 0, 0;
      hasContent, closed, cancelled := false, false, false;
    }

    ghost predicate Counted()
      reads this
    {
      && ValidVoice(voice) && Within(voice, said)
      && characters == Total(said) && chunksEmitted == |said| && (hasContent <==> said != [])
    }

    /** Until it is finished, a cloud session has a request left. */
    ghost predicate Valid()
      reads this
    {
      && Counted()
      && (voice.cloudLimit.Some? && !closed ==> |said| < voice.cloudLimit.value && |pending| <= MaxPending(voice))
      && (closed ==> pending == "")
    }

    /** `_emit`. The session may be cancelled at any moment; once it is, nothing more is said. */
    method EmitText(text: string)
      requires Counted()
      modifies this`said, this`characters, this`chunksEmitted, this`hasContent, this`cancelled
      ensures Counted() && (old(cancelled) ==> cancelled)
      ensures interruptible || cancelled == old(cancelled)
      ensures said == if cancelled then old(said) else Emit(voice, old(said), text)
    {
      hide Within, SpokenAs;
      PollCancel();
      if cancelled {
        return;
      }
      EmitKeepsBudgets(voice, said, text);
      if voice.cloudLimit.Some? && chunksEmitted >= voice.cloudLimit.value {
        return;
      }
      var remaining := voice.maximum - characters;
      if remaining <= 0 {
        return;
      }
      var hardLimit := if voice.cloudLimit.Some? then Min(remaining, CloudChunk(voice)) else remaining;
      var spoken := SpokenAs(voice, hardLimit, text);
      if spoken == "" {
        return;
      }
      hasContent := true;
      characters := characters + |spoken|;
      chunksEmitted := chunksEmitted + 1;
      said := said + [spoken];
      assert said[..|said| - 1] == old(said);
    }

    method PollCancel()
      modifies this`cancelled
      ensures (old(cancelled) ==> cancelled) && (interruptible || cancelled == old(cancelled))
    {
      var pressed: bool := *;
      cancelled := cancelled || (interruptible && pressed);
    }

    method EmitTexts(texts: seq<string>)
      requires Counted()
      modifies this`said, this`characters, this`chunksEmitted, this`hasContent, this`cancelled
      ensures Counted() && (old(cancelled) ==> cancelled && said == old(said))
      ensures interruptible || cancelled == old(cancelled)
      ensures !cancelled ==> said == EmitAll(voice, old(said), texts)
      ensures old(said) <= said <= EmitAll(voice, old(said), texts)
    {
      hide Within, Emit, EmitAll;
      ghost var goal := EmitAll(voice, said, texts);
      var i := 0;
      EmitAllKeepsBudgets(voice, said, texts);
      assert texts[0..] == texts;
      EmitAllFrom(voice, said, texts, |texts|);
      while i < |texts|
        invariant i <= |texts| && Counted() && (old(cancelled) ==> cancelled && said == old(said))
        invariant interruptible || cancelled == old(cancelled)
        invariant !cancelled ==> EmitAll(voice, said, texts[i..]) == goal
        invariant old(said) <= said <= goal
      {
        EmitAllFrom(voice, said, texts, i);
        EmitKeepsBudgets(voice, said, texts[i]);
        EmitText(texts[i]);
        if !cancelled {
          EmitAllKeepsBudgets(voice, said, texts[i + 1..]);
        }
        i := i + 1;
      }
      EmitAllFrom(voice, said, texts, i);
    }

    /** `_drain_cloud_sentences`. */
    method DrainCloudSentences()
      requires Counted() && voice.cloudLimit.Some? && |said| < voice.cloudLimit.value
      modifies this`pending, this`said, this`characters, this`chunksEmitted, this`hasContent, this`cancelled
      ensures Counted() && |said| < voice.cloudLimit.value && |pending| <= |old(pending)|
      ensures old(cancelled) ==> cancelled && said == old(said)
      ensures interruptible || cancelled == old(cancelled)
      ensures !cancelled ==> (said, pending) == Drain(voice, old(said), old(pending))
      ensures old(said) <= said <= Drain(voice, old(said), old(pending)).0
    {
      hide Within, Drain, Ready, EmitAll, SaySentence, RequestsNeeded, Requests, Sentence, AfterSentence, SentenceEnd;
      ghost var goal := Drain(voice, said, pending);
      DrainKeepsBudgets(voice, said, pending);
      var earlyLimit := voice.cloudLimit.value - 1;
      while chunksEmitted < earlyLimit
        invariant Counted() && |said| < voice.cloudLimit.value && |pending| <= |old(pending)|
        invariant old(cancelled) ==> cancelled && said == old(said)
        invariant interruptible || cancelled == old(cancelled)
        invariant !cancelled ==> Drain(voice, said, pending) == goal
        invariant old(said) <= said <= goal.0
        decreases |pending|
      {
        DrainRound(voice, said, pending);
        var boundary := SentenceEnd(pending);
        if boundary.None? {
          return;
        }
        var sentence, remainder := Sentence(pending), AfterSentence(pending);
        if sentence == "" {
          pending := remainder;
          continue;
        }
        var available := earlyLimit - chunksEmitted;
        if RequestsNeeded(voice, sentence) > available {
          return;
        }
        EmitTexts(Requests(voice, available, FormatterLimit(voice), sentence));
        pending := remainder;
      }
      DrainRound(voice, said, pending);
    }

    /** `_emit_cloud_remainder`. */
    method EmitCloudRemainder()
      requires Counted() && voice.cloudLimit.Some?
      modifies this`said, this`characters, this`chunksEmitted, this`hasContent, this`cancelled
      ensures Counted() && (old(cancelled) ==> cancelled && said == old(said))
      ensures interruptible || cancelled == old(cancelled)
      ensures !cancelled ==> said == EmitRemainder(voice, old(said), pending)
      ensures old(said) <= said <= EmitRemainder(voice, old(said), pending)
    {
      hide Within, EmitAll, Requests;
      if Strip(pending) == "" || chunksEmitted >= voice.cloudLimit.value {
        return;
      }
      var available := voice.cloudLimit.value - chunksEmitted;
      var remainingCharacters := voice.maximum - characters;
      if remainingCharacters < 120 {
        return;
      }
      EmitTexts(Requests(voice, available, Min(remainingCharacters, available * CloudChunk(voice)), pending));
    }

    /** `feed`, without the thread's lock. */
    method Feed(token: string)
      requires Valid()
      modifies this`pending, this`said, this`characters, this`chunksEmitted, this`hasContent, this`cancelled
      ensures Valid() && old(said) <= said
      ensures interruptible || cancelled == old(cancelled)
      ensures old(cancelled) ==> cancelled && said == old(said) && pending == old(pending)
      ensures old(closed) ==> said == old(said) && pending == old(pending)
      ensures voice.cloudLimit.Some? && !closed && !cancelled ==>
        token == "" || (said, pending) == Drain(voice, old(said), Held(voice, old(pending) + token))
      ensures voice.cloudLimit.None? && !closed && !cancelled ==>
        token == "" || (said, pending) == Local(voice, old(said), old(pending) + token)
      ensures token == "" ==> said == old(said) && pending == old(pending)
    {
      PollCancel();
      if token == "" || cancelled || closed {
        return;
      }
      pending := pending + token;
      if voice.cloudLimit.Some? {
        pending := pending[..Min(MaxPending(voice), |pending|)];
        DrainCloudSentences();
        return;
      }
      FeedLocalVoice();
    }

    /** The local voice's half of `feed`. */
    method FeedLocalVoice()
      requires Counted() && voice.cloudLimit.None?
      modifies this`pending, this`said, this`characters, this`chunksEmitted, this`hasContent, this`cancelled
      ensures Counted() && old(said) <= said && (old(cancelled) ==> cancelled && said == old(said))
      ensures interruptible || cancelled == old(cancelled)
      ensures !cancelled ==> (said, pending) == Local(voice, old(said), old(pending))
    {
      hide Within, EmitAll, Split;
      var parts := Split(pending);
      pending := parts.1;
      EmitTexts(parts.0);
      if |pending| >= voice.chunkSetting {
        var cut := LocalCut(pending, voice.chunkSetting);
        var ready := pending[..cut];
        pending := pending[cut..];
        EmitText(ready);
      }
    }

    /** `finish`, up to waiting for the player. */
    method Finish() returns (heard: bool)
      requires Valid()
      modifies this
      ensures Valid() && closed && old(said) <= said && (old(cancelled) ==> cancelled && said == old(said))
      ensures interruptible || cancelled == old(cancelled)
      ensures old(closed) ==> said == old(said)
      ensures !cancelled && !old(closed) ==>
        said ==
          if voice.cloudLimit.Some? then Finished(voice, (old(said), old(pending)))
          else Emit(voice, old(said), old(pending))
      ensures heard <==> said != [] && !cancelled
    {
      hide Within, Emit, Drain, EmitRemainder;
      if !closed {
        EmitKeepsBudgets(voice, said, pending);
        if voice.cloudLimit.Some? {
          DrainCloudSentences();
          EmitCloudRemainder();
        } else {
          EmitText(pending);
        }
        pending := "";
        closed := true;
      }
      return hasContent && !cancelled;
    }

    /** `cancel`. */
    method Cancel()
      requires Valid()
      modifies this`cancelled, this`closed, this`pending
      ensures Valid() && cancelled && closed && pending == ""
    {
      cancelled := true;
      if !closed {
        closed := true;
        pending := "";
      }
    }
  }

  /** One round of draining: nothing is ready, or the first sentence is said on the way to the same end. */
  lemma DrainRound(v: Voice, said: seq<string>, pending: string)
    requires ValidVoice(v) && v.cloudLimit.Some? && Within(v, said) && |said| < v.cloudLimit.value
    ensures var end, early := SentenceEnd(pending), v.cloudLimit.value - 1 - |said|;
      if early == 0 || end.None? || (Sentence(pending) != "" && RequestsNeeded(v, Sentence(pending)) > early)
      then Drain(v, said, pending) == (said, pending)
      else
        var sentence := Sentence(pending);
        var now := if sentence == "" then said else EmitAll(v, said, Requests(v, early, FormatterLimit(v), sentence));
        && Drain(v, said, pending) == Drain(v, now, AfterSentence(pending))
        && now <= Drain(v, said, pending).0 && |now| < v.cloudLimit.value
  {
    hide Within, EmitAll, Requests, RequestsNeeded, Sentence, AfterSentence, SentenceEnd;
    if Ready(v, said, pending) {
      SayKeepsBudgets(v, said, pending);
      DrainKeepsBudgets(v, SaySentence(v, said, Sentence(pending)), AfterSentence(pending));
    }
  }

  datatype Call = FeedToken(token: string) | FinishReply | CancelReply

  /** Any calls in any order stay within the budgets, and what was said is never taken back. */
  method Perform(session: StreamingSpeechSession, calls: seq<Call>)
    requires session.Valid()
    modifies session
    ensures session.Valid() && old(session.said) <= session.said
    ensures old(session.cancelled || session.closed) ==> session.said == old(session.said)
  {
    var i := 0;
    while i < |calls|
      invariant session.Valid() && old(session.said) <= session.said
      invariant old(session.cancelled || session.closed) ==>
        (session.cancelled || session.closed) && session.said == old(session.said)
    {
      match calls[i] {
        case FeedToken(token) => session.Feed(token);
        case FinishReply => var _ := session.Finish();
        case CancelReply => session.Cancel();
      }
      i := i + 1;
    }
  }

  /** A reply spoken by the cloud voice while it is written: within all budgets, and, if it is not
      interrupted, what would be said of as much of the finished text as got into the buffer; all of it
      if it never overflowed, as when the reply is no longer than the buffer. */
  method SpeakReply(voice: Voice, interruptible: bool, tokens: seq<string>) returns (said: seq<string>, cancelled: bool)
    requires ValidVoice(voice) && voice.cloudLimit.Some?
    ensures Total(said) <= voice.maximum && |said| <= voice.cloudLimit.value
    ensures forall k | 0 <= k < |said| :: 0 < |said[k]| <= CloudChunk(voice) <= 190
    ensures !interruptible ==> !cancelled
    ensures !cancelled ==> said == Finished(voice, ([], Survives(voice, [], "", tokens)))
    ensures NeverOverflows(voice, [], "", tokens) <==> Survives(voice, [], "", tokens) == Flatten(tokens)
    ensures |Flatten(tokens)| <= MaxPending(voice) ==> NeverOverflows(voice, [], "", tokens)
  {
    hide Drain, EmitRemainder, Survives, NeverOverflows;
    var session := new StreamingSpeechSession(voice, interruptible);
    ghost var goal := FeedAll(voice, [], "", tokens);
    WhatSurvivesIsSaid(voice, [], "", tokens);
    AllSurvivesExactly(voice, [], "", tokens);
    if |Flatten(tokens)| <= MaxPending(voice) {
      ShortNeverOverflows(voice, [], "", tokens);
    }
    assert "" + Survives(voice, [], "", tokens) == Survives(voice, [], "", tokens);
    assert tokens[0..] == tokens;
    var i := 0;
    while i < |tokens|
      invariant i <= |tokens| && session.Valid() && fresh(session) && session.voice == voice && !session.closed
      invariant session.interruptible == interruptible && (interruptible || !session.cancelled)
      invariant !session.cancelled ==> FeedAll(voice, session.said, session.pending, tokens[i..]) == goal
    {
      assert tokens[i..][0] == tokens[i] && tokens[i..][1..] == tokens[i + 1..];
      session.Feed(tokens[i]);
      i := i + 1;
    }
    assert tokens[|tokens|..] == [];
    var _ := session.Finish();
    said, cancelled := session.said, session.cancelled;
  }
}

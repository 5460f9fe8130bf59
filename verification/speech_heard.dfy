/** What of a reply is heard: the letters that `StreamingSpeechSession` in ron/voice/speech.py hands
    to the player, against the letters of the reply.
 */
module SpeechHeard {
  import opened Common
  import opened SpeechText
  import opened SpeechSession

  /** A cleaning that takes no letter out of a text and puts nothing into it. */
  ghost predicate Plain(c: Cleaner) {
    forall s: string :: Letters(c.clean(s)) == Letters(s) && |c.clean(s)| <= |s|
  }

  lemma {:induction false} SpacedShortens(s: string)
    ensures |Spaced(s)| <= |s|
    decreases |s|
  {
    hide IsSpace;
    if s != "" {
      SpacedShortens(if IsSpace(s[0]) then LeftStrip(s[1..]) else s[1..]);
    }
  }

  /** Cleaned plain text has all its letters. */
  lemma PlainIsKept(c: Cleaner, text: string)
    requires Plain(c)
    ensures Letters(Cleaned(c, text)) == Letters(text) && |Cleaned(c, text)| <= |text|
  {
    hide IsSpace, Spaced, Letters, LeftStrip, RightStrip, Tidy;
    CleanedKeepsTheWords(c, text);
    StripKeeps(text);
    NoLetters("");
    if Strip(text) != "" {
      SpacedShortens(c.clean(Strip(text)));
    }
  }

  // ---- one text

  /** A text within the hard limit is said as it is cleaned. */
  lemma FittingTextIsSaid(v: Voice, said: seq<string>, text: string)
    requires ValidVoice(v) && Within(v, said) && (v.cloudLimit.Some? ==> |said| < v.cloudLimit.value)
    requires |Cleaned(v.cleaner, text)| <= HardLimit(v, said)
    ensures Emit(v, said, text) ==
      if Cleaned(v.cleaner, text) == "" then said else said + [Cleaned(v.cleaner, text)]
  {
    hide Within, Cleaned, Tidy, Clipped, IsSpace, RightStrip;
    var value := Cleaned(v.cleaner, text);
    OneOrMoreLimit(v);
    PrepareFits(v.cleaner, FormatterLimit(v), text);
    NoSpaceBehind(value);
    assert value[..|value|] == value;
  }

  lemma OneOrMoreLimit(v: Voice)
    requires ValidVoice(v)
    ensures v.cloudLimit.Some? ==> Min(v.maximum, CloudChunk(v)) <= FormatterLimit(v)
  {
    if v.cloudLimit.Some? {
      OneOrMore(v.cloudLimit.value, CloudChunk(v));
    }
  }

  lemma NoSpaceBehind(value: string)
    requires Tidy(value)
    ensures RightStrip(value) == value
  {
  }

  /** A plain text over the hard limit when it is prepared is clipped once more where 120 characters are left,
      and not said otherwise. */
  lemma LongTextIsClipped(v: Voice, said: seq<string>, text: string)
    requires ValidVoice(v) && Within(v, said) && Plain(v.cleaner)
    requires v.cloudLimit.Some? ==> |said| < v.cloudLimit.value
    requires |Prepare(v.cleaner, FormatterLimit(v), text)| > HardLimit(v, said)
    ensures |Emit(v, said, text)| == |said| + if HardLimit(v, said) >= 120 then 1 else 0
  {
    hide Within, Cleaned, Tidy, Clipped, Plain, RightStrip, Prepare, CloudChunk, FormatterLimit;
    var hardLimit := HardLimit(v, said);
    var spoken := Prepare(v.cleaner, FormatterLimit(v), text);
    OneOrMoreLimit(v);
    PrepareFits(v.cleaner, FormatterLimit(v), text);
    if hardLimit >= 120 {
      PrepareFits(v.cleaner, hardLimit, spoken);
      PlainStaysSomething(v.cleaner, spoken);
      NoSpaceBehind(Prepare(v.cleaner, hardLimit, spoken));
      assert SpokenAs(v, hardLimit, text) == Prepare(v.cleaner, hardLimit, spoken);
    }
  }

  lemma PlainStaysSomething(c: Cleaner, text: string)
    requires Plain(c) && Tidy(text) && text != ""
    ensures Cleaned(c, text) != ""
  {
    hide Tidy, Plain, Cleaned, Letters;
    PlainIsKept(c, text);
    LettersOfTidy(text);
    LettersOfTidy(Cleaned(c, text));
  }

  /** The letters handed to the player so far. */
  function Heard(said: seq<string>): string {
    Letters(Flatten(said))
  }

  lemma HeardOneMore(said: seq<string>, text: string)
    ensures Heard(said + [text]) == Heard(said) + Letters(text) && Total(said + [text]) == Total(said) + |text|
  {
    hide Letters;
    FlattenAppend(said, text);
    LettersAppend(Flatten(said), text);
    assert (said + [text])[..|said|] == said;
  }

  lemma PlainTextIsHeard(v: Voice, said: seq<string>, text: string)
    requires ValidVoice(v) && Plain(v.cleaner) && Within(v, said)
    requires v.cloudLimit.Some? ==> |said| < v.cloudLimit.value
    requires |text| <= HardLimit(v, said)
    ensures var now := Emit(v, said, text);
      Within(v, now) && Heard(now) == Heard(said) + Letters(text) && Total(now) <= Total(said) + |text|
  {
    hide Emit, Within, Cleaned, Letters, Plain, Heard, Total, HardLimit;
    PlainIsKept(v.cleaner, text);
    FittingTextIsSaid(v, said, text);
    EmitKeepsBudgets(v, said, text);
    HeardOneMore(said, Cleaned(v.cleaner, text));
    NothingIsNoLetter(Cleaned(v.cleaner, text), Heard(said));
  }

  lemma NothingIsNoLetter(text: string, before: string)
    ensures text == "" ==> before + Letters(text) == before
  {
  }

  // ---- the local voice

  lemma {:induction false} CutsKeepLetters(text: string, parts: seq<string>, last: string)
    requires CutsInto(text, parts, last)
    ensures Letters(Flatten(parts) + last) == Letters(text) && |Flatten(parts)| + |last| <= |text|
    decreases |parts|
  {
    hide Letters, LeftStrip, IsSpace;
    if parts == [] {
      assert [] + last == text;
    } else {
      var behind := text[|parts[0]|..];
      CutsKeepLetters(LeftStrip(behind), parts[1..], last);
      LeftStripKeeps(behind);
      LettersAppend(parts[0], behind);
      LettersAppend(parts[0], Flatten(parts[1..]) + last);
      assert text == parts[0] + behind;
      assert Flatten(parts) + last == parts[0] + (Flatten(parts[1..]) + last);
    }
  }

  /** What the local voice hands over of a text, and what it keeps. */
  function LocalPieces(v: Voice, text: string): (seq<string>, string)
    requires ValidVoice(v)
  {
    var (sentences, last) := Split(text);
    if |last| < v.chunkSetting then (sentences, last)
    else
      var cut := LocalCut(last, v.chunkSetting);
      (sentences + [last[..cut]], last[cut..])
  }

  /** No letter is lost between what is handed over and what is kept. */
  lemma LocalPiecesKeepLetters(v: Voice, text: string)
    requires ValidVoice(v)
    ensures var (pieces, kept) := LocalPieces(v, text);
      Letters(Flatten(pieces) + kept) == Letters(text) && |Flatten(pieces)| + |kept| <= |text|
  {
    hide Letters, Split, CutsInto, IsSentence, SentenceEnd, LocalCut;
    var (sentences, last) := Split(text);
    SplitExactly(text);
    CutsKeepLetters(text, sentences, last);
    if |last| >= v.chunkSetting {
      LastIsCut(sentences, last, LocalCut(last, v.chunkSetting));
    }
  }

  lemma LastIsCut(sentences: seq<string>, last: string, cut: nat)
    requires cut <= |last|
    ensures Flatten(sentences + [last[..cut]]) + last[cut..] == Flatten(sentences) + last
  {
    FlattenAppend(sentences, last[..cut]);
    assert last == last[..cut] + last[cut..];
  }

  lemma {:induction false} EmitAllInTwoGoes(v: Voice, said: seq<string>, first: seq<string>, second: seq<string>)
    requires ValidVoice(v)
    ensures EmitAll(v, said, first + second) == EmitAll(v, EmitAll(v, said, first), second)
    decreases |first|
  {
    hide Emit;
    if first == [] {
      assert [] + second == second;
    } else {
      assert (first + second)[1..] == first[1..] + second;
      EmitAllInTwoGoes(v, Emit(v, said, first[0]), first[1..], second);
    }
  }

  lemma EmitAllOne(v: Voice, said: seq<string>, text: string)
    requires ValidVoice(v)
    ensures EmitAll(v, said, [text]) == Emit(v, said, text)
  {
    hide Emit;
    assert [text][1..] == [];
  }

  lemma LocalSaysThePieces(v: Voice, said: seq<string>, text: string)
    requires ValidVoice(v) && v.cloudLimit.None?
    ensures var (pieces, kept) := LocalPieces(v, text); Local(v, said, text) == (EmitAll(v, said, pieces), kept)
  {
    hide Emit, EmitAll, Split;
    var (sentences, last) := Split(text);
    if |last| >= v.chunkSetting {
      var ready := last[..LocalCut(last, v.chunkSetting)];
      EmitAllInTwoGoes(v, said, sentences, [ready]);
      EmitAllOne(v, EmitAll(v, said, sentences), ready);
    }
  }

  /** Plain texts that fit the character budget are heard in full. */
  lemma {:induction false} PlainTextsAreHeard(v: Voice, said: seq<string>, texts: seq<string>)
    requires ValidVoice(v) && v.cloudLimit.None? && Plain(v.cleaner) && Within(v, said)
    requires Total(said) + |Flatten(texts)| <= v.maximum
    ensures Heard(EmitAll(v, said, texts)) == Heard(said) + Letters(Flatten(texts))
    decreases |texts|
  {
    hide Emit, Within, Letters, Plain, Heard, Total;
    if texts == [] {
      NothingIsNoLetter(Flatten(texts), Heard(said));
    } else {
      PlainTextIsHeard(v, said, texts[0]);
      var now := Emit(v, said, texts[0]);
      PlainTextsAreHeard(v, now, texts[1..]);
      LettersAppend(texts[0], Flatten(texts[1..]));
      assert Heard(said) + Letters(texts[0]) + Letters(Flatten(texts[1..])) ==
        Heard(said) + (Letters(texts[0]) + Letters(Flatten(texts[1..])));
    }
  }

  lemma FlattenConcat<T>(a: seq<seq<T>>, b: seq<seq<T>>)
    ensures Flatten(a + b) == Flatten(a) + Flatten(b)
    decreases |a|
  {
    if a == [] {
      assert [] + b == b;
    } else {
      assert (a + b)[1..] == a[1..] + b;
      FlattenConcat(a[1..], b);
    }
  }

  /** A reply spoken by the local voice while it is written: it is handed over in pieces that have all its
      letters in order, whatever the tokens; and a plain reply within the budget is heard in full. */
  method SpeakLocally(voice: Voice, interruptible: bool, tokens: seq<string>)
      returns (said: seq<string>, cancelled: bool, ghost pieces: seq<string>)
    requires ValidVoice(voice) && voice.cloudLimit.None?
    ensures Total(said) <= voice.maximum && (!interruptible ==> !cancelled)
    ensures !cancelled ==> said == EmitAll(voice, [], pieces)
    ensures !cancelled ==> Letters(Flatten(pieces)) == Letters(Flatten(tokens))
    ensures !cancelled && Plain(voice.cleaner) && |Flatten(tokens)| <= voice.maximum ==>
      Heard(said) == Letters(Flatten(tokens))
  {
    hide Letters, Emit, EmitAll, LocalPieces, Plain, Heard;
    var session := new StreamingSpeechSession(voice, interruptible);
    pieces := [];
    NoTokens(voice);
    var i := 0;
    while i < |tokens|
      invariant i <= |tokens| && session.Valid() && fresh(session) && session.voice == voice && !session.closed
      invariant session.interruptible == interruptible && (interruptible || !session.cancelled)
      invariant !session.cancelled ==> HandedOver(voice, session.said, session.pending, pieces, Flatten(tokens[..i]))
    {
      FlattenAppend(tokens[..i], tokens[i]);
      assert tokens[..i + 1] == tokens[..i] + [tokens[i]];
      if !session.cancelled {
        OneMoreToken(voice, session.said, session.pending, pieces, Flatten(tokens[..i]), tokens[i]);
        pieces := if tokens[i] == "" then pieces else pieces + LocalPieces(voice, session.pending + tokens[i]).0;
      }
      session.Feed(tokens[i]);
      i := i + 1;
    }
    assert tokens[..|tokens|] == tokens;
    if !session.cancelled {
      LastPiece(voice, session.said, session.pending, pieces, Flatten(tokens));
      pieces := pieces + [session.pending];
    }
    var _ := session.Finish();
    said, cancelled := session.said, session.cancelled;
  }

  /** The state of the local voice part way through a reply. */
  ghost predicate HandedOver(v: Voice, said: seq<string>, kept: string, pieces: seq<string>, reply: string)
    requires ValidVoice(v)
  {
    && said == EmitAll(v, [], pieces)
    && Letters(Flatten(pieces) + kept) == Letters(reply) && |Flatten(pieces)| + |kept| <= |reply|
  }

  lemma NoTokens(v: Voice)
    requires ValidVoice(v)
    ensures HandedOver(v, [], "", [], Flatten<char>([]))
  {
  }

  lemma OneMoreToken(v: Voice, said: seq<string>, kept: string, pieces: seq<string>, reply: string, token: string)
    requires ValidVoice(v) && v.cloudLimit.None? && HandedOver(v, said, kept, pieces, reply)
    ensures var (more, rest) := LocalPieces(v, kept + token);
      HandedOver(v, Local(v, said, kept + token).0, Local(v, said, kept + token).1, pieces + more, reply + token)
    ensures token == "" ==> reply + token == reply
  {
    hide Letters, Emit, EmitAll, LocalPieces, Local;
    var (more, rest) := LocalPieces(v, kept + token);
    LocalSaysThePieces(v, said, kept + token);
    LocalPiecesKeepLetters(v, kept + token);
    EmitAllInTwoGoes(v, [], pieces, more);
    FlattenConcat(pieces, more);
    assert Flatten(pieces) + Flatten(more) + rest == Flatten(pieces) + (Flatten(more) + rest);
    LettersAppend(Flatten(pieces), Flatten(more) + rest);
    LettersAppend(Flatten(pieces), kept + token);
    assert Flatten(pieces) + (kept + token) == Flatten(pieces) + kept + token;
    LettersAppend(Flatten(pieces) + kept, token);
    LettersAppend(reply, token);
  }

  lemma LastPiece(v: Voice, said: seq<string>, kept: string, pieces: seq<string>, reply: string)
    requires ValidVoice(v) && v.cloudLimit.None? && HandedOver(v, said, kept, pieces, reply)
    ensures Emit(v, said, kept) == EmitAll(v, [], pieces + [kept])
    ensures Letters(Flatten(pieces + [kept])) == Letters(reply)
    ensures Plain(v.cleaner) && |reply| <= v.maximum ==> Heard(Emit(v, said, kept)) == Letters(reply)
  {
    hide Letters, Emit, EmitAll, Plain;
    EmitAllInTwoGoes(v, [], pieces, [kept]);
    EmitAllOne(v, said, kept);
    FlattenAppend(pieces, kept);
    if Plain(v.cleaner) && |reply| <= v.maximum {
      PlainTextsAreHeard(v, [], pieces + [kept]);
      NothingHeardYet(Letters(reply));
    }
  }

  lemma NothingHeardYet(letters: string)
    ensures Heard([]) + letters == letters
  {
  }

  // ---- the cloud voice

  /** What fits one request is asked for as it is cleaned. */
  lemma OneRequest(v: Voice, slots: nat, limit: nat, text: string)
    requires ValidVoice(v) && Plain(v.cleaner) && 1 <= slots <= 6 && 120 <= limit <= 4_000
    requires |text| <= CloudChunk(v) && |text| <= limit
    ensures Requests(v, slots, limit, text) ==
      if Cleaned(v.cleaner, text) == "" then [] else [Cleaned(v.cleaner, text)]
  {
    hide Cleaned, Tidy, Clipped, Plain, Letters, Prepare, CloudChunk, CloudChunks, Min;
    var budget := Min(limit, CloudChunk(v) * slots);
    BudgetIsEnough(limit, CloudChunk(v), slots, |text|);
    PlainIsKept(v.cleaner, text);
    PrepareFits(v.cleaner, budget, text);
    OneChunk(v.cleaner, CloudChunk(v), slots, Cleaned(v.cleaner, text));
  }

  lemma BudgetIsEnough(limit: nat, chunk: nat, slots: nat, n: nat)
    requires slots > 0 && limit >= 120 && chunk >= 120 && n <= chunk && n <= limit
    ensures 120 <= Min(limit, chunk * slots) <= limit && n <= Min(limit, chunk * slots)
  {
    OneOrMore(slots, chunk);
  }

  lemma OneChunk(c: Cleaner, target: nat, slots: nat, value: string)
    requires 120 <= target <= MAX_REQUEST_CHARACTERS && slots > 0 && Tidy(value) && |value| <= target
    ensures CloudChunks(c, target, slots, value) == if value == "" then [] else [value]
  {
    hide Tidy, Pieces, Prepare;
    PiecesEnd(target, slots, value);
  }

  lemma OneRequestIsHeard(v: Voice, said: seq<string>, slots: nat, limit: nat, text: string)
    requires ValidVoice(v) && v.cloudLimit.Some? && Plain(v.cleaner) && Within(v, said) && |said| < v.cloudLimit.value
    requires 1 <= slots <= 6 && 120 <= limit <= 4_000
    requires |text| <= CloudChunk(v) && |text| <= limit && Total(said) + |text| <= v.maximum
    ensures var now := EmitAll(v, said, Requests(v, slots, limit, text));
      && Within(v, now) && Heard(now) == Heard(said) + Letters(text) && Total(now) <= Total(said) + |text|
      && |now| == |said| + if Letters(text) == "" then 0 else 1
  {
    hide Cleaned, Within, Plain, Letters, Emit, EmitAll, Requests, Heard, Total;
    var value := Cleaned(v.cleaner, text);
    OneRequest(v, slots, limit, text);
    PlainIsKept(v.cleaner, text);
    NothingIsNoLetter(value, Heard(said));
    LettersOfTidy(value);
    if value == "" {
      EmitAllNone(v, said);
    } else {
      EmitAllOne(v, said, value);
      PlainIsKept(v.cleaner, value);
      FittingTextIsSaid(v, said, value);
      PlainTextIsHeard(v, said, value);
      LettersOfTidy(Cleaned(v.cleaner, value));
    }
  }

  lemma EmitAllNone(v: Voice, said: seq<string>)
    requires ValidVoice(v)
    ensures EmitAll(v, said, []) == said
  {
    hide Emit;
  }

  lemma LettersOfTidy(s: string)
    requires Tidy(s)
    ensures Letters(s) == "" <==> s == ""
  {
    if s != "" {
      assert !IsSpace(s[0]);
    }
  }

  /** Each of the first so many sentences fits a request and the characters left, and so does what is behind
      them, which is only said if 120 characters are left. */
  predicate FitsRequests(v: Voice, sentences: nat, left: nat, text: string)
    decreases sentences
  {
    if sentences == 0 || SentenceEnd(text).None? then FitsAtTheEnd(v, left, text)
    else
      && |Sentence(text)| <= CloudChunk(v) && |Sentence(text)| <= left
      && FitsRequests(v, sentences - 1, left - |Sentence(text)|, AfterSentence(text))
  }

  predicate FitsAtTheEnd(v: Voice, left: nat, text: string) {
    Letters(text) == "" || (|text| <= CloudChunk(v) && |text| <= left && 120 <= left)
  }

  /** A first sentence and what is behind it have all the letters. */
  lemma SentenceKeepsLetters(text: string)
    requires SentenceEnd(text).Some?
    ensures Letters(Sentence(text)) + Letters(AfterSentence(text)) == Letters(text)
    ensures |Sentence(text)| + |AfterSentence(text)| <= |text| && Letters(Sentence(text)) != ""
  {
    hide IsSpace, SentenceEnd, LeftStrip, RightStrip;
    var k := SentenceEnd(text).value;
    assert text == text[..k] + text[k..];
    LettersAppend(text[..k], text[k..]);
    StripKeeps(text[..k]);
    LeftStripKeeps(text[k..]);
    MarkIsLetter(text[..k]);
  }

  lemma MarkIsLetter(s: string)
    requires s != "" && s[|s| - 1] in ".?!"
    ensures Letters(s) != ""
  {
    hide IsSpace, Letters;
    var mark := s[|s| - 1];
    MarkIsNoSpace(mark);
    LettersAreAllButSpace(s, mark);
    assert mark in multiset(s);
  }

  /** Draining says every sentence whole and loses no letter. */
  lemma {:induction false} DrainIsHeard(v: Voice, said: seq<string>, pending: string, left: nat)
    requires ValidVoice(v) && v.cloudLimit.Some? && Plain(v.cleaner) && Within(v, said)
    requires |said| < v.cloudLimit.value && Total(said) + left <= v.maximum
    requires FitsRequests(v, v.cloudLimit.value - 1 - |said|, left, pending)
    ensures var (now, kept) := Drain(v, said, pending);
      && Heard(now) + Letters(kept) == Heard(said) + Letters(pending)
      && Total(now) <= v.maximum && FitsAtTheEnd(v, v.maximum - Total(now), kept)
    decreases |pending|
  {
    hide Within, Plain, Letters, Heard, Total, EmitAll, Requests, RequestsNeeded, Sentence, AfterSentence, SentenceEnd;
    var early := v.cloudLimit.value - 1 - |said|;
    if early > 0 && SentenceEnd(pending).Some? {
      var sentence, rest := Sentence(pending), AfterSentence(pending);
      SentenceKeepsLetters(pending);
      ShortIsReady(v, sentence, early);
      NothingIsNoLetter("", "");
      FormatterIsEnough(v);
      OneRequestIsHeard(v, said, early, FormatterLimit(v), sentence);
      var now := SaySentence(v, said, sentence);
      DrainIsHeard(v, now, rest, left - |sentence|);
      assert Heard(said) + Letters(sentence) + Letters(rest) == Heard(said) + (Letters(sentence) + Letters(rest));
    }
  }

  lemma FormatterIsEnough(v: Voice)
    requires ValidVoice(v) && v.cloudLimit.Some?
    ensures FormatterLimit(v) <= 4_000 && (v.maximum >= CloudChunk(v) ==> FormatterLimit(v) >= CloudChunk(v))
    ensures FormatterLimit(v) >= Min(v.maximum, CloudChunk(v))
  {
    OneOrMore(v.cloudLimit.value, CloudChunk(v));
  }

  lemma Quotient(n: nat, chunk: nat, m: nat)
    requires chunk > 0
    ensures (n + chunk - 1) / chunk <= m <==> n <= m * chunk
  {
    var q := (n + chunk - 1) / chunk;
    assert q * chunk <= n + chunk - 1 < q * chunk + chunk;
    if q <= m {
      Multiples(q, m, chunk);
    } else {
      Multiples(m + 1, q, chunk);
    }
  }

  lemma Multiples(a: nat, b: nat, c: nat)
    requires a <= b
    ensures a * c <= b * c
  {
  }

  /** The requests a sentence needs: enough of them hold it as it is prepared. */
  lemma RequestsHoldSentence(v: Voice, sentence: string, n: nat)
    requires ValidVoice(v) && n > 0
    ensures RequestsNeeded(v, sentence) <= n <==>
      |Prepare(v.cleaner, FormatterLimit(v), sentence)| <= n * CloudChunk(v)
  {
    hide Prepare, CloudChunk;
    Quotient(|Prepare(v.cleaner, FormatterLimit(v), sentence)|, CloudChunk(v), n);
  }

  lemma ShortIsReady(v: Voice, sentence: string, early: nat)
    requires ValidVoice(v) && v.cloudLimit.Some? && Plain(v.cleaner) && early > 0
    requires |sentence| <= CloudChunk(v) && |sentence| <= v.maximum
    ensures RequestsNeeded(v, sentence) <= early
  {
    hide Cleaned, Tidy, Clipped, Plain, Letters, Prepare, CloudChunk, FormatterLimit, RequestsNeeded;
    FormatterIsEnough(v);
    PlainIsKept(v.cleaner, sentence);
    PrepareFits(v.cleaner, FormatterLimit(v), sentence);
    RequestsHoldSentence(v, sentence, early);
    OneOrMore(early, CloudChunk(v));
  }

  /** A plain reply within the budgets is heard in full. */
  lemma PlainReplyIsHeard(v: Voice, text: string)
    requires ValidVoice(v) && v.cloudLimit.Some? && Plain(v.cleaner)
    requires FitsRequests(v, v.cloudLimit.value - 1, v.maximum, text)
    ensures Heard(Finished(v, ([], text))) == Letters(text)
  {
    hide Within, Plain, Letters, Heard, Total, EmitAll, Requests, Drain, FitsRequests, FitsAtTheEnd, Strip;
    NothingSaid(v, text);
    DrainKeepsBudgets(v, [], text);
    DrainIsHeard(v, [], text, v.maximum);
    NothingHeardYet(Letters(text));
    var (now, kept) := Drain(v, [], text);
    RemainderIsHeard(v, now, kept);
  }

  lemma NothingSaid(v: Voice, text: string)
    ensures Within(v, []) && Total([]) == 0
  {
  }

  lemma RemainderIsHeard(v: Voice, said: seq<string>, pending: string)
    requires ValidVoice(v) && v.cloudLimit.Some? && Plain(v.cleaner) && Within(v, said)
    requires |said| < v.cloudLimit.value && Total(said) <= v.maximum
    requires FitsAtTheEnd(v, v.maximum - Total(said), pending)
    ensures Heard(EmitRemainder(v, said, pending)) == Heard(said) + Letters(pending)
  {
    hide Within, Plain, Letters, Heard, Total, EmitAll, Requests, LeftStrip, RightStrip, CloudChunk, Strip,
         RemainderLimit;
    StripKeeps(pending);
    NoLetters("");
    LettersOfTrimmed(pending);
    if Strip(pending) != "" {
      OneRequestIsHeard(v, said, v.cloudLimit.value - |said|, RemainderLimit(v, said), pending);
    }
  }

  lemma LettersOfTrimmed(text: string)
    ensures Letters(text) == "" ==> Strip(text) == ""
  {
    hide IsSpace, LeftStrip, RightStrip;
    StripKeeps(text);
    if Strip(text) != "" {
      FirstLetter(Strip(text));
    }
  }

  /** However such a reply is cut into tokens. */
  lemma PlainTokensAreHeard(v: Voice, tokens: seq<string>)
    requires ValidVoice(v) && v.cloudLimit.Some? && Plain(v.cleaner) && |Flatten(tokens)| <= MaxPending(v)
    requires FitsRequests(v, v.cloudLimit.value - 1, v.maximum, Flatten(tokens))
    ensures Heard(Finished(v, FeedAll(v, [], "", tokens))) == Letters(Flatten(tokens))
    ensures Heard(Finished(v, ([], Survives(v, [], "", tokens)))) == Letters(Flatten(tokens))
  {
    hide Plain, Letters, Heard, Finished, FeedAll, Survives, NeverOverflows, FitsRequests;
    ShortNeverOverflows(v, [], "", tokens);
    TokensMakeNoDifference(v, [], "", tokens);
    AllSurvivesExactly(v, [], "", tokens);
    assert "" + Flatten(tokens) == Flatten(tokens);
    PlainReplyIsHeard(v, Flatten(tokens));
  }
}

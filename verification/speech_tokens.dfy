/** Replies longer than the buffer: when it matters how a reply is cut into tokens, which `feed` of
    `StreamingSpeechSession` in ron/voice/speech.py takes one by one and cuts to the buffer.
 */
module SpeechTokens {
  import opened Common
  import opened SpeechText
  import opened SpeechSession

  // ---- what gets into the buffer

  lemma ReadyStays(v: Voice, said: seq<string>, text: string, longer: string)
    requires ValidVoice(v) && v.cloudLimit.Some? && Ready(v, said, text) && text <= longer
    ensures Ready(v, said, longer)
  {
    hide SentenceEnd, RequestsNeeded, Sentence, IsSpace;
    SentenceStays(text, longer[|text|..]);
    assert longer == text + longer[|text|..];
  }

  lemma HeldTwice(v: Voice, text: string, more: string)
    ensures Held(v, Held(v, text) + more) == Held(v, text + more) && Held(v, text) <= Held(v, text + more)
  {
    var held := Held(v, text);
    assert (text + more)[..|held|] == held;
    if |text| <= MaxPending(v) {
      assert held == text;
    }
  }

  lemma NothingDrains(v: Voice, said: seq<string>, pending: string)
    requires ValidVoice(v) && v.cloudLimit.Some? && !Ready(v, said, pending)
    ensures Drain(v, said, pending) == (said, pending)
  {
    hide Ready;
  }

  /** While no sentence can be said, the buffer only fills up. */
  lemma {:induction false} BufferFillsUp(v: Voice, said: seq<string>, pending: string, tokens: seq<string>)
    requires ValidVoice(v) && v.cloudLimit.Some? && |pending| <= MaxPending(v)
    requires !Ready(v, said, Held(v, pending + Flatten(tokens)))
    ensures pending + Survives(v, said, pending, tokens) == Held(v, pending + Flatten(tokens))
    decreases |tokens|
  {
    hide Ready, Drain, Held;
    if tokens == [] {
      assert pending + Flatten(tokens) == pending == pending + "";
      HeldIfFits(v, pending);
    } else if tokens[0] == "" {
      assert Flatten(tokens) == Flatten(tokens[1..]);
      BufferFillsUp(v, said, pending, tokens[1..]);
    } else {
      var text, more := pending + tokens[0], Flatten(tokens[1..]);
      var held := Held(v, text);
      assert pending + Flatten(tokens) == text + more;
      HeldTwice(v, text, more);
      if Ready(v, said, held) {
        ReadyStays(v, said, held, Held(v, text + more));
      }
      NothingDrains(v, said, held);
      BufferFillsUp(v, said, held, tokens[1..]);
      assert held[..|pending|] == pending;
      var later := Survives(v, said, held, tokens[1..]);
      assert pending + (held[|pending|..] + later) == held + later;
    }
  }

  lemma HeldIfFits(v: Voice, text: string)
    requires |text| <= MaxPending(v)
    ensures Held(v, text) == text
  {
  }

  /** Every cut of the text lets the same of it into the buffer. */
  ghost predicate SameTextHowever(v: Voice, said: seq<string>, pending: string, text: string)
    requires ValidVoice(v) && v.cloudLimit.Some? && |pending| <= MaxPending(v)
  {
    forall tokens: seq<string> | Flatten(tokens) == text ::
      Survives(v, said, pending, tokens) == Held(v, pending + text)[|pending|..]
  }

  /** Exactly when the cuts decide what gets into the buffer: when the text is longer than the buffer, and
      the first of it that fills the buffer has a sentence to be said. Cut there, the sentence leaves
      and makes room for more. */
  lemma CutsMatterExactly(v: Voice, said: seq<string>, pending: string, text: string)
    requires ValidVoice(v) && v.cloudLimit.Some? && |pending| <= MaxPending(v) && !Ready(v, said, pending)
    ensures SameTextHowever(v, said, pending, text) <==>
      |pending + text| <= MaxPending(v) || !Ready(v, said, Held(v, pending + text))
  {
    hide Ready, Survives, Drain, NeverOverflows;
    if |pending + text| <= MaxPending(v) {
      forall tokens: seq<string> | Flatten(tokens) == text
        ensures Survives(v, said, pending, tokens) == Held(v, pending + text)[|pending|..]
      {
        ShortNeverOverflows(v, said, pending, tokens);
        AllSurvivesExactly(v, said, pending, tokens);
        assert (pending + text)[|pending|..] == text;
      }
    } else if !Ready(v, said, Held(v, pending + text)) {
      forall tokens: seq<string> | Flatten(tokens) == text
        ensures Survives(v, said, pending, tokens) == Held(v, pending + text)[|pending|..]
      {
        BufferFillsUp(v, said, pending, tokens);
        var survivors := Survives(v, said, pending, tokens);
        assert (pending + survivors)[|pending|..] == survivors;
      }
    } else {
      var tokens := CutWhereItIsFull(v, said, pending, text);
    }
  }

  lemma CutWhereItIsFull(v: Voice, said: seq<string>, pending: string, text: string) returns (tokens: seq<string>)
    requires ValidVoice(v) && v.cloudLimit.Some? && |pending| <= MaxPending(v) < |pending + text|
    requires !Ready(v, said, pending) && Ready(v, said, Held(v, pending + text))
    ensures Flatten(tokens) == text
    ensures |pending| + |Survives(v, said, pending, tokens)| > MaxPending(v)
  {
    hide Ready, Drain, Survives;
    var room := MaxPending(v) - |pending|;
    var first, second := text[..room], text[room..];
    tokens := [first, second];
    var full := Held(v, pending + text);
    assert full == pending + first;
    assert first == "" ==> full == pending;
    DrainsSomething(v, said, full);
    SurvivesTwo(v, said, pending, first, second);
  }

  lemma DrainsSomething(v: Voice, said: seq<string>, pending: string)
    requires ValidVoice(v) && v.cloudLimit.Some? && Ready(v, said, pending)
    ensures |Drain(v, said, pending).1| < |pending|
  {
    hide RequestsNeeded, SaySentence, Sentence, SentenceEnd;
  }

  lemma SurvivesTwo(v: Voice, said: seq<string>, pending: string, first: string, second: string)
    requires ValidVoice(v) && v.cloudLimit.Some? && |pending + first| <= MaxPending(v) && first != "" && second != ""
    ensures Flatten([first, second]) == first + second
    ensures var (now, kept) := Drain(v, said, pending + first);
      Survives(v, said, pending, [first, second]) == first + Held(v, kept + second)[|kept|..]
  {
    hide Drain;
    var tokens := [first, second];
    assert tokens[1..] == [second];
    var held := Held(v, pending + first);
    assert held == pending + first && held[|pending|..] == first;
    var (now, kept) := Drain(v, said, held);
    SurvivesOne(v, now, kept, second);
  }

  lemma SurvivesOne(v: Voice, said: seq<string>, pending: string, token: string)
    requires ValidVoice(v) && v.cloudLimit.Some? && |pending| <= MaxPending(v) && token != ""
    ensures Flatten([token]) == token
    ensures Survives(v, said, pending, [token]) == Held(v, pending + token)[|pending|..]
  {
    hide Drain;
    assert [token][1..] == [] && token + "" == token;
    var held := Held(v, pending + token);
    assert held[|pending|..] + "" == held[|pending|..];
  }

  // ---- a reply that is heard differently

  /** A text that the regular expressions leave as it is. */
  const PLAIN: Cleaner := Cleaner(text => text, _ => false)

  const VOICE: Voice := Voice(PLAIN, 400, 120, Some(3))

  function Spaces(n: nat): (gap: string)
    ensures |gap| == n && forall k | 0 <= k < n :: gap[k] == ' '
  {
    seq(n, _ => ' ')
  }

  lemma {:induction false} LeftStripSpaces(n: nat, text: string)
    ensures LeftStrip(Spaces(n) + text) == LeftStrip(text)
  {
    if n == 0 {
      assert Spaces(0) + text == text;
    } else {
      LeftStripSpaces(n - 1, text);
      assert (Spaces(n) + text)[1..] == Spaces(n - 1) + text;
    }
  }

  /** One word, short enough for any request. */
  predicate Word(s: string) {
    0 < |s| <= 120 && forall k | 0 <= k < |s| :: !IsSpace(s[k])
  }

  lemma {:induction false} SpacedWord(s: string)
    requires forall k | 0 <= k < |s| :: !IsSpace(s[k])
    ensures Spaced(s) == s
  {
    hide IsSpace;
    if s != "" {
      SpacedWord(s[1..]);
    }
  }

  lemma WordIsPrepared(limit: nat, text: string, word: string)
    requires 120 <= limit <= 4_000 && Word(word) && Strip(text) == word
    ensures Prepare(PLAIN, limit, text) == word
  {
    hide IsSpace, Strip;
    SpacedWord(word);
    assert Strip(word) == word;
    assert Cleaned(PLAIN, text) == word;
  }

  lemma WordIsRequested(slots: nat, limit: nat, text: string, word: string)
    requires 1 <= slots <= 6 && 120 <= limit <= 4_000 && Word(word) && Strip(text) == word
    ensures Requests(VOICE, slots, limit, text) == [word]
  {
    hide IsSpace, Strip, Prepare, Tidy, Pieces;
    var budget := Min(limit, CloudChunk(VOICE) * slots);
    OneOrMore(slots, CloudChunk(VOICE));
    WordIsPrepared(budget, text, word);
    PrepareFits(PLAIN, budget, text);
    PiecesEnd(CloudChunk(VOICE), slots, word);
  }

  lemma WordIsSaid(said: seq<string>, word: string)
    requires Word(word) && |said| < 3 && Total(said) + 120 <= 400
    ensures EmitAll(VOICE, said, [word]) == said + [word]
  {
    hide IsSpace, Strip, Prepare, Emit;
    WordIsEmitted(said, word);
    assert [word][1..] == [];
  }

  lemma WordIsEmitted(said: seq<string>, word: string)
    requires Word(word) && |said| < 3 && Total(said) + 120 <= 400
    ensures Emit(VOICE, said, word) == said + [word]
  {
    hide Word, SpokenAs;
    WordIsSpoken(HardLimit(VOICE, said), word);
  }

  lemma WordIsSpoken(hardLimit: nat, word: string)
    requires Word(word) && 120 <= hardLimit <= 400
    ensures SpokenAs(VOICE, hardLimit, word) == word != ""
  {
    hide IsSpace, Strip, Prepare;
    assert Strip(word) == word;
    WordIsPrepared(FormatterLimit(VOICE), word, word);
    assert word[..|word|] == word && RightStrip(word) == word;
  }

  /** A greeting at the front of a text is said, and the white space after it is dropped. */
  lemma GreetingIsDrained(n: nat)
    requires n > 0
    ensures Drain(VOICE, [], "Hi." + Spaces(n)) == (["Hi."], "")
  {
    hide Prepare, Strip, Requests, EmitAll;
    var text := "Hi." + Spaces(n);
    assert EndsSentence(text, 3);
    assert SentenceEnd(text) == Some(3);
    assert text[..3] == "Hi." && text[3..] == Spaces(n) + "";
    LeftStripSpaces(n, "");
    TheWords();
    WordIsPrepared(FormatterLimit(VOICE), "Hi.", "Hi.");
    WordIsRequested(2, FormatterLimit(VOICE), "Hi.", "Hi.");
    WordIsSaid([], "Hi.");
    assert Sentence(text) == "Hi." && AfterSentence(text) == "";
    assert RequestsNeeded(VOICE, "Hi.") == 1;
    assert Ready(VOICE, [], text) && SaySentence(VOICE, [], "Hi.") == ["Hi."];
    assert !Ready(VOICE, ["Hi."], "");
    NothingDrains(VOICE, ["Hi."], "");
  }

  lemma TheWords()
    ensures Word("Hi.") && Strip("Hi.") == "Hi." && Word("bye") && Strip("bye") == "bye"
  {
  }

  /** With the white space between two sentences as long as the buffer, the second is said if it comes
      in a token of its own, and lost if the whole reply is one token. */
  lemma GapIsHeard() returns (one: seq<string>, two: seq<string>)
    ensures Flatten(one) == Flatten(two) && |one| == 1 && |two| == 2
    ensures Finished(VOICE, FeedAll(VOICE, [], "", one)) == ["Hi."]
    ensures Finished(VOICE, FeedAll(VOICE, [], "", two)) == ["Hi.", "bye"]
  {
    hide Drain, EmitRemainder;
    var late := Spaces(996) + "bye";
    one, two := [("Hi." + Spaces(1)) + late], ["Hi." + Spaces(1), late];
    assert one[1..] == [] && two[1..] == [late] && [late][1..] == [];
    assert Flatten([late]) == late + "" == late;
    assert Held(VOICE, "" + one[0]) == "Hi." + Spaces(997);
    GreetingIsDrained(997);
    GreetingIsDrained(1);
    assert Held(VOICE, "" + two[0]) == "Hi." + Spaces(1);
    assert Held(VOICE, "" + late) == late;
    LastWordIsSaid(late);
    NothingLeft();
    FeedsTwo(two);
  }

  lemma FeedsTwo(two: seq<string>)
    requires |two| == 2 && two[0] != "" && two[1] != ""
    ensures var first := Drain(VOICE, [], Held(VOICE, "" + two[0]));
      FeedAll(VOICE, [], "", two) == Drain(VOICE, first.0, Held(VOICE, first.1 + two[1]))
  {
    hide Drain;
    assert two[1..] == [two[1]];
    var first := Drain(VOICE, [], Held(VOICE, "" + two[0]));
    FeedsOne(first.0, first.1, two[1]);
  }

  lemma FeedsOne(said: seq<string>, pending: string, token: string)
    requires token != ""
    ensures FeedAll(VOICE, said, pending, [token]) == Drain(VOICE, said, Held(VOICE, pending + token))
  {
    hide Drain;
    assert [token][1..] == [];
  }

  lemma NothingLeft()
    ensures Finished(VOICE, (["Hi."], "")) == ["Hi."]
  {
  }

  lemma LastWordIsSaid(late: string)
    requires late == Spaces(996) + "bye"
    ensures Drain(VOICE, ["Hi."], late) == (["Hi."], late)
    ensures EmitRemainder(VOICE, ["Hi."], late) == ["Hi.", "bye"]
  {
    hide Prepare, Requests, EmitAll, IsSpace;
    LeftStripSpaces(996, "bye");
    TheWords();
    assert Strip(late) == "bye" && SentenceEnd(late).None?;
    assert Total(["Hi."]) == 3;
    WordIsRequested(2, 240, late, "bye");
    WordIsSaid(["Hi."], "bye");
  }
}

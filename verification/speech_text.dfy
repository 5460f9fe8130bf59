/** Text made ready to be spoken: `SpeechTextFormatter` in ron/voice/speech.py.

    The regular expressions that clean a text are one arbitrary function; what is done with the
    cleaned text, collapsing its whitespace, clipping it and cutting it into requests, is exact.
 */
module SpeechText {
  import opened Common

  const MAX_REQUEST_CHARACTERS: nat := 200

  // ---- strings as the program handles them

  /** White space, as `str.strip` and `\s` see it. */
  predicate IsSpace(c: char) {
    || '\t' <= c <= '\r' || '\U{1C}' <= c <= ' ' || c == '\U{85}' || c == '\U{A0}' || c == '\U{1680}'
    || '\U{2000}' <= c <= '\U{200A}' || '\U{2028}' <= c <= '\U{2029}' || c == '\U{202F}' || c == '\U{205F}'
      || c == '\U{3000}'
  }

  function LeftStrip(s: string): (r: string)
    ensures |r| <= |s| && (r != "" ==> !IsSpace(r[0]))
  {
    if s != "" && IsSpace(s[0]) then LeftStrip(s[1..]) else s
  }

  function RightStrip(s: string): (r: string)
    ensures r <= s && forall k | |r| <= k < |s| :: IsSpace(s[k])
    ensures r != "" ==> !IsSpace(r[|r| - 1])
  {
    if s != "" && IsSpace(s[|s| - 1]) then RightStrip(s[..|s| - 1]) else s
  }

  function Strip(s: string): (r: string)
    ensures |r| <= |s|
    ensures r != "" ==> !IsSpace(r[0]) && !IsSpace(r[|r| - 1])
    ensures s != "" && !IsSpace(s[0]) && !IsSpace(s[|s| - 1]) ==> r == s
  {
    RightStrip(LeftStrip(s))
  }

  /** Where the last of some marks with a space behind it stands: the greatest `rfind` of them. */
  function LastMark(s: string, marks: string): (at: int)
    ensures at == -1 || (0 <= at < |s| - 1 && s[at] in marks && s[at + 1] == ' ')
    ensures forall k | 0 <= k < |s| - 1 && s[k] in marks && s[k + 1] == ' ' :: k <= at
  {
    if |s| < 2 then -1
    else if s[|s| - 2] in marks && s[|s| - 1] == ' ' then |s| - 2
    else LastMark(s[..|s| - 1], marks)
  }

  /** `rfind(" ")`. */
  function LastSpace(s: string): (at: int)
    ensures at == -1 || (0 <= at < |s| && s[at] == ' ')
    ensures forall k | 0 <= k < |s| && s[k] == ' ' :: k <= at
  {
    if s == "" then -1 else if s[|s| - 1] == ' ' then |s| - 1 else LastSpace(s[..|s| - 1])
  }

  /** Every run of whitespace made one space. */
  function Spaced(s: string): string
    decreases |s|
  {
    if s == "" then "" else if IsSpace(s[0]) then " " + Spaced(LeftStrip(s[1..])) else [s[0]] + Spaced(s[1..])
  }

  /** Words with single spaces between them and nothing around. */
  predicate Tidy(s: string) {
    && (forall k | 0 <= k < |s| :: IsSpace(s[k]) ==> s[k] == ' ' && 0 < k < |s| - 1)
    && (forall j, k | 0 <= j < |s| && 0 <= k < |s| && k == j + 1 :: s[j] == ' ' ==> s[k] != ' ')
  }

  /** Single spaces, perhaps one at either end. */
  predicate SingleSpaced(s: string) {
    && (forall k | 0 <= k < |s| :: IsSpace(s[k]) ==> s[k] == ' ')
    && (forall j, k | 0 <= j < |s| && 0 <= k < |s| && k == j + 1 :: s[j] == ' ' ==> s[k] != ' ')
  }

  lemma {:induction false} SpacedIsSingleSpaced(s: string)
    ensures SingleSpaced(Spaced(s))
    ensures s != "" && !IsSpace(s[0]) ==> Spaced(s) != "" && Spaced(s)[0] == s[0]
    decreases |s|
  {
    if s != "" {
      SpacedIsSingleSpaced(if IsSpace(s[0]) then LeftStrip(s[1..]) else s[1..]);
    }
  }

  lemma SliceIsTidy(s: string, i: nat, j: nat)
    requires SingleSpaced(s) && i <= j <= |s| && (i < j ==> !IsSpace(s[i]) && !IsSpace(s[j - 1]))
    ensures Tidy(s[i..j])
  {
    assert IsSpace(' ');
    hide IsSpace;
    var r := s[i..j];
    assert forall k | 0 <= k < |r| :: r[k] == s[i + k];
  }

  lemma SuffixIsSingleSpaced(s: string, k: nat)
    requires SingleSpaced(s) && k <= |s|
    ensures SingleSpaced(s[k..])
  {
    hide IsSpace;
  }

  /** What stripping takes off in front is white space. */
  lemma {:induction false} LeftStripIsSuffix(s: string)
    ensures LeftStrip(s) == s[|s| - |LeftStrip(s)|..] && forall k | 0 <= k < |s| - |LeftStrip(s)| :: IsSpace(s[k])
  {
    hide IsSpace;
    if s != "" && IsSpace(s[0]) {
      LeftStripIsSuffix(s[1..]);
    }
  }

  lemma StripTidies(s: string)
    requires SingleSpaced(s)
    ensures Tidy(Strip(s))
  {
    hide IsSpace, Tidy, SingleSpaced;
    var left := LeftStrip(s);
    LeftStripIsSuffix(s);
    SuffixIsSingleSpaced(s, |s| - |left|);
    var right := RightStrip(left);
    assert right == left[0..|right|];
    SliceIsTidy(left, 0, |right|);
  }

  /** A text without its white space. */
  function Letters(s: string): string {
    if s == "" then "" else if IsSpace(s[0]) then Letters(s[1..]) else [s[0]] + Letters(s[1..])
  }

  /** No letter is lost, none is added. */
  lemma {:induction false} LettersAreAllButSpace(s: string, c: char)
    ensures multiset(Letters(s))[c] == if IsSpace(c) then 0 else multiset(s)[c]
  {
    hide IsSpace;
    if s != "" {
      LettersAreAllButSpace(s[1..], c);
      assert s == [s[0]] + s[1..];
    }
  }

  /** Behind so many letters there is white space. */
  predicate Gap(s: string, n: nat) {
    exists i :: 0 <= i < |s| && IsSpace(s[i]) && |Letters(s[..i])| == n
  }

  /** The same letters, and white space between the same two of them. */
  ghost predicate SameWords(a: string, b: string) {
    Letters(a) == Letters(b) && forall n | 0 < n < |Letters(a)| :: Gap(a, n) <==> Gap(b, n)
  }

  lemma FirstLetter(s: string)
    requires s != ""
    ensures Letters(s) == if IsSpace(s[0]) then Letters(s[1..]) else [s[0]] + Letters(s[1..])
  {
  }

  lemma GapBehindFirst(s: string, n: nat)
    requires s != ""
    ensures Letters(s) == if IsSpace(s[0]) then Letters(s[1..]) else [s[0]] + Letters(s[1..])
    ensures IsSpace(s[0]) ==> (Gap(s, n) <==> n == 0 || Gap(s[1..], n))
    ensures !IsSpace(s[0]) ==> (Gap(s, n) <==> n > 0 && Gap(s[1..], n - 1))
  {
    hide IsSpace;
    var m := if IsSpace(s[0]) then n else n - 1;
    assert s[..0] == "";
    if Gap(s, n) {
      var i :| 0 <= i < |s| && IsSpace(s[i]) && |Letters(s[..i])| == n;
      if i > 0 {
        LettersOfSlice(s, i);
        assert IsSpace(s[1..][i - 1]) && |Letters(s[1..][..i - 1])| == m;
      }
    }
    if IsSpace(s[0]) && n == 0 {
      assert IsSpace(s[0]) && |Letters(s[..0])| == n;
    } else if m >= 0 && Gap(s[1..], m) {
      var i :| 0 <= i < |s[1..]| && IsSpace(s[1..][i]) && |Letters(s[1..][..i])| == m;
      LettersOfSlice(s, i + 1);
      assert IsSpace(s[i + 1]) && |Letters(s[..i + 1])| == n;
    }
  }

  lemma LettersOfSlice(s: string, i: nat)
    requires 0 < i <= |s|
    ensures |Letters(s[..i])| == |Letters(s[1..][..i - 1])| + if IsSpace(s[0]) then 0 else 1
  {
    hide IsSpace;
    assert s[..i][1..] == s[1..][..i - 1];
  }

  lemma {:induction false} LeftStripKeeps(s: string)
    ensures Letters(LeftStrip(s)) == Letters(s)
    ensures forall n | n > 0 :: Gap(LeftStrip(s), n) <==> Gap(s, n)
  {
    hide IsSpace, Gap;
    if s != "" && IsSpace(s[0]) {
      LeftStripKeeps(s[1..]);
      forall n | n > 0 ensures Gap(LeftStrip(s), n) <==> Gap(s, n) {
        GapBehindFirst(s, n);
      }
    }
  }

  /** Making every run of white space one space changes no letter and no gap. */
  lemma {:induction false} SpacedKeeps(s: string)
    ensures Letters(Spaced(s)) == Letters(s) && forall n :: Gap(Spaced(s), n) <==> Gap(s, n)
    decreases |s|
  {
    hide IsSpace, Gap;
    if s != "" {
      assert IsSpace(' ') by { SpaceIsSpace(); }
      var rest := if IsSpace(s[0]) then LeftStrip(s[1..]) else s[1..];
      SpacedKeeps(rest);
      LeftStripKeeps(s[1..]);
      assert Spaced(s) == [Spaced(s)[0]] + Spaced(rest) && Spaced(s)[1..] == Spaced(rest);
      forall n: nat ensures Letters(Spaced(s)) == Letters(s) && (Gap(Spaced(s), n) <==> Gap(s, n)) {
        GapBehindFirst(s, n);
        GapBehindFirst(Spaced(s), n);
      }
      assert Letters(Spaced(s)) == Letters(s) by {
        GapBehindFirst(s, 0);
        GapBehindFirst(Spaced(s), 0);
      }
    }
  }

  lemma SpaceIsSpace()
    ensures IsSpace(' ')
  {
  }

  lemma {:induction false} LettersAppend(a: string, b: string)
    ensures Letters(a + b) == Letters(a) + Letters(b)
  {
    hide IsSpace, Letters;
    if a == "" {
      NoLetters(a);
      assert a + b == b;
    } else {
      LettersAppend(a[1..], b);
      FirstLetter(a);
      FirstLetter(a + b);
      assert (a + b)[1..] == a[1..] + b;
    }
  }

  lemma GapStays(r: string, s: string, n: nat)
    requires r <= s && Gap(r, n)
    ensures Gap(s, n)
  {
    hide IsSpace, Letters;
    var i :| 0 <= i < |r| && IsSpace(r[i]) && |Letters(r[..i])| == n;
    assert s[..i] == r[..i] && s[i] == r[i];
  }

  lemma GapBeforeEnd(r: string, s: string, n: nat)
    requires r <= s && Letters(s[|r|..]) == "" && n < |Letters(s)| && Gap(s, n)
    ensures Gap(r, n)
  {
    hide IsSpace, Letters;
    var i :| 0 <= i < |s| && IsSpace(s[i]) && |Letters(s[..i])| == n;
    if i >= |r| {
      AllLettersBefore(s, |r|, i);
    }
    assert s[..i] == r[..i] && s[i] == r[i];
  }

  lemma AllLettersBefore(s: string, end: nat, i: nat)
    requires end <= i <= |s| && Letters(s[end..]) == ""
    ensures |Letters(s[..i])| == |Letters(s)|
  {
    hide IsSpace, Letters;
    LettersAppend(s[..i], s[i..]);
    LettersAppend(s[end..i], s[i..]);
    assert s == s[..i] + s[i..] && s[end..] == s[end..i] + s[i..];
  }

  /** White space at the end is no gap between letters. */
  lemma PrefixKeeps(s: string, r: string)
    requires r <= s && forall k | |r| <= k < |s| :: IsSpace(s[k])
    ensures Letters(r) == Letters(s) && forall n: nat | n < |Letters(s)| :: Gap(r, n) <==> Gap(s, n)
  {
    hide IsSpace, Letters, Gap;
    NoLetters(s[|r|..]);
    assert s == r + s[|r|..];
    LettersAppend(r, s[|r|..]);
    forall n: nat | n < |Letters(s)| ensures Gap(r, n) <==> Gap(s, n) {
      if Gap(r, n) {
        GapStays(r, s, n);
      }
      if Gap(s, n) {
        GapBeforeEnd(r, s, n);
      }
    }
  }

  lemma {:induction false} NoLetters(s: string)
    requires forall k | 0 <= k < |s| :: IsSpace(s[k])
    ensures Letters(s) == ""
  {
    hide IsSpace;
    if s != "" {
      NoLetters(s[1..]);
    }
  }

  lemma StripKeeps(s: string)
    ensures SameWords(Strip(s), s)
  {
    hide IsSpace, Gap, LeftStrip, RightStrip;
    LeftStripKeeps(s);
    PrefixKeeps(LeftStrip(s), RightStrip(LeftStrip(s)));
  }

  // ---- prepare

  /** What the regular expressions make of a text, and whether it held a code block. */
  datatype Cleaner = Cleaner(clean: string -> string, hadCode: string -> bool)

  function Cleaned(c: Cleaner, text: string): (value: string)
    ensures Tidy(value)
  {
    if Strip(text) == "" then ""
    else
      SpacedIsSingleSpaced(c.clean(Strip(text)));
      StripTidies(Spaced(c.clean(Strip(text))));
      Strip(Spaced(c.clean(Strip(text))))
  }

  /** Cleaning leaves the words that the regular expressions leave, one space between any two. */
  lemma CleanedKeepsTheWords(c: Cleaner, text: string)
    ensures Tidy(Cleaned(c, text))
    ensures SameWords(Cleaned(c, text), if Letters(text) == "" then "" else c.clean(Strip(text)))
  {
    hide IsSpace, Gap, Spaced, LeftStrip, RightStrip, Tidy;
    StripKeeps(text);
    if Strip(text) != "" {
      assert Letters(Strip(text)) != "" by {
        GapBehindFirst(Strip(text), 0);
      }
      var raw := c.clean(Strip(text));
      SpacedKeeps(raw);
      StripKeeps(Spaced(raw));
    }
  }

  const REST := "I've put the rest in the terminal."
  const REST_AFTER_CODE := "The rest is in the terminal."

  /** The note about the rest, said after a space. */
  function Note(c: Cleaner, text: string): string {
    if c.hadCode(Strip(text)) then REST_AFTER_CODE else REST
  }

  function ContentLimit(maximum: nat, note: string): nat {
    if maximum > |note| + 3 then maximum - (1 + |note|) - 1 else 1
  }

  predicate Trailing(c: char) {
    c in {' ', ',', ';', ':', '-'}
  }

  /** `rstrip` of the marks that would dangle before a full stop. */
  function StripTrailing(s: string): (r: string)
    ensures r <= s && (r != "" ==> !Trailing(r[|r| - 1]))
  {
    if s != "" && Trailing(s[|s| - 1]) then StripTrailing(s[..|s| - 1]) else s
  }

  /** A text over its limit, up to a late enough sentence end or else the last word. */
  function Clipped(value: string, limit: nat): string {
    var clipped := RightStrip(value[..if limit < |value| then limit else |value|]);
    var sentenceEnd := LastMark(clipped, ".?!");
    if sentenceEnd >= limit * 55 / 100 then RightStrip(clipped[..sentenceEnd + 1])
    else ClippedWords(clipped) + "."
  }

  function Prepare(c: Cleaner, maximum: nat, text: string): string
    requires 120 <= maximum <= 4_000
  {
    var value, note := Cleaned(c, text), Note(c, text);
    if |value| <= maximum then value else Strip(Clipped(value, ContentLimit(maximum, note)) + (" " + note))
  }

  lemma TidyPrefix(value: string, part: string)
    requires Tidy(value) && part <= value && (part != "" ==> part[|part| - 1] != ' ')
    ensures Tidy(part) && Tidy(part + ".")
  {
    assert !IsSpace('.');
    hide IsSpace;
    assert forall k | 0 <= k < |part| :: part[k] == value[k];
  }

  lemma TidyJoin(a: string, b: string)
    requires Tidy(a) && Tidy(b) && a != "" && b != ""
    ensures Tidy(a + (" " + b))
  {
    assert IsSpace(' ');
    hide IsSpace;
    var joined := a + (" " + b);
    assert forall k | 0 <= k < |a| :: joined[k] == a[k];
    assert joined[|a|] == ' ';
    assert forall k | |a| < k < |joined| :: joined[k] == b[k - |a| - 1];
  }

  lemma StripOfTidy(s: string)
    requires Tidy(s)
    ensures Strip(s) == s
  {
  }

  lemma NoteIsTidy(c: Cleaner, text: string)
    ensures Tidy(Note(c, text)) && 28 <= |Note(c, text)| <= 34
    ensures Note(c, text) ==
      if c.hadCode(Strip(text)) then "The rest is in the terminal." else "I've put the rest in the terminal."
  {
    hide IsSpace, Tidy, Strip, Letter;
    RestIsTidy();
    RestAfterCodeIsTidy();
  }

  lemma RestIsTidy()
    ensures Tidy(REST)
  {
    hide IsSpace, Tidy;
    NoteWords(REST);
  }

  lemma RestAfterCodeIsTidy()
    ensures Tidy(REST_AFTER_CODE)
  {
    hide IsSpace, Tidy;
    NoteWords(REST_AFTER_CODE);
  }

  predicate Letter(c: char) {
    'A' <= c <= 'z' || c == '.' || c == '\''
  }

  lemma NoteWords(note: string)
    requires forall k | 0 <= k < |note| :: Letter(note[k]) || note[k] == ' '
    requires forall k | 0 <= k < |note| && note[k] == ' ' :: 0 < k < |note| - 1 && note[k + 1] != ' '
    ensures Tidy(note)
  {
    assert forall k | 0 <= k < |note| && IsSpace(note[k]) :: !Letter(note[k]);
    hide IsSpace;
  }

  /** What is kept before the full stop that closes a clip. */
  function ClippedWords(clipped: string): string {
    var space := LastSpace(clipped);
    StripTrailing(if space == -1 then clipped else clipped[..space])
  }

  lemma WordsArePrefix(clipped: string)
    ensures ClippedWords(clipped) <= clipped
    ensures ClippedWords(clipped) != "" ==> ClippedWords(clipped)[|ClippedWords(clipped)| - 1] != ' '
  {
  }

  lemma SentenceIsPrefix(clipped: string, end: nat)
    requires end < |clipped| && !IsSpace(clipped[0])
    ensures var sentence := RightStrip(clipped[..end + 1]);
            sentence <= clipped && sentence != "" && sentence[|sentence| - 1] != ' '
  {
  }

  /** Clipping keeps a beginning of the text, closed with a full stop of its own if need be. */
  lemma ClippedIsTidy(value: string, limit: nat)
    requires Tidy(value) && 0 < limit < |value|
    ensures var clipped := Clipped(value, limit);
      && 0 < |clipped| <= limit + 1 && Tidy(clipped)
      && (clipped <= value || (clipped[..|clipped| - 1] <= value && clipped[|clipped| - 1] == '.'))
  {
    var whole := RightStrip(value[..limit]);
    var sentenceEnd := LastMark(whole, ".?!");
    assert whole <= value && !IsSpace(value[0]);
    hide Tidy, ClippedWords, RightStrip, LastMark;
    if sentenceEnd >= limit * 55 / 100 {
      SentenceIsPrefix(whole, sentenceEnd);
      TidyPrefix(value, RightStrip(whole[..sentenceEnd + 1]));
    } else {
      WordsArePrefix(whole);
      TidyPrefix(value, ClippedWords(whole));
    }
  }

  /** How much of a text may be kept: up to the limit, without a space at the end. */
  function Room(value: string, limit: nat): (room: nat)
    requires 0 < limit <= |value|
  {
    if value[limit - 1] == ' ' then limit - 1 else limit
  }

  /** A sentence ends here, late enough to end the clip and with more behind it. */
  predicate EndsLate(value: string, limit: nat, k: int) {
    limit * 55 / 100 <= k && 0 <= k < limit - 2 < |value| && value[k] in ".?!" && value[k + 1] == ' '
  }

  /** Behind this much of the text come only marks that would dangle, and then, where there is a space,
      the last word, perhaps cut. */
  predicate AllButLastWord(whole: string, kept: nat) {
    && kept <= |whole| && (kept > 0 ==> !Trailing(whole[kept - 1]))
    && (forall k | kept <= k < LastSpace(whole) :: Trailing(whole[k]))
    && (LastSpace(whole) == -1 ==> forall k | kept <= k < |whole| :: Trailing(whole[k]))
    && (LastSpace(whole) != -1 ==> kept <= LastSpace(whole))
  }

  /** A clip keeps all it can: it ends with the last sentence that ends late enough, and if there is none
      it keeps all words but the last, and closes with a full stop. */
  lemma ClipKeepsAllItCan(value: string, limit: nat)
    requires Tidy(value) && 0 < limit < |value|
    ensures forall k | EndsLate(value, limit, k) && (forall j | EndsLate(value, limit, j) :: j <= k) ::
      Clipped(value, limit) == value[..k + 1]
    ensures (forall k :: !EndsLate(value, limit, k)) ==>
      exists kept :: 0 <= kept <= limit && Clipped(value, limit) == value[..kept] + "."
        && AllButLastWord(value[..Room(value, limit)], kept)
  {
    hide IsSpace, Tidy, RightStrip, LastMark, LastSpace, ClippedWords, AllButLastWord;
    var whole := value[..Room(value, limit)];
    WholeIsStripped(value, limit);
    var at := LastMark(whole, ".?!");
    forall k | EndsLate(value, limit, k) ensures k <= at {
      MarkIsInside(value, limit, k);
    }
    if at >= limit * 55 / 100 {
      assert EndsLate(value, limit, at);
      assert whole[..at + 1] == value[..at + 1];
      NothingBehindMark(value[..at + 1]);
    } else {
      WordsKept(whole);
      var kept := |ClippedWords(whole)|;
      assert ClippedWords(whole) == value[..kept] && 0 <= kept <= limit;
    }
  }

  lemma WholeIsStripped(value: string, limit: nat)
    requires Tidy(value) && 0 < limit < |value|
    ensures RightStrip(value[..limit]) == value[..Room(value, limit)]
  {
    var front := value[..limit];
    if value[limit - 1] == ' ' {
      assert IsSpace(' ') && !IsSpace(value[limit - 2]);
      assert front[..limit - 1] == value[..limit - 1];
    }
  }

  lemma NothingBehindMark(s: string)
    requires s != "" && s[|s| - 1] in ".?!"
    ensures RightStrip(s) == s
  {
  }

  lemma MarkIsInside(value: string, limit: nat, k: int)
    requires Tidy(value) && 0 < limit < |value| && EndsLate(value, limit, k)
    ensures var whole := value[..Room(value, limit)]; k + 1 < |whole| && whole[k] in ".?!" && whole[k + 1] == ' '
  {
    hide IsSpace;
  }

  lemma WordsKept(whole: string)
    ensures ClippedWords(whole) <= whole && AllButLastWord(whole, |ClippedWords(whole)|)
  {
    var space := LastSpace(whole);
    var words := if space == -1 then whole else whole[..space];
    StrippedMarks(words);
  }

  lemma {:induction false} StrippedMarks(s: string)
    ensures forall k | |StripTrailing(s)| <= k < |s| :: Trailing(s[k])
  {
    if s != "" && Trailing(s[|s| - 1]) {
      StrippedMarks(s[..|s| - 1]);
    }
  }

  /** A prepared text is tidy, never over its limit, and either the whole cleaned text or the
      beginning of it with the note about the rest; it is empty only if nothing was left to say. */
  lemma PrepareFits(c: Cleaner, maximum: nat, text: string)
    requires 120 <= maximum <= 4_000
    ensures var spoken, value, note := Prepare(c, maximum, text), Cleaned(c, text), Note(c, text);
      && Tidy(spoken) && |spoken| <= maximum
      && (spoken == "" <==> value == "")
      && (|value| <= maximum ==> spoken == value)
      && |note| + 2 < maximum && (|value| > maximum ==> spoken == Clipped(value, maximum - |note| - 2) + (" " + note))
  {
    hide Tidy, Strip, Clipped, Cleaned, Note;
    var value, note := Cleaned(c, text), Note(c, text);
    NoteIsTidy(c, text);
    if |value| > maximum {
      var clipped := Clipped(value, ContentLimit(maximum, note));
      ClippedIsTidy(value, ContentLimit(maximum, note));
      TidyJoin(clipped, note);
      StripOfTidy(clipped + (" " + note));
    }
  }

  // ---- requests to the cloud voice

  /** Where the window is cut: after a late sentence, after a late clause, between words, or through a word. */
  function CutAt(pending: string, target: nat): (cut: nat)
    requires 120 <= target < |pending| && Tidy(pending)
    ensures 0 < cut <= target
    ensures pending[cut] != ' ' ==> cut == target && ' ' !in pending[..target + 1]
  {
    var window := pending[..target + 1];
    var sentenceCut := LastMark(window, ".?!");
    var late := if sentenceCut >= target / 2 then sentenceCut + 1 else LastMark(window, ",;:") + 1;
    var cut := if late < target / 2 then LastSpace(window) else late;
    assert !IsSpace(pending[0]);
    if cut <= 0 then target else cut
  }

  lemma StripAfterSpace(spaced: string)
    requires |spaced| > 1 && spaced[0] == ' ' && Tidy(spaced[1..])
    ensures Strip(spaced) == spaced[1..]
  {
    var s := spaced[1..];
    assert IsSpace(' ') && !IsSpace(s[0]) && !IsSpace(s[|s| - 1]);
    hide Tidy, IsSpace;
    assert LeftStrip(spaced) == LeftStrip(s) == s;
  }

  lemma TidyParts(pending: string, cut: nat)
    requires Tidy(pending) && 0 < cut < |pending| && pending[cut - 1] != ' '
    ensures Tidy(pending[..cut])
    ensures pending[cut] != ' ' ==> Tidy(pending[cut..])
    ensures pending[cut] == ' ' ==> cut + 1 < |pending| && Tidy(pending[cut + 1..])
  {
    assert IsSpace(' ');
    assert pending[..cut] == pending[0..cut] && pending[cut..] == pending[cut..|pending|];
    assert pending[cut + 1..] == pending[cut + 1..|pending|];
    hide IsSpace;
    SliceIsTidy(pending, 0, cut);
    if pending[cut] != ' ' {
      SliceIsTidy(pending, cut, |pending|);
    } else {
      SliceIsTidy(pending, cut + 1, |pending|);
    }
  }

  lemma NoSpaceBefore(s: string, k: nat)
    requires Tidy(s) && 0 < k < |s| && s[k] == ' '
    ensures s[k - 1] != ' '
  {
  }

  lemma CutAtSpace(pending: string, cut: nat)
    requires Tidy(pending) && 0 < cut < |pending| && pending[cut] == ' '
    ensures cut + 1 < |pending| && Strip(pending[..cut]) == pending[..cut]
      && Strip(pending[cut..]) == pending[cut + 1..]
    ensures Tidy(pending[..cut]) && Tidy(pending[cut + 1..])
  {
    hide Tidy, IsSpace, Strip;
    NoSpaceBefore(pending, cut);
    TidyParts(pending, cut);
    StripOfTidy(pending[..cut]);
    assert pending[cut..][1..] == pending[cut + 1..];
    StripAfterSpace(pending[cut..]);
  }

  lemma CutThroughWord(pending: string, cut: nat)
    requires Tidy(pending) && 0 < cut < |pending| && pending[cut] != ' ' && ' ' !in pending[..cut]
    ensures Strip(pending[..cut]) == pending[..cut] && Strip(pending[cut..]) == pending[cut..]
    ensures Tidy(pending[..cut]) && Tidy(pending[cut..])
  {
    hide Tidy, IsSpace, Strip;
    assert pending[cut - 1] in pending[..cut];
    TidyParts(pending, cut);
    StripOfTidy(pending[..cut]);
    StripOfTidy(pending[cut..]);
  }

  datatype Cut = Cut(first: string, rest: string, spaced: bool)

  /** One round of cutting: what is said next, what is left, and whether a space stood between them. */
  function CutOff(pending: string, target: nat): (cut: Cut)
    requires 120 <= target < |pending| && Tidy(pending)
    ensures Tidy(cut.first) && cut.first != "" && |cut.first| <= target
    ensures Tidy(cut.rest) && cut.rest != ""
    ensures pending == cut.first + (if cut.spaced then " " + cut.rest else cut.rest)
    ensures !cut.spaced ==> ' ' !in pending[..target + 1]
  {
    var at := CutAt(pending, target);
    CutIsTidy(pending, target, at);
    Cut(Strip(pending[..at]), Strip(pending[at..]), pending[at] == ' ')
  }

  /** A cut leaves two tidy, non-empty parts, with nothing but at most one space lost between them. */
  lemma CutIsTidy(pending: string, target: nat, at: nat)
    requires 0 < at <= target < |pending| && Tidy(pending)
    requires pending[at] != ' ' ==> ' ' !in pending[..target + 1]
    ensures var before, after := Strip(pending[..at]), Strip(pending[at..]);
      && before == pending[..at] && before != "" && Tidy(before) && Tidy(after) && after != ""
      && pending == before + (if pending[at] == ' ' then " " + after else after)
  {
    hide Tidy, Strip;
    assert pending[..at] <= pending[..target + 1];
    assert pending == pending[..at] + pending[at..];
    if pending[at] == ' ' {
      CutAtSpace(pending, at);
      assert pending[at..] == [' '] + pending[at + 1..];
    } else {
      CutThroughWord(pending, at);
    }
  }

  /** One of the marks with a space behind it, within the window. */
  predicate Mark(pending: string, marks: string, k: int, target: nat) {
    0 <= k < target < |pending| && pending[k] in marks && pending[k + 1] == ' '
  }

  ghost predicate LastOf(pending: string, marks: string, k: int, target: nat) {
    Mark(pending, marks, k, target) && forall j | Mark(pending, marks, j, target) :: j <= k
  }

  ghost predicate NoLateMark(pending: string, marks: string, from: int, target: nat) {
    forall k | Mark(pending, marks, k, target) :: k < from
  }

  /** Where the cut is: behind the last sentence if that ends late enough; else behind the last clause if
      that ends late enough; else at the last space; else through the word. */
  lemma CutAtExactly(pending: string, target: nat, k: int)
    requires 120 <= target < |pending| && Tidy(pending)
    ensures LastOf(pending, ".?!", k, target) && k >= target / 2 ==> CutAt(pending, target) == k + 1
    ensures NoLateMark(pending, ".?!", target / 2, target) && LastOf(pending, ",;:", k, target) && k + 1 >= target / 2
      ==> CutAt(pending, target) == k + 1
    ensures NoLateMark(pending, ".?!", target / 2, target) && NoLateMark(pending, ",;:", target / 2 - 1, target)
      && 0 <= k <= target && pending[k] == ' ' && ' ' !in pending[k + 1..target + 1]
      ==> CutAt(pending, target) == k
    ensures ' ' !in pending[..target + 1] ==> CutAt(pending, target) == target
  {
    hide IsSpace, Tidy;
    var window := pending[..target + 1];
    LastMarkIs(pending, ".?!", target);
    LastMarkIs(pending, ",;:", target);
    if 0 <= k <= target && pending[k] == ' ' && ' ' !in pending[k + 1..target + 1] {
      assert window[k] == ' ';
    }
  }

  lemma LastMarkIs(pending: string, marks: string, target: nat)
    requires target < |pending|
    ensures var at := LastMark(pending[..target + 1], marks);
      (at == -1 && NoLateMark(pending, marks, 0, target)) || LastOf(pending, marks, at, target)
  {
    var window := pending[..target + 1];
    var at := LastMark(window, marks);
    forall k | Mark(pending, marks, k, target) ensures k <= at {
      assert window[k] in marks && window[k + 1] == ' ';
    }
  }

  /** A sentence that ends in the second half of the window is cut after, and after the last such sentence. */
  lemma CutsAfterTheLastLateSentence(pending: string, target: nat, k: nat)
    requires 120 <= target < |pending| && Tidy(pending)
    requires target / 2 <= k < target && pending[k] in ".?!" && pending[k + 1] == ' '
    ensures var at := CutAt(pending, target); k < at && pending[at - 1] in ".?!" && pending[at] == ' '
  {
    assert pending[..target + 1][k] in ".?!" && pending[..target + 1][k + 1] == ' ';
  }

  /** A prepared text cut into at most so many parts, all but the last within the target. */
  function Pieces(target: nat, slots: nat, pending: string): seq<string>
    requires 120 <= target && Tidy(pending)
    decreases slots
  {
    if pending == "" || slots == 0 then []
    else if slots == 1 || |pending| <= target then [pending]
    else
      var cut := CutOff(pending, target);
      [cut.first] + Pieces(target, slots - 1, cut.rest)
  }

  lemma PiecesEnd(target: nat, slots: nat, pending: string)
    requires 120 <= target && Tidy(pending)
    ensures pending == "" || slots == 0 ==> Pieces(target, slots, pending) == []
    ensures pending != "" && (slots == 1 || (slots > 0 && |pending| <= target)) ==>
      Pieces(target, slots, pending) == [pending]
  {
  }

  lemma PiecesStep(target: nat, slots: nat, pending: string)
    requires 120 <= target < |pending| && slots > 1 && Tidy(pending)
    ensures var cut := CutOff(pending, target);
            Pieces(target, slots, pending) == [cut.first] + Pieces(target, slots - 1, cut.rest)
  {
    hide Tidy, CutOff;
  }

  /** The requests: the parts, the last one clipped if it is too long. */
  function CloudChunks(c: Cleaner, target: nat, slots: nat, pending: string): seq<string>
    requires 120 <= target <= MAX_REQUEST_CHARACTERS && Tidy(pending)
  {
    var pieces := Pieces(target, slots, pending);
    if pieces == [] || |Last(pieces)| <= target then pieces
    else pieces[..|pieces| - 1] + [Prepare(c, target, Last(pieces))]
  }

  function Last<T>(s: seq<T>): T
    requires s != []
  {
    s[|s| - 1]
  }

  lemma {:induction false} PiecesFit(target: nat, slots: nat, pending: string)
    requires 120 <= target && Tidy(pending)
    ensures var pieces := Pieces(target, slots, pending);
      && |pieces| <= slots
      && (forall k | 0 <= k < |pieces| :: Tidy(pieces[k]) && pieces[k] != "")
      && (forall k | 0 <= k < |pieces| - 1 :: |pieces[k]| <= target)
      && (pieces == [] <==> pending == "" || slots == 0)
      && (pieces != [] && |Last(pieces)| > target ==> |pieces| == slots)
    decreases slots
  {
    hide Tidy, CutOff, Pieces;
    PiecesEnd(target, slots, pending);
    if slots > 1 && |pending| > target {
      PiecesStep(target, slots, pending);
      PiecesFit(target, slots - 1, CutOff(pending, target).rest);
    }
  }

  /** Every request fits, there are not too many, and none is empty but perhaps a clipped last one. */
  lemma ChunksFit(c: Cleaner, target: nat, slots: nat, pending: string)
    requires 120 <= target <= MAX_REQUEST_CHARACTERS && Tidy(pending)
    ensures var chunks, pieces := CloudChunks(c, target, slots, pending), Pieces(target, slots, pending);
      && |chunks| == |pieces| <= slots
      && (forall k | 0 <= k < |chunks| :: Tidy(chunks[k]) && |chunks[k]| <= target)
      && (forall k | 0 <= k < |chunks| && |pieces[k]| <= target :: chunks[k] == pieces[k])
      && (forall k | 0 <= k < |chunks| ::
            chunks[k] == "" <==> k == |pieces| - 1 && |pieces[k]| > target && Cleaned(c, pieces[k]) == "")
  {
    hide Tidy, Pieces, Prepare, Cleaned, Clipped, Note;
    PiecesFit(target, slots, pending);
    var pieces := Pieces(target, slots, pending);
    if pieces != [] && |Last(pieces)| > target {
      PrepareFits(c, target, Last(pieces));
    }
  }

  /** Words with single spaces between them again. */
  function Join(pieces: seq<string>): string {
    if pieces == [] then "" else if |pieces| == 1 then pieces[0] else pieces[0] + " " + Join(pieces[1..])
  }

  lemma JoinFirst(first: string, others: seq<string>)
    requires others != []
    ensures Join([first] + others) == first + (" " + Join(others))
  {
    assert ([first] + others)[1..] == others;
  }

  predicate SpaceWithin(s: string, i: nat, target: nat) {
    i + target < |s| ==> ' ' in s[i..i + target + 1]
  }

  predicate NoLongWord(s: string, target: nat) {
    forall i: nat | i < |s| :: SpaceWithin(s, i, target)
  }

  lemma NoLongWordAfter(first: string, rest: string, target: nat)
    requires NoLongWord(first + (" " + rest), target)
    ensures NoLongWord(rest, target)
  {
    var whole := first + (" " + rest);
    forall i: nat | i < |rest| ensures SpaceWithin(rest, i, target) {
      var j := |first| + 1 + i;
      assert SpaceWithin(whole, j, target);
      if i + target < |rest| {
        assert rest[i..i + target + 1] == whole[j..j + target + 1];
      }
    }
  }

  /** Unless a word is longer than a request, every cut is between words and the parts make the text again. */
  lemma {:induction false} PiecesKeepWords(target: nat, slots: nat, pending: string)
    requires 120 <= target && Tidy(pending) && slots > 0 && NoLongWord(pending, target)
    ensures Join(Pieces(target, slots, pending)) == pending
    decreases slots
  {
    hide Tidy, Pieces, CutOff, NoLongWord, SpaceWithin;
    PiecesEnd(target, slots, pending);
    if slots > 1 && |pending| > target {
      var cut := CutOff(pending, target);
      FirstWindow(pending, target);
      NoLongWordAfter(cut.first, cut.rest, target);
      PiecesKeepWords(target, slots - 1, cut.rest);
      PiecesFit(target, slots - 1, cut.rest);
      PiecesStep(target, slots, pending);
      JoinFirst(cut.first, Pieces(target, slots - 1, cut.rest));
    }
  }

  lemma FirstWindow(pending: string, target: nat)
    requires target < |pending| && NoLongWord(pending, target)
    ensures ' ' in pending[..target + 1]
  {
    assert SpaceWithin(pending, 0, target) && pending[0..target + 1] == pending[..target + 1];
  }

  /** However long the words: nothing but spaces is lost between the parts. */
  lemma {:induction false} PiecesKeepLetters(target: nat, slots: nat, pending: string)
    requires 120 <= target && Tidy(pending) && slots > 0
    ensures Letters(Flatten(Pieces(target, slots, pending))) == Letters(pending)
    decreases slots
  {
    hide Tidy, Pieces, CutOff, Letters;
    PiecesEnd(target, slots, pending);
    if slots > 1 && |pending| > target {
      var cut := CutOff(pending, target);
      var later := Pieces(target, slots - 1, cut.rest);
      PiecesKeepLetters(target, slots - 1, cut.rest);
      PiecesStep(target, slots, pending);
      assert ([cut.first] + later)[1..] == later;
      LettersAppend(cut.first, Flatten(later));
      LettersAppend(cut.first, if cut.spaced then " " + cut.rest else cut.rest);
      LettersAfterSpace(cut.rest);
    } else if pending != "" {
      assert Flatten([pending]) == pending + [] == pending;
    }
  }

  lemma LettersAfterSpace(s: string)
    ensures Letters(" " + s) == Letters(s)
  {
    assert IsSpace(' ') && (" " + s)[1..] == s;
  }

  /** `prepare_cloud_chunks`. */
  method PrepareCloudChunks(c: Cleaner, maximum: nat, text: string, target: nat, maximumChunks: nat)
      returns (chunks: seq<string>)
    requires 120 <= maximum <= 4_000 && 120 <= target <= MAX_REQUEST_CHARACTERS && 1 <= maximumChunks <= 6
    ensures var budget := if maximum <= target * maximumChunks then maximum else target * maximumChunks;
      && Tidy(Prepare(c, budget, text)) && chunks == CloudChunks(c, target, maximumChunks, Prepare(c, budget, text))
    ensures |chunks| <= maximumChunks && forall k | 0 <= k < |chunks| :: |chunks[k]| <= target
  {
    var budget := if maximum <= target * maximumChunks then maximum else target * maximumChunks;
    var pending := Prepare(c, budget, text);
    PrepareFits(c, budget, text);
    chunks := CutUp(c, target, maximumChunks, pending);
    ChunksFit(c, target, maximumChunks, pending);
  }

  /** The loop of `prepare_cloud_chunks`. */
  method CutUp(c: Cleaner, target: nat, maximumChunks: nat, prepared: string) returns (chunks: seq<string>)
    requires 120 <= target <= MAX_REQUEST_CHARACTERS && Tidy(prepared)
    ensures chunks == CloudChunks(c, target, maximumChunks, prepared)
  {
    hide Tidy, Strip, CutAt, CutOff, Prepare, Pieces;
    var pending := prepared;
    chunks := [];
    while pending != "" && |chunks| < maximumChunks
      invariant Tidy(pending) && |chunks| <= maximumChunks && forall k | 0 <= k < |chunks| :: |chunks[k]| <= target
      invariant Pieces(target, maximumChunks, prepared) == chunks + Pieces(target, maximumChunks - |chunks|, pending)
      decreases maximumChunks - |chunks|
    {
      PiecesEnd(target, maximumChunks - |chunks|, pending);
      var slotsLeft := maximumChunks - |chunks|;
      if |pending| <= target {
        return chunks + [pending];
      }
      if slotsLeft == 1 {
        return chunks + [Prepare(c, target, pending)];
      }
      var cut := CutAt(pending, target);
      var chunk := Strip(pending[..cut]);
      RoundKeeps(target, slotsLeft, pending, chunks);
      if chunk == "" {
        break;
      }
      chunks := chunks + [chunk];
      pending := Strip(pending[cut..]);
      assert slotsLeft - 1 == maximumChunks - |chunks|;
    }
    PiecesEnd(target, maximumChunks - |chunks|, pending);
  }

  lemma RoundKeeps(target: nat, slots: nat, pending: string, chunks: seq<string>)
    requires 120 <= target < |pending| && slots > 1 && Tidy(pending)
    ensures var at := CutAt(pending, target);
      && Strip(pending[..at]) != "" && |Strip(pending[..at])| <= target && Tidy(Strip(pending[at..]))
      && chunks + Pieces(target, slots, pending) ==
        chunks + [Strip(pending[..at])] + Pieces(target, slots - 1, Strip(pending[at..]))
  {
    hide Tidy, CutAt, Strip, Pieces;
    PiecesStep(target, slots, pending);
  }
}

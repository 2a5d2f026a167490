/**
 * `generatePracticeCode`: asks a language model for one snippet of typing
 * practice suited to the user's mood and time, and cleans up the answer.
 * The model call itself is a parameter: the text it answered, or what it
 * threw. The API keys are read from the environment and are parameters too.
 */
module PracticeCode {
  import opened Js
  import opened Moods

  datatype TimeCategory = Short | Medium | Long

  /** `getTimeCategory` */
  function GetTimeCategory(minutes: real): TimeCategory {
    if minutes <= 20.0 then Short
    else if minutes <= 45.0 then Medium
    else Long
  }

  function CategoryRank(c: TimeCategory): int {
    match c
    case Short => 0
    case Medium => 1
    case Long => 2
  }

  /** Up to 20 minutes is short, over 20 and up to 45 medium, over 45 long. */
  lemma TimeCategoryRanges(minutes: real)
    ensures GetTimeCategory(minutes) == Short <==> minutes <= 20.0
    ensures GetTimeCategory(minutes) == Medium <==> 20.0 < minutes <= 45.0
    ensures GetTimeCategory(minutes) == Long <==> 45.0 < minutes
  {
  }

  /** More time never gives a shorter category. */
  lemma TimeCategoryMonotone(m1: real, m2: real)
    requires m1 <= m2
    ensures CategoryRank(GetTimeCategory(m1)) <= CategoryRank(GetTimeCategory(m2))
  {
  }

  /** `LANGUAGES`, in order: javascript, python, typescript, java, cpp, rust. */
  datatype PracticeLanguage = JavaScript | Python | TypeScript | Java | Cpp | Rust

  function LanguageName(l: PracticeLanguage): string {
    match l
    case JavaScript => "javascript"
    case Python => "python"
    case TypeScript => "typescript"
    case Java => "java"
    case Cpp => "cpp"
    case Rust => "rust"
  }

  /** `LANGUAGES.includes(s)`, and which language `s` names. */
  function LanguageNamed(s: string): (r: Option<PracticeLanguage>)
    ensures r.Some? ==> LanguageName(r.value) == s
  {
    if s == "javascript" then Some(JavaScript)
    else if s == "python" then Some(Python)
    else if s == "typescript" then Some(TypeScript)
    else if s == "java" then Some(Java)
    else if s == "cpp" then Some(Cpp)
    else if s == "rust" then Some(Rust)
    else None
  }

  /** Every language is found by its own name. */
  lemma LanguageNamedRoundTrip(l: PracticeLanguage)
    ensures LanguageNamed(LanguageName(l)) == Some(l)
  {
  }

  // Markdown fence stripping: `code.match(/^```(?:\w+)?\s*\n?([\s\S]*?)```/m)`

  /** `\w` */
  predicate IsWordChar(c: char) {
    'a' <= c <= 'z' || 'A' <= c <= 'Z' || '0' <= c <= '9' || c == '_'
  }

  /** The characters after which `^` matches under the `m` flag. */
  predicate IsLineTerminator(c: char) {
    c == '\n' || c == '\r' || c == '\U{2028}' || c == '\U{2029}'
  }

  /** Three backticks start at `p`. */
  predicate FenceAt(s: string, p: int) {
    0 <= p && p + 3 <= |s| && s[p] == '`' && s[p + 1] == '`' && s[p + 2] == '`'
  }

  /** The end of the run of word characters starting at `i`. */
  function WordEnd(s: string, i: nat): (j: nat)
    requires i <= |s|
    ensures i <= j <= |s|
    ensures forall k :: i <= k < j ==> IsWordChar(s[k])
    ensures j < |s| ==> !IsWordChar(s[j])
    decreases |s| - i
  {
    if i < |s| && IsWordChar(s[i]) then WordEnd(s, i + 1) else i
  }

  /** The end of the run of white space starting at `i`. */
  function SpaceEnd(s: string, i: nat): (j: nat)
    requires i <= |s|
    ensures i <= j <= |s|
    ensures forall k :: i <= k < j ==> IsSpace(s[k])
    ensures j < |s| ==> !IsSpace(s[j])
    decreases |s| - i
  {
    if i < |s| && IsSpace(s[i]) then SpaceEnd(s, i + 1) else i
  }

  /** The first fence at or after `i`. */
  function NextFence(s: string, i: nat): (r: Option<nat>)
    requires i <= |s|
    ensures r.Some? ==> i <= r.value && FenceAt(s, r.value)
    ensures r.Some? ==> forall q :: i <= q < r.value ==> !FenceAt(s, q)
    ensures r.None? ==> forall q :: i <= q ==> !FenceAt(s, q)
    decreases |s| - i
  {
    if i + 3 > |s| then None
    else if FenceAt(s, i) then Some(i)
    else NextFence(s, i + 1)
  }

  predicate LineStart(s: string, i: nat) {
    i == 0 || (0 < i <= |s| && IsLineTerminator(s[i - 1]))
  }

  /**
   * The pattern tried at position `i`: a fence, the longest run of word
   * characters (the language tag), the longest run of white space, then the
   * shortest text up to the next fence, which is the captured group.
   */
  function MatchAt(s: string, i: nat): Option<string>
    requires i <= |s|
  {
    if !FenceAt(s, i) then None
    else
      var k := SpaceEnd(s, WordEnd(s, i + 3));
      match NextFence(s, k)
      case None => None
      case Some(p) => Some(s[k..p])
  }

  /** The first match at a line start at or after `i`. */
  function FirstMatch(s: string, i: nat): Option<string>
    requires i <= |s|
    decreases |s| - i
  {
    if LineStart(s, i) && MatchAt(s, i).Some? then MatchAt(s, i)
    else if i == |s| then None
    else FirstMatch(s, i + 1)
  }

  /** The code once a surrounding markdown fence, if any, is removed. */
  function StripFence(text: string): string {
    match FirstMatch(text, 0)
    case Some(captured) => Trim(captured)
    case None => text
  }

  lemma {:induction false} NoFenceNoMatch(s: string, i: nat)
    requires i <= |s|
    requires forall p :: 0 <= p ==> !FenceAt(s, p)
    ensures FirstMatch(s, i) == None
    decreases |s| - i
  {
    if i < |s| {
      NoFenceNoMatch(s, i + 1);
    }
  }

  /** A text without three backticks in a row is kept as it is. */
  lemma StripFenceWithoutFence(text: string)
    requires forall p :: 0 <= p ==> !FenceAt(text, p)
    ensures StripFence(text) == text
  {
    NoFenceNoMatch(text, 0);
  }

  predicate AllWordChars(s: string) {
    forall i :: 0 <= i < |s| ==> IsWordChar(s[i])
  }

  predicate NoBacktick(s: string) {
    forall i :: 0 <= i < |s| ==> s[i] != '`'
  }

  /**
   * The match of a text that opens with a fence: a run of word characters
   * up to `j`, then text without backticks up to the closing fence at `p`.
   */
  lemma {:induction false} MatchOfOpeningFence(s: string, j: nat, p: nat)
    requires FenceAt(s, 0) && 3 <= j < p && FenceAt(s, p)
    requires forall k :: 3 <= k < j ==> IsWordChar(s[k])
    requires !IsWordChar(s[j])
    requires forall q :: j <= q < p ==> s[q] != '`'
    ensures FirstMatch(s, 0) == Some(s[SpaceEnd(s, j)..p])
  {
    WordEndAt(s, 3, j);
    var k := SpaceEnd(s, j);
    assert k <= p by {
      assert !IsSpace(s[p]);
    }
    NextFenceIs(s, k, p);
  }

  /** The fences and the line break of a fenced answer, by position. */
  lemma FencedAnswerMarks(lang: string, body: string, rest: string)
    ensures var s := "```" + lang + "\n" + body + "```" + rest;
            var j, p := 3 + |lang|, 4 + |lang| + |body|;
            && |s| == p + 3 + |rest|
            && s[0] == '`' && s[1] == '`' && s[2] == '`'
            && s[j] == '\n'
            && s[p] == '`' && s[p + 1] == '`' && s[p + 2] == '`'
  {
    var head := "```" + lang;
    var tail := "```" + rest;
    var s := head + ("\n" + body) + tail;
    assert s == "```" + lang + "\n" + body + "```" + rest;
    var p := |head| + 1 + |body|;
    assert s[0] == head[0] && s[1] == head[1] && s[2] == head[2];
    assert s[p] == tail[0] && s[p + 1] == tail[1] && s[p + 2] == tail[2];
  }

  /** The language tag of a fenced answer, by position. */
  lemma FencedAnswerTag(lang: string, body: string, rest: string)
    ensures var s := "```" + lang + "\n" + body + "```" + rest;
            forall k :: 0 <= k < |lang| ==> s[3 + k] == lang[k]
  {
    var head := "```" + lang;
    var s := head + ("\n" + body + "```" + rest);
    assert s == "```" + lang + "\n" + body + "```" + rest;
    forall k | 0 <= k < |lang|
      ensures s[3 + k] == lang[k]
    {
      assert s[3 + k] == head[3 + k];
    }
  }

  /** The code of a fenced answer, by position. */
  lemma FencedAnswerBody(lang: string, body: string, rest: string)
    ensures var s := "```" + lang + "\n" + body + "```" + rest;
            var j, p := 3 + |lang|, 4 + |lang| + |body|;
            && p <= |s|
            && s[j + 1..p] == body
            && (forall k :: 0 <= k < |body| ==> s[j + 1 + k] == body[k])
  {
    var head := "```" + lang + "\n";
    var s := head + body + ("```" + rest);
    assert s == "```" + lang + "\n" + body + "```" + rest;
    var j, p := |head| - 1, |head| + |body|;
    assert s[j + 1..p] == body;
  }

  /** Where the parts of a fenced answer lie. */
  lemma {:induction false} OpeningFenceLayout(lang: string, body: string, rest: string)
    requires AllWordChars(lang) && NoBacktick(body)
    ensures var s := "```" + lang + "\n" + body + "```" + rest;
            var j, p := 3 + |lang|, 4 + |lang| + |body|;
            && FenceAt(s, 0) && FenceAt(s, p)
            && (forall k :: 3 <= k < j ==> IsWordChar(s[k]))
            && !IsWordChar(s[j])
            && (forall q :: j <= q < p ==> s[q] != '`')
            && s[j] == '\n' && s[j + 1..p] == body
  {
    var s := "```" + lang + "\n" + body + "```" + rest;
    var j, p := 3 + |lang|, 4 + |lang| + |body|;
    FencedAnswerMarks(lang, body, rest);
    FencedAnswerTag(lang, body, rest);
    FencedAnswerBody(lang, body, rest);
    forall k | 3 <= k < j
      ensures IsWordChar(s[k])
    {
      assert s[3 + (k - 3)] == lang[k - 3];
    }
    forall q | j <= q < p
      ensures s[q] != '`'
    {
      if q > j {
        assert s[j + 1 + (q - j - 1)] == body[q - j - 1];
      }
    }
  }

  /** With white space after the tag, the code is the trimmed text between that white space and the closing fence. */
  lemma StripFenceOfLayout(s: string, j: nat, p: nat)
    requires FenceAt(s, 0) && 3 <= j < p && FenceAt(s, p)
    requires forall k :: 3 <= k < j ==> IsWordChar(s[k])
    requires IsSpace(s[j]) && !IsWordChar(s[j])
    requires forall q :: j <= q < p ==> s[q] != '`'
    ensures StripFence(s) == Trim(s[j + 1..p])
  {
    FenceCapture(s, j, p);
    TrimSkipSpaces(s, j + 1, SpaceEnd(s, j), p);
  }

  lemma {:induction false} FenceCapture(s: string, j: nat, p: nat)
    requires FenceAt(s, 0) && 3 <= j < p && FenceAt(s, p)
    requires forall k :: 3 <= k < j ==> IsWordChar(s[k])
    requires !IsWordChar(s[j])
    requires forall q :: j <= q < p ==> s[q] != '`'
    ensures SpaceEnd(s, j) <= p && StripFence(s) == Trim(s[SpaceEnd(s, j)..p])
  {
    MatchOfOpeningFence(s, j, p);
  }

  /**
   * An answer that opens with a fence and a language tag on its own line
   * yields the trimmed code up to the closing fence; what follows the
   * closing fence is dropped.
   */
  lemma StripFenceOpening(lang: string, body: string, rest: string)
    requires AllWordChars(lang) && NoBacktick(body)
    ensures StripFence("```" + lang + "\n" + body + "```" + rest) == Trim(body)
  {
    var s := "```" + lang + "\n" + body + "```" + rest;
    var j, p := 3 + |lang|, 4 + |lang| + |body|;
    OpeningFenceLayout(lang, body, rest);
    StripFenceOfBody(s, j, p, body);
  }

  lemma StripFenceOfBody(s: string, j: nat, p: nat, body: string)
    requires FenceAt(s, 0) && 3 <= j < p && FenceAt(s, p)
    requires forall k :: 3 <= k < j ==> IsWordChar(s[k])
    requires s[j] == '\n' && !IsWordChar(s[j])
    requires forall q :: j <= q < p ==> s[q] != '`'
    requires s[j + 1..p] == body
    ensures StripFence(s) == Trim(body)
  {
    StripFenceOfLayout(s, j, p);
  }

  /** `WordEnd` stops exactly at the first character that is not a word character. */
  lemma {:induction false} WordEndAt(s: string, i: nat, j: nat)
    requires i <= j <= |s|
    requires forall k :: i <= k < j ==> IsWordChar(s[k])
    requires j < |s| ==> !IsWordChar(s[j])
    ensures WordEnd(s, i) == j
  {
  }

  /** `NextFence` finds the first fence. */
  lemma {:induction false} NextFenceIs(s: string, i: nat, p: nat)
    requires i <= p && FenceAt(s, p)
    requires forall q :: i <= q < p ==> !FenceAt(s, q)
    ensures NextFence(s, i) == Some(p)
  {
  }

  datatype Options = Options(mood: Mood, timeAvailable: real, language: Option<PracticeLanguage>)

  datatype Generated = Generated(code: string, language: PracticeLanguage)

  const MissingKeyMessage := "GEMINI_KEY or GOOGLE_GENERATIVE_AI_API_KEY is not set"
  const EmptyCodeMessage := "Gemini returned empty code"
  const RateLimitMessage := "Rate limit exceeded. Please try again in a minute."

  /** `GEMINI_KEY || GOOGLE_GENERATIVE_AI_API_KEY`: the first of the two that is set and not empty. */
  function ApiKey(geminiKey: Option<string>, googleKey: Option<string>): (r: Option<string>)
    ensures r.Some? <==> (geminiKey.Some? && geminiKey.value != "") || (googleKey.Some? && googleKey.value != "")
    ensures r.Some? ==> r.value != ""
  {
    if geminiKey.Some? && geminiKey.value != "" then geminiKey
    else if googleKey.Some? && googleKey.value != "" then googleKey
    else None
  }

  /** Whether a thrown value is the model's rate limit: status 429, or a message mentioning 429 or a quota. */
  predicate IsRateLimit(err: Thrown) {
    err.Status() == Some(429)
    || Contains(err.MessageText(), "429")
    || Contains(ToLower(err.MessageText()), "quota")
  }

  /** The `catch`: rate limits become a fixed message, everything else is rethrown as it is. */
  function Rethrown(err: Thrown): Thrown {
    if IsRateLimit(err) then Error(RateLimitMessage, None) else err
  }

  /** The code taken from the text of an answer (`response.text`, possibly missing). */
  function CodeFromAnswer(answer: Option<string>): Outcome<string> {
    var text := Trim(answer.GetOr(""));
    if text == "" then Threw(Error(EmptyCodeMessage, None))
    else Done(StripFence(text))
  }

  /**
   * `generatePracticeCode(options)` with the two environment keys and what
   * the model call did: answered a text (`Done`) or threw (`Threw`).
   */
  function GeneratePracticeCode(options: Options, geminiKey: Option<string>, googleKey: Option<string>,
                                response: Outcome<Option<string>>): Outcome<Generated>
  {
    if ApiKey(geminiKey, googleKey).None? then Threw(Error(MissingKeyMessage, None))
    else if response.Threw? then Settle(options, Threw(response.thrown))
    else Settle(options, CodeFromAnswer(response.value))
  }

  /** The end of the `try`: the code with the effective language, or what the `catch` throws. */
  function Settle(options: Options, attempt: Outcome<string>): Outcome<Generated> {
    match attempt
    case Done(code) => Done(Generated(code, options.language.GetOr(JavaScript)))
    case Threw(err) => Threw(Rethrown(err))
  }

  /** Without a key nothing is generated, whatever the model would have done. */
  lemma MissingKeyThrowsFirst(options: Options, geminiKey: Option<string>, googleKey: Option<string>,
                              response: Outcome<Option<string>>)
    requires geminiKey.None? || geminiKey.value == ""
    requires googleKey.None? || googleKey.value == ""
    ensures GeneratePracticeCode(options, geminiKey, googleKey, response) == Threw(Error(MissingKeyMessage, None))
  {
  }

  /** The language returned is the one asked for, or JavaScript when none was. */
  lemma ResultLanguage(options: Options, geminiKey: Option<string>, googleKey: Option<string>,
                       response: Outcome<Option<string>>)
    ensures var r := GeneratePracticeCode(options, geminiKey, googleKey, response);
            r.Done? ==> r.value.language == options.language.GetOr(JavaScript)
  {
  }

  /** An empty or blank answer is an error, and that error is not taken for a rate limit. */
  lemma EmptyAnswerIsError(options: Options, geminiKey: Option<string>, googleKey: Option<string>, answer: Option<string>)
    requires ApiKey(geminiKey, googleKey).Some?
    requires forall i :: 0 <= i < |answer.GetOr("")| ==> IsSpace(answer.GetOr("")[i])
    ensures GeneratePracticeCode(options, geminiKey, googleKey, Done(answer)) == Threw(Error(EmptyCodeMessage, None))
  {
    BlankAnswerHasNoCode(answer);
    EmptyCodeMessageIsNoRateLimit();
    FailedAnswerIsRethrown(options, geminiKey, googleKey, answer, Error(EmptyCodeMessage, None));
  }

  /** An answer without code throws what `CodeFromAnswer` threw, unless that is a rate limit. */
  lemma FailedAnswerIsRethrown(options: Options, geminiKey: Option<string>, googleKey: Option<string>,
                               answer: Option<string>, err: Thrown)
    requires ApiKey(geminiKey, googleKey).Some?
    requires CodeFromAnswer(answer) == Threw(err) && !IsRateLimit(err)
    ensures GeneratePracticeCode(options, geminiKey, googleKey, Done(answer)) == Threw(err)
  {
    calc {
      GeneratePracticeCode(options, geminiKey, googleKey, Done(answer));
      Settle(options, CodeFromAnswer(answer));
      Settle(options, Threw(err));
      Threw(Rethrown(err));
      { NonRateLimitIsRethrownAsIs(err); }
      Threw(err);
    }
  }

  /** The `catch` passes on every error that is not a rate limit unchanged. */
  lemma NonRateLimitIsRethrownAsIs(err: Thrown)
    requires !IsRateLimit(err)
    ensures Rethrown(err) == err
  {
  }

  lemma BlankAnswerHasNoCode(answer: Option<string>)
    requires forall i :: 0 <= i < |answer.GetOr("")| ==> IsSpace(answer.GetOr("")[i])
    ensures CodeFromAnswer(answer) == Threw(Error(EmptyCodeMessage, None))
  {
    TrimOfBlank(answer.GetOr(""));
  }

  lemma TrimOfBlank(s: string)
    requires forall i :: 0 <= i < |s| ==> IsSpace(s[i])
    ensures Trim(s) == ""
  {
    TrimSkipSpaces(s, 0, |s|, |s|);
    assert s[0..|s|] == s && s[|s|..|s|] == "";
  }

  lemma EmptyCodeMessageIsNoRateLimit()
    ensures !IsRateLimit(Error(EmptyCodeMessage, None))
  {
    EmptyCodeMessageLetters();
    NoRateLimitWithoutDigitsOrQ(EmptyCodeMessage);
  }

  /** A message without digits and without the letter q, thrown without a status, is no rate limit. */
  lemma NoRateLimitWithoutDigitsOrQ(m: string)
    requires forall i :: 0 <= i < |m| ==> !IsDigit(m[i]) && m[i] != 'q' && m[i] != 'Q'
    ensures !IsRateLimit(Error(m, None))
  {
    NotContainsNoDigit(m, "429");
    NoLetterAfterLower(m, 'q', 'Q');
    NotContainsNoLetter(ToLower(m), "quota", 'q');
  }

  lemma EmptyCodeMessageLetters()
    ensures forall i :: 0 <= i < |EmptyCodeMessage| ==>
              !IsDigit(EmptyCodeMessage[i]) && EmptyCodeMessage[i] != 'q' && EmptyCodeMessage[i] != 'Q'
  {
  }

  /** Lower-casing a text without `upper` or `lower` gives a text without `lower`. */
  lemma {:induction false} NoLetterAfterLower(s: string, lower: char, upper: char)
    requires 'A' <= upper <= 'Z' && lower == LowerChar(upper)
    requires forall i :: 0 <= i < |s| ==> s[i] != lower && s[i] != upper
    ensures forall i :: 0 <= i < |ToLower(s)| ==> ToLower(s)[i] != lower
  {
    forall i | 0 <= i < |ToLower(s)|
      ensures ToLower(s)[i] != lower
    {
      assert ToLower(s)[i] == LowerChar(s[i]);
    }
  }

  /** A text without the first character of `sub` does not contain `sub`. */
  lemma {:induction false} NotContainsNoLetter(s: string, sub: string, c: char)
    requires sub != [] && sub[0] == c
    requires forall i :: 0 <= i < |s| ==> s[i] != c
    ensures !Contains(s, sub)
    decreases |s|
  {
    if s != [] {
      NotContainsNoLetter(s[1..], sub, c);
    }
  }

  lemma {:induction false} NotContainsNoDigit(s: string, sub: string)
    requires sub != [] && IsDigit(sub[0])
    requires forall i :: 0 <= i < |s| ==> !IsDigit(s[i])
    ensures !Contains(s, sub)
  {
    NotContainsNoLetter(s, sub, sub[0]);
  }

  /**
   * A throw from the model is a rate limit exactly when it says 429 or
   * quota; those are replaced by the fixed message and all others are
   * rethrown unchanged.
   */
  lemma ModelErrorsClassified(options: Options, geminiKey: Option<string>, googleKey: Option<string>, err: Thrown)
    requires ApiKey(geminiKey, googleKey).Some?
    ensures IsRateLimit(err) ==>
              GeneratePracticeCode(options, geminiKey, googleKey, Threw(err)) == Threw(Error(RateLimitMessage, None))
    ensures !IsRateLimit(err) ==>
              GeneratePracticeCode(options, geminiKey, googleKey, Threw(err)) == Threw(err)
  {
  }

  /** A non-blank answer yields its code, with any fence removed. */
  lemma AnswerYieldsCode(options: Options, geminiKey: Option<string>, googleKey: Option<string>, answer: string)
    requires ApiKey(geminiKey, googleKey).Some?
    requires Trim(answer) != ""
    ensures GeneratePracticeCode(options, geminiKey, googleKey, Done(Some(answer)))
              == Done(Generated(StripFence(Trim(answer)), options.language.GetOr(JavaScript)))
  {
  }
}

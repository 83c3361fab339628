/**
 * The `translate` serverless function: it accepts `{text | texts,
 * fromLanguage, toLanguage}`, echoes the input for a same-language request or
 * an upstream failure, otherwise asks a chat-completion model and, for a batch
 * of several texts, parses the reply line by line into exactly one
 * translation per input text.
 *
 * The model's answer is a parameter (`Upstream`): whatever it replies, the
 * properties below hold.
 */
module TranslateFunction {
  import opened Wrappers
  import opened Ascii

  /**
   * The parsed JSON request body. `texts` is present exactly when the body's
   * `texts` is an array; an absent or empty language is "" (falsy either way).
   */
  datatype Body = Body(texts: Option<seq<string>>, text: Option<string>, fromLanguage: string, toLanguage: string)

  /** The normalised input: a batch of texts, or the single (possibly absent) `text`. */
  datatype Inputs = Batch(texts: seq<string>) | Single(text: Option<string>)

  /** What the chat-completion call yields. */
  datatype Upstream =
    | NotOk                      // a non-2xx HTTP status
    | Completion(content: string) // `choices[0].message.content`
    | Broken                     // the fetch or the JSON access throws

  /** The HTTP response. */
  datatype Reply =
    | Preflight                           // CORS preflight, no body
    | Failure(status: int, error: string) // a JSON `{error}` with status 400 or 500
    | Translations(translations: seq<string>)
    | TranslatedText(translatedText: Option<string>)

  const MissingFields := "Missing required fields: text(s), fromLanguage, toLanguage"
  const MissingKey := "OpenAI API key not configured"
  const InternalError := "Internal server error"
  const MaxTokensCap := 4000

  /** `isBatch ? requestBody.texts : [requestBody.text]`. */
  function Normalize(b: Body): (inp: Inputs)
    ensures inp.Batch? <==> b.texts.Some?
  {
    if b.texts.Some? then Batch(b.texts.value) else Single(b.text)
  }

  /** `texts.length` of the normalised input: a single text is a list of one. */
  function Count(inp: Inputs): nat {
    if inp.Batch? then |inp.texts| else 1
  }

  /** The request is rejected with 400 when there is no text or a language is missing. */
  predicate Valid(inp: Inputs, b: Body) {
    Count(inp) != 0 && b.fromLanguage != "" && b.toLanguage != ""
  }

  /** The reply that returns the inputs untranslated, in the shape they came in. */
  function Echo(inp: Inputs): (r: Reply)
    ensures inp.Batch? ==> r == Translations(inp.texts)
    ensures inp.Single? ==> r == TranslatedText(inp.text)
  {
    match inp
    case Batch(ts) => Translations(ts)
    case Single(t) => TranslatedText(t)
  }

  /** The sum of the lengths of the texts (the `reduce` in the request). */
  function TotalLength(texts: seq<string>): (n: nat)
    ensures forall i :: 0 <= i < |texts| ==> |texts[i]| <= n
  {
    if texts == [] then 0 else |texts[0]| + TotalLength(texts[1..])
  }

  /** `max_tokens`: twice the total input length, capped at 4000. */
  function MaxTokens(texts: seq<string>): (m: nat)
    ensures m <= MaxTokensCap && m % 2 == 0
    ensures m < MaxTokensCap ==> m == 2 * TotalLength(texts)
    ensures m == MaxTokensCap ==> 2 * TotalLength(texts) >= MaxTokensCap
  {
    if 2 * TotalLength(texts) < MaxTokensCap then 2 * TotalLength(texts) else MaxTokensCap
  }

  // ---------------------------------------------------------------------
  // Parsing a batch reply

  predicate NoNewline(s: string) {
    forall i :: 0 <= i < |s| ==> s[i] != '\n'
  }

  /** `s.split('\n')`: the pieces between newlines, at least one. */
  function SplitLines(s: string): (lines: seq<string>)
    ensures |lines| >= 1
    ensures forall i :: 0 <= i < |lines| ==> NoNewline(lines[i])
    ensures JoinLines(lines) == s
  {
    if s == [] then [""]
    else
      var rest := SplitLines(s[1..]);
      if s[0] == '\n' then [""] + rest
      else
        var lines := [[s[0]] + rest[0]] + rest[1..];
        assert lines[1..] == rest[1..];
        lines
  }

  /** The inverse of `SplitLines`: the lines joined with newlines. */
  function JoinLines(lines: seq<string>): string
    requires |lines| >= 1
  {
    if |lines| == 1 then lines[0] else lines[0] + "\n" + JoinLines(lines[1..])
  }

  lemma {:induction false} SplitSingleLine(a: string)
    requires NoNewline(a)
    ensures SplitLines(a) == [a]
  {
    if a != [] {
      SplitSingleLine(a[1..]);
      assert [a[0]] + a[1..] == a;
    }
  }

  lemma {:induction false} SplitFirstLine(a: string, rest: string)
    requires NoNewline(a)
    ensures SplitLines(a + "\n" + rest) == [a] + SplitLines(rest)
  {
    if a == [] {
      assert a + "\n" + rest == "\n" + rest;
      assert ("\n" + rest)[1..] == rest;
    } else {
      assert (a + "\n" + rest)[1..] == a[1..] + "\n" + rest;
      SplitFirstLine(a[1..], rest);
      assert [a[0]] + a[1..] == a;
    }
  }

  /** Splitting newline-free lines joined by newlines gives the lines back. */
  lemma {:induction false} SplitJoinRoundTrip(lines: seq<string>)
    requires |lines| >= 1 && forall i :: 0 <= i < |lines| ==> NoNewline(lines[i])
    ensures SplitLines(JoinLines(lines)) == lines
  {
    if |lines| == 1 {
      SplitSingleLine(lines[0]);
    } else {
      SplitJoinRoundTrip(lines[1..]);
      SplitFirstLine(lines[0], JoinLines(lines[1..]));
    }
  }

  /** The number of leading decimal digits of `s`. */
  function DigitRun(s: string): (n: nat)
    ensures n <= |s|
    ensures forall i :: 0 <= i < n ==> IsDigit(s[i])
    ensures n < |s| ==> !IsDigit(s[n])
  {
    if s != [] && IsDigit(s[0]) then 1 + DigitRun(s[1..]) else 0
  }

  /**
   * `line.replace(/^\d+\.\s*\/, '')`: a leading run of digits followed by a
   * dot, and the whitespace after it, is removed; other lines are unchanged.
   */
  function StripNumbering(line: string): (r: string)
    ensures |r| <= |line| && r == line[|line| - |r|..]
  {
    var n := DigitRun(line);
    if 0 < n < |line| && line[n] == '.' then TrimStart(line[n + 1..]) else line
  }

  /** A numbered line `<digits>. <text>` loses exactly its number, its dot and the blanks after them. */
  lemma StripNumberedLine(digits: string, text: string)
    requires digits != [] && forall i :: 0 <= i < |digits| ==> IsDigit(digits[i])
    ensures StripNumbering(digits + "." + text) == TrimStart(text)
  {
    var line := digits + "." + text;
    DigitRunOfDigits(digits, "." + text);
    assert line == digits + ("." + text);
    assert line[|digits| + 1..] == text;
  }

  lemma {:induction false} DigitRunOfDigits(digits: string, rest: string)
    requires forall i :: 0 <= i < |digits| ==> IsDigit(digits[i])
    requires rest == [] || !IsDigit(rest[0])
    ensures DigitRun(digits + rest) == |digits|
  {
    if digits != [] {
      assert (digits + rest)[1..] == digits[1..] + rest;
      DigitRunOfDigits(digits[1..], rest);
    }
  }

  /** A line that does not start with `<digits>.` is left as it is. */
  lemma UnnumberedLineUnchanged(line: string)
    requires line == [] || !IsDigit(line[0])
    ensures StripNumbering(line) == line
  {
  }

  lemma SliceHasNoNewline(s: string, a: nat, b: nat)
    requires a <= b <= |s| && NoNewline(s)
    ensures NoNewline(s[a..b])
  {
    assert forall i :: 0 <= i < b - a ==> s[a..b][i] == s[a + i];
  }

  /** One line with its numbering removed, then trimmed. */
  function CleanLine(line: string): (r: string)
    ensures IsTrimmed(r)
  {
    Trim(StripNumbering(line))
  }

  lemma CleanLineHasNoNewline(line: string)
    requires NoNewline(line)
    ensures NoNewline(CleanLine(line))
  {
    var s := StripNumbering(line);
    SliceHasNoNewline(line, |line| - |s|, |line|);
    var r := Trim(s);
    SliceHasNoNewline(s, TrimOffset(s), TrimOffset(s) + |r|);
    assert CleanLine(line) == r;
  }

  /** Every line cleaned; lines left empty are dropped. */
  function CleanLines(lines: seq<string>): (r: seq<string>)
    ensures |r| <= |lines|
    ensures forall i :: 0 <= i < |r| ==> r[i] != "" && IsTrimmed(r[i])
  {
    if lines == [] then []
    else
      var c := CleanLine(lines[0]);
      var rest := CleanLines(lines[1..]);
      if c == "" then rest
      else
        assert forall i :: 0 < i <= |rest| ==> ([c] + rest)[i] == rest[i - 1];
        [c] + rest
  }

  lemma {:induction false} CleanLinesHaveNoNewline(lines: seq<string>)
    requires forall i :: 0 <= i < |lines| ==> NoNewline(lines[i])
    ensures forall i :: 0 <= i < |CleanLines(lines)| ==> NoNewline(CleanLines(lines)[i])
  {
    if lines != [] {
      var c := CleanLine(lines[0]);
      var rest := CleanLines(lines[1..]);
      CleanLineHasNoNewline(lines[0]);
      CleanLinesHaveNoNewline(lines[1..]);
      if c == "" {
        assert CleanLines(lines) == rest;
      } else {
        assert CleanLines(lines) == [c] + rest;
        assert forall i :: 0 < i <= |rest| ==> ([c] + rest)[i] == rest[i - 1];
      }
    }
  }

  /** The translations read off the model's (already trimmed) reply. */
  function ParseBatchReply(content: string): (r: seq<string>)
    ensures forall i :: 0 <= i < |r| ==> r[i] != "" && IsTrimmed(r[i]) && NoNewline(r[i])
  {
    var lines := SplitLines(content);
    CleanLinesHaveNoNewline(lines);
    CleanLines(lines)
  }

  /**
   * The parsed translations aligned with the inputs: position `i` holds the
   * `i`-th parsed line, or `texts[i]` when the reply had fewer lines, and
   * surplus lines are dropped.
   */
  function Aligned(parsed: seq<string>, texts: seq<string>): (r: seq<string>)
    ensures |r| == |texts|
    ensures forall i :: 0 <= i < |r| ==> r[i] == if i < |parsed| then parsed[i] else texts[i]
  {
    if |parsed| >= |texts| then parsed[..|texts|] else parsed + texts[|parsed|..]
  }

  /** The padding loop and the final `slice(0, texts.length)`. */
  method PadToInputs(parsed: seq<string>, texts: seq<string>) returns (r: seq<string>)
    ensures r == Aligned(parsed, texts)
  {
    var translations := parsed;
    while |translations| < |texts|
      invariant |parsed| <= |translations|
      invariant |translations| > |parsed| ==> |translations| <= |texts|
      invariant translations[..|parsed|] == parsed
      invariant forall i :: |parsed| <= i < |translations| ==> translations[i] == texts[i]
      decreases |texts| - |translations|
    {
      var missingIndex := |translations|;
      translations := translations + [texts[missingIndex]];
    }
    r := translations[..|texts|];
  }

  // ---------------------------------------------------------------------
  // The prompt

  function DigitChar(d: nat): (c: char)
    requires d < 10
    ensures IsDigit(c)
  {
    ('0' as int + d) as char
  }

  /** The decimal numeral of `n`, as a template literal prints it. */
  function Decimal(n: nat): (r: string)
    ensures r != [] && forall i :: 0 <= i < |r| ==> IsDigit(r[i])
  {
    if n < 10 then [DigitChar(n)] else Decimal(n / 10) + [DigitChar(n % 10)]
  }

  /** The lines `${index + 1}. ${text}` listing the texts in a batch prompt. */
  function NumberedLines(texts: seq<string>): (lines: seq<string>)
    ensures |lines| == |texts|
  {
    seq(|texts|, i requires 0 <= i < |texts| => Decimal(i + 1) + ". " + texts[i])
  }

  /** The user message sent to the model. */
  function Prompt(inp: Inputs, texts: seq<string>, fromLanguage: string, toLanguage: string): string
    requires |texts| >= 1
  {
    if inp.Batch? && |texts| > 1 then
      BatchOpening + fromLanguage + " to " + toLanguage + BatchClosing + JoinLines(NumberedLines(texts))
    else
      SingleOpening + fromLanguage + " to " + toLanguage + SingleClosing + texts[0]
  }

  const BatchOpening := "Translate each of the following texts from "
  const BatchClosing := ". Return only the translations, one per line, in the same order:\n\n"
  const SingleOpening := "Translate the following text from "
  const SingleClosing := ". Only return the translated text, nothing else:\n\n"

  /**
   * The prompt closes with what is to be translated: the numbered list for a
   * batch of several texts (which `ParseBatchReply` reads back, see
   * `NumberedListParsesBack`), the one text otherwise.
   */
  lemma PromptEndsWithTexts(inp: Inputs, texts: seq<string>, fromLanguage: string, toLanguage: string)
    requires |texts| >= 1
    ensures var p := Prompt(inp, texts, fromLanguage, toLanguage);
      var tail := if inp.Batch? && |texts| > 1 then JoinLines(NumberedLines(texts)) else texts[0];
      |tail| <= |p| && p[|p| - |tail|..] == tail
  {
    var tail := if inp.Batch? && |texts| > 1 then JoinLines(NumberedLines(texts)) else texts[0];
    var head := (if inp.Batch? && |texts| > 1 then BatchOpening else SingleOpening)
      + fromLanguage + " to " + toLanguage + (if inp.Batch? && |texts| > 1 then BatchClosing else SingleClosing);
    assert Prompt(inp, texts, fromLanguage, toLanguage) == head + tail;
  }

  lemma {:induction false} JoinLinesEnds(lines: seq<string>)
    requires |lines| >= 1 && forall i :: 0 <= i < |lines| ==> lines[i] != []
    ensures JoinLines(lines) != []
    ensures JoinLines(lines)[0] == lines[0][0]
    ensures JoinLines(lines)[|JoinLines(lines)| - 1] == lines[|lines| - 1][|lines[|lines| - 1]| - 1]
  {
    if |lines| > 1 {
      JoinLinesEnds(lines[1..]);
    }
  }

  lemma {:induction false} CleanLinesOfCleanedLines(lines: seq<string>, texts: seq<string>)
    requires |lines| == |texts|
    requires forall i :: 0 <= i < |lines| ==> CleanLine(lines[i]) == texts[i] && texts[i] != ""
    ensures CleanLines(lines) == texts
  {
    if lines != [] {
      CleanLinesOfCleanedLines(lines[1..], texts[1..]);
      assert texts == [texts[0]] + texts[1..];
    }
  }

  /** A listed line cleans back to its text when the text is trimmed and not empty. */
  lemma CleanNumberedLine(n: nat, text: string)
    requires text != "" && IsTrimmed(text)
    ensures CleanLine(Decimal(n) + ". " + text) == text
  {
    assert Decimal(n) + ". " + text == Decimal(n) + "." + (" " + text);
    StripNumberedLine(Decimal(n), " " + text);
    assert LeadingWhitespace(" " + text) == 1 by {
      assert (" " + text)[1..] == text;
    }
    assert TrimStart(" " + text) == text;
    TrimOfTrimmed(text);
  }

  /** Each listed line is a single non-empty line ending like its text. */
  lemma NumberedLineShape(texts: seq<string>, i: nat)
    requires i < |texts| && texts[i] != "" && NoNewline(texts[i])
    ensures NumberedLines(texts)[i] == Decimal(i + 1) + ". " + texts[i]
    ensures NoNewline(NumberedLines(texts)[i])
    ensures NumberedLines(texts)[i][|NumberedLines(texts)[i]| - 1] == texts[i][|texts[i]| - 1]
  {
    var d := Decimal(i + 1);
    var line := d + ". " + texts[i];
    assert forall j :: 0 <= j < |d| ==> line[j] == d[j];
    assert forall j :: 0 <= j < |texts[i]| ==> line[|d| + 2 + j] == texts[i][j];
  }

  /**
   * A model that answers a batch with the prompt's numbered list unchanged
   * gets the input texts back: the reply parser undoes the numbering, for
   * texts that are single non-blank lines without surrounding whitespace.
   */
  lemma NumberedListParsesBack(texts: seq<string>)
    requires |texts| >= 1
    requires forall i :: 0 <= i < |texts| ==> texts[i] != "" && IsTrimmed(texts[i]) && NoNewline(texts[i])
    ensures ParseBatchReply(Trim(JoinLines(NumberedLines(texts)))) == texts
  {
    var lines := NumberedLines(texts);
    NumberedLinesClean(texts);
    var joined := JoinLines(lines);
    JoinedListIsTrimmed(texts);
    TrimOfTrimmed(joined);
    SplitJoinRoundTrip(lines);
    CleanLinesOfCleanedLines(lines, texts);
  }

  lemma NumberedLinesClean(texts: seq<string>)
    requires forall i :: 0 <= i < |texts| ==> texts[i] != "" && IsTrimmed(texts[i]) && NoNewline(texts[i])
    ensures forall i :: 0 <= i < |texts| ==>
      NumberedLines(texts)[i] != [] && NoNewline(NumberedLines(texts)[i]) && CleanLine(NumberedLines(texts)[i]) == texts[i]
  {
    forall i | 0 <= i < |texts|
      ensures NumberedLines(texts)[i] != [] && NoNewline(NumberedLines(texts)[i]) && CleanLine(NumberedLines(texts)[i]) == texts[i]
    {
      NumberedLineShape(texts, i);
      CleanNumberedLine(i + 1, texts[i]);
    }
  }

  lemma JoinedListIsTrimmed(texts: seq<string>)
    requires |texts| >= 1
    requires forall i :: 0 <= i < |texts| ==> texts[i] != "" && IsTrimmed(texts[i]) && NoNewline(texts[i])
    ensures IsTrimmed(JoinLines(NumberedLines(texts)))
  {
    var lines := NumberedLines(texts);
    forall i | 0 <= i < |lines| ensures lines[i] != [] {
      NumberedLineShape(texts, i);
    }
    NumberedLineShape(texts, 0);
    NumberedLineShape(texts, |texts| - 1);
    JoinLinesEnds(lines);
    assert lines[0][0] == Decimal(1)[0];
  }

  // ---------------------------------------------------------------------
  // The request handler

  /** The chat-completion request, when one is made. */
  datatype Call = Call(batchPrompt: bool, prompt: string, maxTokens: int)

  datatype Outcome = Outcome(reply: Reply, call: Option<Call>)

  /** The reply built from a successful completion. */
  function CompletionReply(inp: Inputs, content: string): (r: Reply)
    ensures inp.Batch? && |inp.texts| > 1 ==> r.Translations? && |r.translations| == |inp.texts|
    ensures !(inp.Batch? && |inp.texts| > 1) ==> r == TranslatedText(Some(Trim(content)))
  {
    var translated := Trim(content);
    if inp.Batch? && |inp.texts| > 1 then Translations(Aligned(ParseBatchReply(translated), inp.texts))
    else TranslatedText(Some(translated))
  }

  /** The list of texts the handler works on once a text is known to be present. */
  function TextList(inp: Inputs): (texts: seq<string>)
    requires inp != Single(None)
    ensures |texts| == Count(inp)
  {
    if inp.Batch? then inp.texts else [inp.text.value]
  }

  /**
   * The whole handler. `isPreflight` is an OPTIONS request, `hasApiKey` whether
   * the model's key is configured, `body` the parsed JSON (None when parsing
   * throws), `upstream` what the model call would yield.
   */
  function Handle(isPreflight: bool, hasApiKey: bool, body: Option<Body>, upstream: Upstream): (out: Outcome)
    // the model is consulted only for a valid request in two different languages
    ensures out.call.Some? <==>
      !isPreflight && hasApiKey && body.Some? && Valid(Normalize(body.value), body.value)
      && body.value.fromLanguage != body.value.toLanguage && Normalize(body.value) != Single(None)
    ensures out.call.Some? ==> out.call.value.batchPrompt == (Normalize(body.value).Batch? && Count(Normalize(body.value)) > 1)
    ensures out.call.Some? ==> out.call.value.maxTokens == MaxTokens(TextList(Normalize(body.value)))
    // an invalid request is a 400 and nothing else happens
    ensures !isPreflight && hasApiKey && body.Some? && !Valid(Normalize(body.value), body.value) ==>
      out == Outcome(Failure(400, MissingFields), None)
    // same language: the inputs come back as they were sent
    ensures (!isPreflight && hasApiKey && body.Some? && Valid(Normalize(body.value), body.value)
      && body.value.fromLanguage == body.value.toLanguage) ==> out.reply == Echo(Normalize(body.value))
    // a failed model call: the inputs come back as well
    ensures out.call.Some? && upstream.NotOk? ==> out.reply == Echo(Normalize(body.value))
    // a batch of several texts gets exactly one translation per text
    ensures out.call.Some? && upstream.Completion? && out.call.value.batchPrompt ==>
      out.reply.Translations? && |out.reply.translations| == Count(Normalize(body.value))
  {
    if isPreflight then Outcome(Preflight, None)
    else if !hasApiKey then Outcome(Failure(500, MissingKey), None)
    else if body.None? then Outcome(Failure(500, InternalError), None)
    else
      var b := body.value;
      var inp := Normalize(b);
      if !Valid(inp, b) then Outcome(Failure(400, MissingFields), None)
      else if b.fromLanguage == b.toLanguage then Outcome(Echo(inp), None)
      else if inp == Single(None) then
        // `text.length` of an absent text throws before the model is called
        Outcome(Failure(500, InternalError), None)
      else
        var texts := TextList(inp);
        var call := Call(inp.Batch? && |texts| > 1, Prompt(inp, texts, b.fromLanguage, b.toLanguage), MaxTokens(texts));
        match upstream
        case NotOk => Outcome(Echo(inp), Some(call))
        case Broken => Outcome(Failure(500, InternalError), Some(call))
        case Completion(content) => Outcome(CompletionReply(inp, content), Some(call))
  }

  /** The handler step by step, with the padding loop. */
  method Serve(isPreflight: bool, hasApiKey: bool, body: Option<Body>, upstream: Upstream) returns (out: Outcome)
    ensures out == Handle(isPreflight, hasApiKey, body, upstream)
  {
    if isPreflight {
      return Outcome(Preflight, None);
    }
    if !hasApiKey {
      return Outcome(Failure(500, MissingKey), None);
    }
    if body.None? {
      return Outcome(Failure(500, InternalError), None);
    }
    var b := body.value;
    var isBatch := b.texts.Some?;
    var inp := if isBatch then Batch(b.texts.value) else Single(b.text);
    assert inp == Normalize(b);
    if Count(inp) == 0 || b.fromLanguage == "" || b.toLanguage == "" {
      return Outcome(Failure(400, MissingFields), None);
    }
    if b.fromLanguage == b.toLanguage {
      return Outcome(Echo(inp), None);
    }
    if !isBatch && b.text.None? {
      return Outcome(Failure(500, InternalError), None);
    }
    var texts := if isBatch then b.texts.value else [b.text.value];
    assert texts == TextList(inp);
    var call := Call(isBatch && |texts| > 1, Prompt(inp, texts, b.fromLanguage, b.toLanguage), MaxTokens(texts));
    match upstream {
      case NotOk =>
        out := Outcome(Echo(inp), Some(call));
      case Broken =>
        out := Outcome(Failure(500, InternalError), Some(call));
      case Completion(content) =>
        var translatedContent := Trim(content);
        if isBatch && |texts| > 1 {
          var translations := PadToInputs(ParseBatchReply(translatedContent), texts);
          out := Outcome(Translations(translations), Some(call));
        } else {
          out := Outcome(TranslatedText(Some(translatedContent)), Some(call));
        }
        assert out == Outcome(CompletionReply(inp, content), Some(call));
        assert Handle(isPreflight, hasApiKey, body, upstream) == Outcome(CompletionReply(inp, content), Some(call));
    }
  }

  /**
   * A batch of exactly one text is answered like a single text, with
   * `translatedText` and no `translations`, whatever the model replies.
   */
  lemma OneTextBatchGetsTranslatedText(b: Body, t: string, content: string)
    requires b.texts == Some([t]) && b.fromLanguage != "" && b.toLanguage != ""
    requires b.fromLanguage != b.toLanguage
    ensures Handle(false, true, Some(b), Completion(content)).reply == TranslatedText(Some(Trim(content)))
  {
  }

  /** A model that returns the numbered list of a batch verbatim yields the inputs back. */
  lemma EchoingModelReturnsInputs(b: Body)
    requires b.texts.Some? && |b.texts.value| > 1 && b.fromLanguage != "" && b.toLanguage != ""
    requires b.fromLanguage != b.toLanguage
    requires forall i :: 0 <= i < |b.texts.value| ==>
      b.texts.value[i] != "" && IsTrimmed(b.texts.value[i]) && NoNewline(b.texts.value[i])
    ensures Handle(false, true, Some(b), Completion(JoinLines(NumberedLines(b.texts.value)))).reply
      == Translations(b.texts.value)
  {
    var texts := b.texts.value;
    var content := JoinLines(NumberedLines(texts));
    CompletionIsReplied(b, content);
    NumberedListParsesBack(texts);
    assert Aligned(texts, texts) == texts;
  }

  /** A valid batch in two languages is answered from the model's completion. */
  lemma CompletionIsReplied(b: Body, content: string)
    requires b.texts.Some? && |b.texts.value| > 0 && b.fromLanguage != "" && b.toLanguage != ""
    requires b.fromLanguage != b.toLanguage
    ensures Handle(false, true, Some(b), Completion(content)).reply == CompletionReply(Batch(b.texts.value), content)
  {
  }
}

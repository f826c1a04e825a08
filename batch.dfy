/** The batch grader (backend/main.py): for each church row it queries the
    church's chatbot, asks a language model for the ground truth from the
    church's website, and asks a second model to grade the chatbot's answer.

    The browser, the HTTP client, the language models and `json.loads` are
    outside the model: they are the functions of a `World`, so the same input
    always draws the same reply. */
module Batch {
  import opened Wrappers
  import opened Seqs
  import opened Strings

  /** The one question every chatbot is asked. */
  const QUESTION := "What time is service?"
  const NO_WEBSITE := "NO_WEBSITE"
  /** The ground truth given for a site marked as missing. */
  const NO_SITE_ANSWER := "No website available for ground truth comparison"
  const NO_SITE_JUSTIFICATION := "No website available for comparison"
  const MALFORMED_JUSTIFICATION := "Malformed grader output."
  const PASTORS_AI := "https://pastors.ai/"
  /** The default `max_chars` of `clean_text`. */
  const MAX_CHARS := 10000

  /** The messages of the exceptions that end a batch: `.strip()` on a missing
      cell, `.get` on a grading-model reply that is not a JSON object, and a brace span
      that is not valid JSON. */
  const NOT_A_STRING := "'float' object has no attribute 'strip'"
  const NO_GET := "object has no attribute 'get'"
  const BAD_SPAN := "grader output span is not valid JSON"

  // ----- clean_text -----

  /** Python `s[:n]`: a negative `n` counts from the end. */
  function PyPrefix(s: string, n: int): (r: string)
    ensures |r| <= |s| && r == s[..|r|]
    ensures n >= 0 ==> |r| == if n <= |s| then n else |s|
    ensures n < 0 ==> |r| == if |s| + n >= 0 then |s| + n else 0
  {
    if n >= 0 then (if n <= |s| then s[..n] else s)
    else if |s| + n >= 0 then s[..|s| + n]
    else []
  }

  /** The whitespace runs of the extracted text collapsed to single spaces,
      then truncated to `maxChars` characters (`clean_text` after the HTML has
      been reduced to its text). */
  function CleanText(text: string, maxChars: int): string
  {
    PyPrefix(Join(Words(text, IsPySpace), ' '), maxChars)
  }

  /** The only whitespace is the single space, never leading and never doubled. */
  predicate Collapsed(s: string)
  {
    && (forall i :: 0 <= i < |s| ==> s[i] == ' ' || !IsPySpace(s[i]))
    && (s != [] ==> s[0] != ' ')
    && (forall i :: 0 < i < |s| && s[i] == ' ' ==> s[i - 1] != ' ')
  }

  /** Joining words with single spaces gives a collapsed string that neither
      starts nor ends with whitespace. */
  lemma {:induction false} JoinWordsCollapsed(ws: seq<string>)
    requires forall k :: 0 <= k < |ws| ==> IsWord(ws[k], IsPySpace)
    ensures Collapsed(Join(ws, ' '))
    ensures |ws| > 0 ==> Join(ws, ' ') != [] && !IsPySpace(Join(ws, ' ')[0])
    ensures |ws| > 0 ==> !IsPySpace(Join(ws, ' ')[|Join(ws, ' ')| - 1])
    decreases |ws|
  {
    if |ws| > 1 {
      var w := ws[0];
      var t := Join(ws[1..], ' ');
      JoinWordsCollapsed(ws[1..]);
      var s := Join(ws, ' ');
      assert s == w + [' '] + t;
      assert IsWord(w, IsPySpace);
      forall i | 0 <= i < |s| ensures s[i] == ' ' || !IsPySpace(s[i]) {
        if i > |w| {
          assert s[i] == t[i - |w| - 1];
        }
      }
      assert s[|w| + 1] == t[0];
      forall i | 0 < i < |s| && s[i] == ' ' ensures s[i - 1] != ' ' {
        if i > |w| + 1 {
          assert s[i] == t[i - |w| - 1] && s[i - 1] == t[i - |w| - 2];
        }
      }
      assert s[|s| - 1] == t[|t| - 1];
    } else if |ws| == 1 {
      assert IsWord(ws[0], IsPySpace);
    }
  }

  /** `clean_text` keeps a prefix of the collapsed text: exactly `maxChars`
      characters of it when there are that many, all of it otherwise; no
      whitespace run survives; and when nothing is cut off, the words are
      those of the input, in order. */
  lemma CleanTextSpec(text: string, maxChars: int)
    ensures var joined := Join(Words(text, IsPySpace), ' ');
      && CleanText(text, maxChars) == joined[..|CleanText(text, maxChars)|]
      && (maxChars >= 0 ==> |CleanText(text, maxChars)| == if maxChars <= |joined| then maxChars else |joined|)
      && Collapsed(CleanText(text, maxChars))
      && (|joined| <= maxChars ==> Words(CleanText(text, maxChars), IsPySpace) == Words(text, IsPySpace))
  {
    var words := Words(text, IsPySpace);
    var joined := Join(words, ' ');
    var r := CleanText(text, maxChars);
    WordsAreWords(text, IsPySpace);
    JoinWordsCollapsed(words);
    assert r == joined[..|r|];
    forall i | 0 <= i < |r| ensures r[i] == joined[i] {
    }
    if |joined| <= maxChars {
      assert r == joined;
      WordsJoin(words, IsPySpace);
    }
  }

  // ----- URLs -----

  /** A handle becomes its pastors.ai page; anything else is already a URL. */
  function ChatbotUrl(chatbot: string): string
  {
    if StartsWith(chatbot, "@") then PASTORS_AI + chatbot else chatbot
  }

  /** A site without a protocol gets `https://`. */
  function SiteUrl(site: string): string
  {
    if HasProtocol(site) then site else "https://" + site
  }

  /** A handle's URL is the pastors.ai address followed by the handle, so it
      ends in the handle; a URL is left as it is, so converting twice is
      converting once. */
  lemma {:induction false} ChatbotUrlSpec(chatbot: string)
    ensures StartsWith(chatbot, "@") ==> ChatbotUrl(chatbot) == PASTORS_AI + chatbot
    ensures StartsWith(chatbot, "@") && '/' !in chatbot ==> LastSegment(ChatbotUrl(chatbot), '/') == chatbot
    ensures !StartsWith(chatbot, "@") ==> ChatbotUrl(chatbot) == chatbot
    ensures ChatbotUrl(ChatbotUrl(chatbot)) == ChatbotUrl(chatbot)
  {
    if StartsWith(chatbot, "@") {
      var url := PASTORS_AI + chatbot;
      assert url[..1] != "@" by {
        assert url[..1][0] == url[0] == 'h';
      }
      assert !StartsWith(url, "@");
      if '/' !in chatbot {
        assert url == "https://pastors.ai" + ['/'] + chatbot;
        LastSegmentAfter("https://pastors.ai", '/', chatbot);
      }
    }
  }

  /** Every site URL has a protocol; one that had it is unchanged, so the
      conversion is idempotent; and no site URL is the `NO_WEBSITE` marker,
      which itself becomes `https://NO_WEBSITE`. */
  lemma SiteUrlSpec(site: string)
    ensures HasProtocol(SiteUrl(site))
    ensures HasProtocol(site) ==> SiteUrl(site) == site
    ensures !HasProtocol(site) ==> SiteUrl(site) == "https://" + site
    ensures SiteUrl(SiteUrl(site)) == SiteUrl(site)
    ensures SiteUrl(site) != NO_WEBSITE
    ensures SiteUrl(NO_WEBSITE) == "https://NO_WEBSITE"
  {
    if !HasProtocol(site) {
      assert SiteUrl(site)[..8] == "https://";
    }
    assert !HasProtocol(NO_WEBSITE) by {
      assert NO_WEBSITE[0] != "http://"[0];
    }
  }

  // ----- the outside world -----

  /** What `ask_chatbot` did: returned an answer, timed out, or raised. */
  datatype ChatReply = Returned(text: string) | TimedOut | Raised(message: string)

  /** A JSON value as it sits in a field of the grading model's object; `Null` also
      stands for a missing key, since `dict.get` gives `None` for both. */
  datatype Field = Str(s: string) | Bool(b: bool) | Null | OtherValue

  /** What `json.loads` produced: an object, or some other JSON value. */
  datatype GraderValue = Object(fields: map<string, Field>) | NotObject

  datatype World = World(
    /** `ask_chatbot` on a chatbot URL. */
    chat: string -> ChatReply,
    /** The text of the page at a URL, or the message of the request error. */
    page: string -> Result<string, string>,
    /** The answering model's reply, given the site URL and the site text. */
    answer: (string, string) -> Result<string, string>,
    /** The grading model's raw reply, given the bot answer and the ground truth. */
    grade: (string, string) -> Result<string, string>,
    /** `json.loads`: `None` when the text is not valid JSON. */
    parse: string -> Option<GraderValue>)

  // ----- answers and grades -----

  /** `fetch_site_text`: the cleaned text, or the error in brackets. */
  function FetchSiteText(page: Result<string, string>): (text: string)
    ensures page.Success? ==> text == CleanText(page.value, MAX_CHARS)
    ensures page.Failure? ==> text == "[ERROR fetching site: " + page.error + "]"
  {
    match page
    case Success(t) => CleanText(t, MAX_CHARS)
    case Failure(e) => "[ERROR fetching site: " + e + "]"
  }

  /** `llm_answer_from_site`: the marker gives the fixed ground truth without
      fetching anything; otherwise the stripped answer of the model, or its
      error. */
  function LlmAnswerFromSite(w: World, websiteUrl: string): (gt: Result<string, string>)
    ensures websiteUrl != NO_WEBSITE ==>
      var reply := w.answer(websiteUrl, FetchSiteText(w.page(websiteUrl)));
      && (gt.Success? <==> reply.Success?)
      && (gt.Success? ==> gt.value == PyStrip(reply.value))
      && (gt.Failure? ==> gt.error == reply.error)
  {
    if websiteUrl == NO_WEBSITE then Success(NO_SITE_ANSWER)
    else
      var reply := w.answer(websiteUrl, FetchSiteText(w.page(websiteUrl)));
      if reply.Success? then Success(PyStrip(reply.value)) else Failure(reply.error)
  }

  /** The marker is answered with the fixed ground truth whatever the outside
      world would have said: no page is fetched and no model is asked. */
  lemma LlmAnswerShortcut(w: World, w': World)
    ensures LlmAnswerFromSite(w, NO_WEBSITE) == LlmAnswerFromSite(w', NO_WEBSITE) == Success(NO_SITE_ANSWER)
  {
  }

  /** The span `\{.*\}` matches with `re.S`: from the first `{` to the last `}`,
      when a `}` follows that `{`. */
  function BraceSpan(raw: string): Option<string>
  {
    if '{' in raw && '}' in raw[IndexOf(raw, '{')..] then
      var i := IndexOf(raw, '{');
      var j := i + LastIndexOf(raw[i..], '}');
      Some(raw[i..j + 1])
    else None
  }

  /** A span exists exactly when some `{` precedes some `}`. */
  lemma BraceSpanExists(raw: string)
    ensures BraceSpan(raw).Some? <==> exists i, j :: 0 <= i < j < |raw| && raw[i] == '{' && raw[j] == '}'
  {
    if exists i, j :: 0 <= i < j < |raw| && raw[i] == '{' && raw[j] == '}' {
      var i, j :| 0 <= i < j < |raw| && raw[i] == '{' && raw[j] == '}';
      var i0 := IndexOf(raw, '{');
      assert i0 <= i;
      assert raw[i0..][j - i0] == '}';
    }
    if BraceSpan(raw).Some? {
      var i := IndexOf(raw, '{');
      var k := LastIndexOf(raw[i..], '}');
      assert k != 0;
      assert raw[i + k] == '}';
    }
  }

  /** The span runs from the first `{` to the last `}`. */
  lemma BraceSpanShape(raw: string)
    requires BraceSpan(raw).Some?
    ensures exists i, j ::
      (0 <= i < j < |raw| && raw[i] == '{' && raw[j] == '}'
       && '{' !in raw[..i] && '}' !in raw[j + 1..] && BraceSpan(raw).value == raw[i..j + 1])
  {
    var i := IndexOf(raw, '{');
    var k := LastIndexOf(raw[i..], '}');
    assert k != 0;
    assert raw[i + k] == '}';
    assert raw[i + k + 1..] == raw[i..][k + 1..];
    assert BraceSpan(raw).value == raw[i..i + k + 1];
    assert 0 <= i < i + k < |raw| && raw[i] == '{' && raw[i + k] == '}'
      && '{' !in raw[..i] && '}' !in raw[i + k + 1..];
  }

  /** The record given for the marker's ground truth. */
  function NotApplicableRecord(): GraderValue
  {
    Object(map["grade" := Str("N/A"), "soft_match" := Bool(false), "justification" := Str(NO_SITE_JUSTIFICATION)])
  }

  /** The record given when the grading model's reply holds no JSON at all. */
  function MalformedRecord(): GraderValue
  {
    Object(map["grade" := Str("D"), "soft_match" := Bool(false), "justification" := Str(MALFORMED_JUSTIFICATION)])
  }

  /** The grading model's stripped reply read as JSON: the whole of it, else its brace
      span, else the malformed record. */
  function ReadGrade(raw: string, parse: string -> Option<GraderValue>): Result<GraderValue, string>
  {
    if parse(raw).Some? then Success(parse(raw).value)
    else
      match BraceSpan(raw)
      case Some(span) => if parse(span).Some? then Success(parse(span).value) else Failure(BAD_SPAN)
      case None => Success(MalformedRecord())
  }

  /** `llm_grade`. */
  function LlmGrade(w: World, botAnswer: string, gtAnswer: string): Result<GraderValue, string>
  {
    if gtAnswer == NO_SITE_ANSWER then Success(NotApplicableRecord())
    else
      var reply := w.grade(botAnswer, gtAnswer);
      if reply.Failure? then Failure(reply.error) else ReadGrade(PyStrip(reply.value), w.parse)
  }

  /** The marker's ground truth is graded N/A whatever the grading model would
      say; any other ground truth goes to the grading model, whose error ends
      the grading. */
  lemma LlmGradeShortcut(w: World, w': World, botAnswer: string, gtAnswer: string)
    ensures LlmGrade(w, botAnswer, NO_SITE_ANSWER) == LlmGrade(w', botAnswer, NO_SITE_ANSWER) == Success(NotApplicableRecord())
    ensures gtAnswer != NO_SITE_ANSWER && w.grade(botAnswer, gtAnswer).Failure? ==>
      LlmGrade(w, botAnswer, gtAnswer) == Failure(w.grade(botAnswer, gtAnswer).error)
  {
  }

  /** Reading the grading model's reply: valid JSON is taken as it is; otherwise a reply
      with no `{` before a `}` gives grade D, soft match false and the
      malformed justification, and a brace span that does not parse raises. */
  lemma ReadGradeSpec(raw: string, parse: string -> Option<GraderValue>)
    ensures parse(raw).Some? ==> ReadGrade(raw, parse) == Success(parse(raw).value)
    ensures parse(raw).None? && (forall i, j :: 0 <= i < j < |raw| ==> !(raw[i] == '{' && raw[j] == '}')) ==>
      ReadGrade(raw, parse) == Success(MalformedRecord())
    ensures ReadGrade(raw, parse).Failure? <==>
      parse(raw).None? && BraceSpan(raw).Some? && parse(BraceSpan(raw).value).None?
    ensures ReadGrade(raw, parse).Success? && ReadGrade(raw, parse) != Success(MalformedRecord()) ==>
      || (parse(raw).Some? && ReadGrade(raw, parse).value == parse(raw).value)
      || (BraceSpan(raw).Some? && parse(BraceSpan(raw).value) == Some(ReadGrade(raw, parse).value))
  {
    BraceSpanExists(raw);
  }

  /** `dict.get`. */
  function FieldOf(v: GraderValue, key: string): Field
    requires v.Object?
  {
    if key in v.fields then v.fields[key] else Null
  }

  // ----- one row -----

  /** A row of the church table: the Chatbot and Website cells, `None` when
      missing. */
  datatype InputRow = InputRow(chatbot: Option<string>, website: Option<string>)

  /** A row of the report. */
  datatype ReportRow = ReportRow(
    chatbotUrl: string,
    websiteUrl: string,
    botAnswer: string,
    gptAnswer: string,
    grade: Field,
    softMatch: Field,
    justification: Field)

  /** The bot answer recorded for a chatbot reply: an exception becomes a
      bracketed message instead of ending the batch. */
  function BotAnswer(reply: ChatReply): string
  {
    match reply
    case Returned(text) => text
    case TimedOut => "[TIMEOUT querying chatbot]"
    case Raised(message) => "[ERROR querying chatbot: " + message + "]"
  }

  /** The body of the `run_batch` loop for one row: its report row, or the
      message of the exception that ends the batch. */
  function ProcessRow(row: InputRow, w: World): Result<ReportRow, string>
  {
    if row.chatbot.None? || row.website.None? then Failure(NOT_A_STRING)
    else
      var chatbotUrl := ChatbotUrl(PyStrip(row.chatbot.value));
      var site := SiteUrl(PyStrip(row.website.value));
      var bot := BotAnswer(w.chat(chatbotUrl));
      var gt := LlmAnswerFromSite(w, site);
      if gt.Failure? then Failure(gt.error)
      else
        var grade := LlmGrade(w, bot, gt.value);
        if grade.Failure? then Failure(grade.error)
        else if grade.value.NotObject? then Failure(NO_GET)
        else Success(ReportRow(chatbotUrl, site, bot, gt.value,
          FieldOf(grade.value, "grade"), FieldOf(grade.value, "soft_match"), FieldOf(grade.value, "justification")))
  }

  /** A report row holds the normalised URLs, the chatbot's answer, the
      answering model's stripped answer and the grading model's three fields.
      A row raises when a cell is missing, when the answering or the grading
      model raises, or when the grade is not an object; otherwise it is
      reported. */
  lemma ProcessRowSpec(row: InputRow, w: World)
    ensures ProcessRow(row, w).Success? ==>
      var out := ProcessRow(row, w).value;
      && row.chatbot.Some? && row.website.Some?
      && out.chatbotUrl == ChatbotUrl(PyStrip(row.chatbot.value))
      && out.websiteUrl == SiteUrl(PyStrip(row.website.value)) && HasProtocol(out.websiteUrl)
      && out.botAnswer == BotAnswer(w.chat(out.chatbotUrl))
      && (var reply := w.answer(out.websiteUrl, FetchSiteText(w.page(out.websiteUrl)));
          reply.Success? && out.gptAnswer == PyStrip(reply.value))
      && LlmGrade(w, out.botAnswer, out.gptAnswer).Success?
      && (var g := LlmGrade(w, out.botAnswer, out.gptAnswer).value;
          && out.grade == FieldOf(g, "grade")
          && out.softMatch == FieldOf(g, "soft_match")
          && out.justification == FieldOf(g, "justification"))
    ensures row.chatbot.None? || row.website.None? ==> ProcessRow(row, w) == Failure(NOT_A_STRING)
    // with both cells present, the row raises exactly where the loop body can
    ensures row.chatbot.Some? && row.website.Some? ==>
      var bot := BotAnswer(w.chat(ChatbotUrl(PyStrip(row.chatbot.value))));
      var gt := LlmAnswerFromSite(w, SiteUrl(PyStrip(row.website.value)));
      && (gt.Failure? ==> ProcessRow(row, w) == Failure(gt.error))
      && (gt.Success? && LlmGrade(w, bot, gt.value).Failure? ==>
            ProcessRow(row, w) == Failure(LlmGrade(w, bot, gt.value).error))
      && (gt.Success? && LlmGrade(w, bot, gt.value).Success? && LlmGrade(w, bot, gt.value).value.NotObject? ==>
            ProcessRow(row, w) == Failure(NO_GET))
      && (gt.Success? && LlmGrade(w, bot, gt.value).Success? && !LlmGrade(w, bot, gt.value).value.NotObject? ==>
            ProcessRow(row, w).Success?)
  {
    if row.chatbot.Some? && row.website.Some? {
      SiteUrlSpec(PyStrip(row.website.value));
    }
  }

  /** A chatbot that times out or raises is recorded like a chatbot that
      answered with the bracketed message: the row goes on to be graded. */
  lemma ChatFailureDoesNotAbort(row: InputRow, w: World, failure: ChatReply)
    requires !failure.Returned?
    requires row.chatbot.Some?
    requires w.chat(ChatbotUrl(PyStrip(row.chatbot.value))) == failure
    ensures ProcessRow(row, w) == ProcessRow(row, w.(chat := url => Returned(BotAnswer(failure))))
  {
  }

  /** A `NO_WEBSITE` row is not given the N/A shortcut: its site becomes
      `https://NO_WEBSITE`, that page is fetched, and the answering model is
      asked about it; if the model fails, the whole batch ends. */
  lemma NoWebsiteRowIsFetched(row: InputRow, w: World)
    requires row.chatbot.Some? && row.website == Some(NO_WEBSITE)
    ensures var url := "https://NO_WEBSITE";
      var reply := w.answer(url, FetchSiteText(w.page(url)));
      && (reply.Failure? ==> ProcessRow(row, w) == Failure(reply.error))
      && (ProcessRow(row, w).Success? ==>
            ProcessRow(row, w).value.websiteUrl == url && ProcessRow(row, w).value.gptAnswer == PyStrip(reply.value))
  {
    StripFixed(NO_WEBSITE, IsPySpace);
    SiteUrlSpec(NO_WEBSITE);
    var url := "https://NO_WEBSITE";
    assert SiteUrl(PyStrip(row.website.value)) == url;
    assert url != NO_WEBSITE;
    var gt := LlmAnswerFromSite(w, url);
    var reply := w.answer(url, FetchSiteText(w.page(url)));
    assert gt.Success? <==> reply.Success?;
  }

  // ----- the batch -----

  /** The `run_batch` loop over a row step: one report row per input row, in
      input order, or the exception of the first row that raises. */
  method RunRows(rows: seq<InputRow>, step: InputRow -> Result<ReportRow, string>)
    returns (report: Result<seq<ReportRow>, string>)
    ensures report.Success? ==>
      |report.value| == |rows| && forall i :: 0 <= i < |rows| ==> step(rows[i]) == Success(report.value[i])
    ensures (forall i :: 0 <= i < |rows| ==> step(rows[i]).Success?) ==> report.Success?
    ensures report.Failure? ==>
      exists k :: 0 <= k < |rows| && step(rows[k]) == Failure(report.error)
        && forall i :: 0 <= i < k ==> step(rows[i]).Success?
  {
    var out: seq<ReportRow> := [];
    var i := 0;
    while i < |rows|
      invariant 0 <= i <= |rows| && |out| == i
      invariant forall k :: 0 <= k < i ==> step(rows[k]) == Success(out[k])
    {
      var r := step(rows[i]);
      if r.Failure? {
        return Failure(r.error);
      }
      out := out + [r.value];
      i := i + 1;
    }
    return Success(out);
  }

  /** `run_batch`. */
  method RunBatch(rows: seq<InputRow>, w: World) returns (report: Result<seq<ReportRow>, string>)
    ensures report.Success? ==>
      |report.value| == |rows| && forall i :: 0 <= i < |rows| ==> ProcessRow(rows[i], w) == Success(report.value[i])
    ensures (forall i :: 0 <= i < |rows| ==> ProcessRow(rows[i], w).Success?) ==> report.Success?
    ensures report.Failure? ==>
      exists k :: 0 <= k < |rows| && ProcessRow(rows[k], w) == Failure(report.error)
        && forall i :: 0 <= i < k ==> ProcessRow(rows[i], w).Success?
  {
    report := RunRows(rows, row => ProcessRow(row, w));
  }
}

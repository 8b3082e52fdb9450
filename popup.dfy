/**
 * The side panel's resume parsing (popup.js): the prompt text limit, the
 * check that a model is configured, and `parseAndStoreResume` with its
 * in-progress flag. The model call is a parameter; the prompt wording around
 * the resume text is not part of this model.
 */
module Popup {
  import opened Wrappers
  import opened Strings
  import opened Json
  import opened JsonRecovery

  /** The most characters of resume text sent to the model. */
  const MaxPromptChars: nat := 60000

  /** `limitTextForPrompt(text)`: the text itself when short enough, else its
      first `MaxPromptChars` characters. */
  function LimitTextForPrompt(text: string): (r: string)
    ensures |r| <= MaxPromptChars && |r| <= |text|
    ensures r == text[..|r|]
    ensures |text| <= MaxPromptChars ==> r == text
    ensures |text| > MaxPromptChars ==> |r| == MaxPromptChars
  {
    if |text| <= MaxPromptChars then text else text[..MaxPromptChars]
  }

  /** A stored model entry; a missing entry is `None`. */
  datatype ModelConfig = ModelConfig(baseUrl: string, apiKey: string, model: string)

  /** `isModelConfigured(model)`: an entry whose base URL, key and model name
      are all non-empty. */
  predicate IsModelConfigured(m: Option<ModelConfig>) {
    m.Some? && m.value.baseUrl != [] && m.value.apiKey != [] && m.value.model != []
  }

  /** What one call of `parseAndStoreResume` ends with, as its log says. */
  datatype ResumeParse =
    | Busy
    | EmptyText
    | NotConfigured
    | Failed(message: string)
    | Parsed(text: string, value: Json)

  /** The outcome of `parseAndStoreResume(raw)` when no parse is running:
      the trimmed text must not be empty, the model must be configured, the
      (limited) text goes to the model, and the reply is recovered as JSON. */
  function ParseResume(raw: string, model: Option<ModelConfig>, ask: string -> Result<string>,
                       parse: string -> Option<Json>): ResumeParse
  {
    var text := Trim(raw);
    if text == [] then EmptyText
    else if !IsModelConfigured(model) then NotConfigured
    else
      var reply := ask(LimitTextForPrompt(text));
      if reply.Err? then Failed(reply.message)
      else
        var parsed := ParseJsonFromAiText(reply.value, parse, PopupParseFailure);
        if parsed.Err? then Failed(parsed.message) else Parsed(text, parsed.value)
  }

  /** A resume is parsed only from non-blank text with a configured model;
      what is stored is the trimmed text and the JSON recovered from the
      model's reply to at most `MaxPromptChars` characters of it; a failure
      carries the model call's error, or says the reply was empty or not
      JSON. */
  lemma ParseResumeSpec(raw: string, model: Option<ModelConfig>, ask: string -> Result<string>,
                        parse: string -> Option<Json>)
    ensures var r := ParseResume(raw, model, ask, parse);
      && (r.Parsed? <==>
            && Trim(raw) != [] && IsModelConfigured(model)
            && ask(LimitTextForPrompt(Trim(raw))).Ok?
            && ParseJsonFromAiText(ask(LimitTextForPrompt(Trim(raw))).value, parse, PopupParseFailure).Ok?)
      && (r.Parsed? ==>
            && r.text == Trim(raw) && IsTrimmed(r.text)
            && r.value == ParseJsonFromAiText(ask(LimitTextForPrompt(r.text)).value, parse, PopupParseFailure).value)
      && (r == EmptyText <==> Trim(raw) == [])
      && (r.Failed? ==>
            || ask(LimitTextForPrompt(Trim(raw))) == Err(r.message)
            || r.message == PopupParseFailure || r.message == EmptyReply)
      && r != Busy
  {
    TrimSpec(raw);
  }

  /** The panel's resume state. */
  class ResumePanel {
    var isParsingResume: bool
    var resumeStructured: Option<Json>
    var resumeRawText: string

    constructor (stored: Option<Json>, rawText: string)
      ensures !isParsingResume && resumeStructured == stored && resumeRawText == rawText
    {
      isParsingResume := false;
      resumeStructured := stored;
      resumeRawText := rawText;
    }

    /** `parseAndStoreResume(raw)`: refused while a parse runs; a parsed
        resume replaces the stored one together with its text; any other
        outcome leaves them as they were; the flag is back at the end. */
    method ParseAndStoreResume(raw: string, model: Option<ModelConfig>, ask: string -> Result<string>,
                               parse: string -> Option<Json>) returns (r: ResumeParse)
      modifies this
      ensures isParsingResume == old(isParsingResume)
      ensures old(isParsingResume) ==> r == Busy
      ensures !old(isParsingResume) ==> r == ParseResume(raw, model, ask, parse)
      ensures r.Parsed? ==> resumeStructured == Some(r.value) && resumeRawText == r.text
      ensures !r.Parsed? ==> resumeStructured == old(resumeStructured) && resumeRawText == old(resumeRawText)
    {
      if isParsingResume {
        return Busy;
      }
      var text := Trim(raw);
      if text == [] {
        return EmptyText;
      }
      if !IsModelConfigured(model) {
        return NotConfigured;
      }
      isParsingResume := true;
      var reply := ask(LimitTextForPrompt(text));
      if reply.Err? {
        r := Failed(reply.message);
      } else {
        var parsed := ParseJsonFromAiText(reply.value, parse, PopupParseFailure);
        if parsed.Err? {
          r := Failed(parsed.message);
        } else {
          resumeStructured := Some(parsed.value);
          resumeRawText := text;
          r := Parsed(text, parsed.value);
        }
      }
      isParsingResume := false;
    }
  }
}

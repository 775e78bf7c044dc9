/** Summary and multiple-choice generation (eduweave/generation.py): the
    context clean-up, the guards that refuse an empty context before the
    model is asked, and how the MCQ reply is shaped. The text generator and
    the JSON parser are parameters. */
module Generation {
  import opened Common
  import opened TextProcessing

  /** A parsed JSON value, as json.loads returns it. */
  datatype Json =
    | JNull
    | JBool(b: bool)
    | JNumber(n: int)
    | JString(s: string)
    | JArray(items: seq<Json>)
    | JObject(fields: map<string, Json>)

  datatype GenerationError = NoText   // ValueError: nothing left to send

  /** The fixed first lines of the two prompts (lines 39 and 74). */
  const SummaryInstruction: string := "You write concise, structured study notes.\n"
  const McqInstruction: string := "You design rigorous but fair multiple-choice questions.\n"

  // ---------------------------------------------------------------------
  // _clean_context
  // ---------------------------------------------------------------------

  /** `_clean_context` (lines 13-15): the whitespace-normalised text, cut to
      `limit` characters by a Python slice (a negative limit drops that many
      characters from the end). */
  function CleanContext(text: string, limit: int): (r: string)
    ensures var n := NormalizeWhitespace(text);
      && |r| <= |n| && r == n[..|r|]
      && (limit >= 0 ==> |r| == Min(limit, |n|))
      && (limit < 0 ==> |r| == Max(|n| + limit, 0))
      && (r == [] <==> AllSpace(text) || limit == 0 || (limit < 0 && |n| + limit <= 0))
  {
    PyPrefix(NormalizeWhitespace(text), limit)
  }

  /** The context holds no line break, no whitespace other than ' ', and
      no two spaces in a row. */
  lemma {:induction false} CleanContextShape(text: string, limit: int)
    ensures var r := CleanContext(text, limit);
      && (forall i :: 0 <= i < |r| && IsSpace(r[i]) ==> r[i] == ' ')
      && (forall i :: 0 <= i < |r| - 1 ==> !(IsSpace(r[i]) && IsSpace(r[i + 1])))
      && (r == [] || !IsSpace(r[0]))
  {
    var n := NormalizeWhitespace(text);
    var r := CleanContext(text, limit);
    assert forall i :: 0 <= i < |r| ==> r[i] == n[i];
  }

  // ---------------------------------------------------------------------
  // generate_summary
  // ---------------------------------------------------------------------

  const SummaryHeader: string := "Source material:\n"
  const SummaryTail: string :=
    "\n\nProduce a concise study summary with:\n- a short overview paragraph,\n"
    + "- 2-4 bullet lists grouped by major themes,\n"
    + "- highlight critical formulas or definitions if present.\n"
    + "Keep the tone friendly and academic."

  /** The summary prompt of lines 28-35. */
  function SummaryPrompt(context: string): (p: string)
    ensures |p| >= |SummaryHeader| + |context|
    ensures p[..|SummaryHeader|] == SummaryHeader
    ensures p[|SummaryHeader|..|SummaryHeader| + |context|] == context
  {
    PartsOfThree(SummaryHeader, context, SummaryTail);
    SummaryHeader + context + SummaryTail
  }

  /** The full prompt generate_summary sends, or None when it refuses. */
  function SummaryRequest(corpus: string, config: GenerationConfig): (req: Option<string>)
    ensures req.None? <==> CleanContext(corpus, config.maxSummaryChars) == []
    ensures req.Some? ==>
      req.value == SummaryInstruction + SummaryPrompt(CleanContext(corpus, config.maxSummaryChars))
  {
    var context := CleanContext(corpus, config.maxSummaryChars);
    if context == [] then None else Some(SummaryInstruction + SummaryPrompt(context))
  }

  /** `generate_summary` (lines 18-42): ValueError on an empty context, else
      the generator's reply to the prompt, unchanged. */
  function GenerateSummary(corpus: string, config: GenerationConfig, generate: string -> string)
    : (r: Result<string, GenerationError>)
    ensures r.Err? <==> SummaryRequest(corpus, config).None?
    ensures r.Ok? ==> r.value == generate(SummaryRequest(corpus, config).value)
  {
    match SummaryRequest(corpus, config)
    case None => Err(NoText)
    case Some(prompt) => Ok(generate(prompt))
  }

  /** The summary request carries the whole cleaned context, right after
      the instruction line and the header. */
  lemma {:induction false} SummaryRequestCarriesContext(corpus: string, config: GenerationConfig)
    requires SummaryRequest(corpus, config).Some?
    ensures var p := SummaryRequest(corpus, config).value;
      var c := CleanContext(corpus, config.maxSummaryChars);
      var k := |SummaryInstruction| + |SummaryHeader|;
      && |p| >= k + |c| && p[..|SummaryInstruction|] == SummaryInstruction && p[k..k + |c|] == c
  {
    var c := CleanContext(corpus, config.maxSummaryChars);
    PartsOfFour(SummaryInstruction, SummaryHeader, c, SummaryTail);
  }

  // ---------------------------------------------------------------------
  // generate_mcqs
  // ---------------------------------------------------------------------

  const McqLead: string := "Use the material below to create "
  const McqMaterial: string := " engineering-style MCQs.\n\nMaterial:\n"
  const McqSchema: string :=
    "\n\nReturn valid JSON with this schema:\n[\n  {\n    \"question\": \"...\",\n"
    + "    \"options\": [\"A) ...\", \"B) ...\", \"C) ...\", \"D) ...\"],\n"
    + "    \"answer\": \"A\",\n    \"explanation\": \"1 sentence justification\"\n  }\n]\n"
    + "Include varied concepts and avoid trivia."

  /** The MCQ prompt of lines 56-70. */
  function McqPrompt(numQuestions: int, context: string): (p: string)
    ensures var n := IntToString(numQuestions);
      && |p| >= |McqLead| + |n| + |McqMaterial| + |context|
      && p[..|McqLead|] == McqLead
      && p[|McqLead|..|McqLead| + |n|] == n
      && p[|McqLead| + |n| + |McqMaterial|..|McqLead| + |n| + |McqMaterial| + |context|] == context
  {
    var n := IntToString(numQuestions);
    PartsOfFive(McqLead, n, McqMaterial, context, McqSchema);
    McqLead + n + McqMaterial + context + McqSchema
  }

  /** The full prompt generate_mcqs sends, or None when it refuses. */
  function McqRequest(corpus: string, numQuestions: int, config: GenerationConfig): (req: Option<string>)
    ensures req.None? <==> CleanContext(corpus, config.maxMcqChars) == []
    ensures req.Some? ==>
      req.value == McqInstruction + McqPrompt(numQuestions, CleanContext(corpus, config.maxMcqChars))
  {
    var context := CleanContext(corpus, config.maxMcqChars);
    if context == [] then None else Some(McqInstruction + McqPrompt(numQuestions, context))
  }

  /** Lines 79-86: the parsed list when the reply parses as a JSON array,
      otherwise no questions; the raw reply is always returned beside it. */
  function ShapeMcqs(raw: string, parse: string -> Option<Json>): (r: (seq<Json>, string))
    ensures r.1 == raw
    ensures parse(raw).Some? && parse(raw).value.JArray? ==> r.0 == parse(raw).value.items
    ensures !(parse(raw).Some? && parse(raw).value.JArray?) ==> r.0 == []
  {
    match parse(raw)
    case Some(JArray(items)) => (items, raw)
    case _ => ([], raw)
  }

  /** `generate_mcqs` (lines 45-86). */
  function GenerateMcqs(corpus: string, numQuestions: int, config: GenerationConfig,
                        generate: string -> string, parse: string -> Option<Json>)
    : (r: Result<(seq<Json>, string), GenerationError>)
    ensures r.Err? <==> McqRequest(corpus, numQuestions, config).None?
    ensures r.Ok? ==> r.value.1 == generate(McqRequest(corpus, numQuestions, config).value)
    ensures r.Ok? && parse(r.value.1).Some? && parse(r.value.1).value.JArray? ==>
      r.value.0 == parse(r.value.1).value.items
    ensures r.Ok? && !(parse(r.value.1).Some? && parse(r.value.1).value.JArray?) ==> r.value.0 == []
  {
    match McqRequest(corpus, numQuestions, config)
    case None => Err(NoText)
    case Some(prompt) => Ok(ShapeMcqs(generate(prompt), parse))
  }

  /** Every MCQ prompt starts with the fixed instruction line, followed by
      the request for that many questions. */
  lemma {:induction false} McqPromptStarts(corpus: string, numQuestions: int, config: GenerationConfig)
    requires McqRequest(corpus, numQuestions, config).Some?
    ensures var p := McqRequest(corpus, numQuestions, config).value;
      |p| > |McqInstruction| && p[..|McqInstruction|] == McqInstruction
  {
    var p := McqRequest(corpus, numQuestions, config).value;
    var rest := McqPrompt(numQuestions, CleanContext(corpus, config.maxMcqChars));
    assert p == McqInstruction + rest;
    assert p[..|McqInstruction|] == McqInstruction;
  }
}

/** The translator service: builds the prompt of a translate or a
    situation-generation request, sends it with its feature's configuration
    through the provider's structured-output call, and maps the parsed output,
    or any failure, into the response envelope `{data?, success?, message?, error?}`. */
module TranslatorService {
  import opened Wrappers
  import opened Strings
  import opened Features
  import opened TranslatorConfig

  /** The languages a situation request may name, as the request schema the
      router checks bodies against lists them. */
  datatype Language = TH | EN | JA | ZH | VI | ID

  /** A translate request names only Thai or English. */
  type TranslateLanguage = l: Language | l == TH || l == EN witness TH

  function LanguageCode(l: Language): string
  {
    match l
    case TH => "TH"
    case EN => "EN"
    case JA => "JA"
    case ZH => "ZH"
    case VI => "VI"
    case ID => "ID"
  }

  datatype SituationKind = Declarative | Interrogative | Imperative | Exclamatory

  function KindName(k: SituationKind): string
  {
    match k
    case Declarative => "Declarative"
    case Interrogative => "Interrogative"
    case Imperative => "Imperative"
    case Exclamatory => "Exclamatory"
  }

  /** One requested situation type, with its optional description. */
  datatype SituationType = SituationType(kind: SituationKind, description: Option<string>)

  const DEFAULT_DESCRIPTION := "Think by AI Teacher"
  const ALL_DECLARATIVE := "All Declarative"

  // ---------------------------------------------------------------------------
  // The situation-type instruction

  /** `description || "Think by AI Teacher"`: an absent and an empty
      description both fall back to the default, so a line never shows an
      empty description. */
  function DescriptionOrDefault(d: Option<string>): (r: string)
    ensures r != ""
    ensures d.Some? && d.value != "" ==> r == d.value
    ensures d.None? || d.value == "" ==> r == DEFAULT_DESCRIPTION
  {
    if d.Some? && d.value != "" then d.value else DEFAULT_DESCRIPTION
  }

  /** The instruction line of one situation type: it opens with the type's
      name, and is a single line when the description is. */
  function SituationLine(t: SituationType): (line: string)
    ensures "- " + KindName(t.kind) + ": " <= line
    ensures (t.description.Some? ==> '\n' !in t.description.value) ==> '\n' !in line
  {
    assert '\n' !in KindName(t.kind);
    assert '\n' !in DEFAULT_DESCRIPTION;
    "- " + KindName(t.kind) + ": " + DescriptionOrDefault(t.description)
  }

  /** One line per requested type, in request order. */
  function SituationLines(types: seq<SituationType>): (lines: seq<string>)
    ensures |lines| == |types|
    ensures forall i :: 0 <= i < |types| ==> lines[i] == SituationLine(types[i])
  {
    if |types| == 0 then [] else [SituationLine(types[0])] + SituationLines(types[1..])
  }

  /** The situation-type instruction: the lines joined by newlines. It is
      empty exactly when no types, or an empty list of types, were sent, and
      otherwise opens with the first type's line. */
  function SituationTypesInstruction(types: Option<seq<SituationType>>): (r: string)
    ensures r == "" <==> types.None? || types.value == []
    ensures types.Some? && types.value != [] ==> SituationLine(types.value[0]) <= r
  {
    if types.None? then ""
    else
      var lines := SituationLines(types.value);
      assert |lines| > 0 ==> lines[0] <= Join(lines, "\n") && |lines[0]| > 0 by {
        if |lines| > 0 {
          JoinStartsWithFirst(lines, "\n");
        }
      }
      Join(lines, "\n")
  }

  /** What the prompt lists as the situation types: "All Declarative"
      exactly when no types, or an empty list, were sent, and the
      instruction otherwise. */
  function SituationSection(types: Option<seq<SituationType>>): (r: string)
    ensures r == ALL_DECLARATIVE <==> types.None? || types.value == []
    ensures types.Some? && types.value != [] ==> r == SituationTypesInstruction(types)
  {
    var instruction := SituationTypesInstruction(types);
    if instruction == "" then ALL_DECLARATIVE
    else
      assert instruction[0] == '-' by {
        var line := SituationLine(types.value[0]);
        assert line[0] == '-';
      }
      instruction
  }

  /** No description carries a line break. */
  ghost predicate SingleLineDescriptions(types: seq<SituationType>)
  {
    forall i :: 0 <= i < |types| ==> types[i].description.Some? ==> '\n' !in types[i].description.value
  }

  /** Read back line by line, the instruction is exactly one line
      `- <type>: <description>` per requested type, in request order. */
  lemma InstructionLines(types: seq<SituationType>)
    requires |types| > 0
    requires SingleLineDescriptions(types)
    ensures Split(SituationTypesInstruction(Some(types)), '\n') == SituationLines(types)
  {
    var lines := SituationLines(types);
    forall i | 0 <= i < |lines| ensures '\n' !in lines[i] {
      assert lines[i] == SituationLine(types[i]);
    }
    SplitJoin(lines, '\n');
  }

  // ---------------------------------------------------------------------------
  // Prompts

  const TRANSLATE_LEAD := "Translate the following text to "

  /** The user message of a translate request: the instruction naming the
      target language, then the text unchanged at the end. */
  function TranslatePrompt(text: string, target: TranslateLanguage): (prompt: string)
    ensures TRANSLATE_LEAD + LanguageCode(target) <= prompt
    ensures |prompt| == |TRANSLATE_LEAD| + 4 + |text|
    ensures prompt[|prompt| - |text|..] == text
  {
    TRANSLATE_LEAD + LanguageCode(target) + ": " + text
  }

  /** The prompt names the target language and carries the text unchanged:
      different requests never share a prompt. */
  lemma TranslatePromptDetermines(text1: string, target1: TranslateLanguage, text2: string, target2: TranslateLanguage)
    requires TranslatePrompt(text1, target1) == TranslatePrompt(text2, target2)
    ensures text1 == text2 && target1 == target2
  {
    var p := TranslatePrompt(text1, target1);
    var n := |TRANSLATE_LEAD| + 4;
    assert p == (TRANSLATE_LEAD + LanguageCode(target1) + ": ") + text1;
    assert p == (TRANSLATE_LEAD + LanguageCode(target2) + ": ") + text2;
    assert p[n..] == text1 && p[n..] == text2;
    assert p[|TRANSLATE_LEAD|] == LanguageCode(target1)[0] == LanguageCode(target2)[0];
  }

  /** The indentation of the situation prompt's template lines. */
  const INDENT := "                            "

  /** The first line of the situation prompt's body: indented, it asks for
      a situation based on the text, which follows the lead unchanged. */
  function SituationRequestLine(text: string, target: Language, source: Language): (line: string)
    ensures INDENT + GENERATE_LEAD + text <= line
  {
    INDENT + GENERATE_LEAD + text + TRANSLATE_TO + LanguageCode(target) + SOURCE_IN + LanguageCode(source) + LINE_END
  }

  // Written as two literals so that the proof that it holds no line break
  // checks two short literals rather than one long one.
  const GENERATE_LEAD := "Generate a situation " + "based on the following text: "
  const TRANSLATE_TO := ". and translate it to "
  const SOURCE_IN := " language. and the situation should be in "
  const LINE_END := " language,"
  const ORDER_LINE := INDENT + "The order of situation types follow this:"

  /** The template's fixed pieces do not break a line (split into three
      lemmas so that each checks only a few literals). */
  lemma IndentSingleLine()
    ensures '\n' !in INDENT && '\n' !in ORDER_LINE
  {
    assert forall i :: 0 <= i < |INDENT| ==> INDENT[i] == ' ';
    assert '\n' !in "The order of situation types follow this:";
  }

  lemma GenerateLeadSingleLine()
    ensures '\n' !in GENERATE_LEAD && '\n' !in TRANSLATE_TO
  {
    assert '\n' !in "Generate a situation ";
    assert '\n' !in "based on the following text: ";
  }

  lemma LanguageClauseSingleLine()
    ensures '\n' !in SOURCE_IN && '\n' !in LINE_END && '\n' !in ALL_DECLARATIVE
  {
  }

  /** The request line is one line when the text is. */
  lemma RequestSingleLine(text: string, target: Language, source: Language)
    requires '\n' !in text
    ensures '\n' !in SituationRequestLine(text, target, source)
  {
    IndentSingleLine();
    GenerateLeadSingleLine();
    LanguageClauseSingleLine();
    assert '\n' !in LanguageCode(target) && '\n' !in LanguageCode(source);
  }

  /** The lines the section stands for: one per requested type, or the
      single fallback line. */
  function SectionLines(types: Option<seq<SituationType>>): (lines: seq<string>)
    ensures |lines| >= 1
  {
    if types.None? || types.value == [] then [ALL_DECLARATIVE] else SituationLines(types.value)
  }

  /** The indented section line splits into the requested lines, the first
      one carrying the indentation. */
  lemma SectionPieces(types: Option<seq<SituationType>>)
    requires types.Some? ==> SingleLineDescriptions(types.value)
    ensures
      var lines := SectionLines(types);
      Split(INDENT + SituationSection(types), '\n') == [INDENT + lines[0]] + lines[1..]
  {
    var section := SituationSection(types);
    IndentSingleLine();
    if types.None? || types.value == [] {
      LanguageClauseSingleLine();
      assert '\n' !in INDENT + section;
      SplitFree(INDENT + section, '\n');
    } else {
      InstructionLines(types.value);
      IndentFirstPiece(section, '\n');
    }
  }

  /** The user message of a situation request: it opens with an empty line,
      the request line and the order line, and closes with the indentation
      after the section (its line-by-line reading is SituationPromptLines). */
  function SituationPrompt(text: string, target: Language, source: Language, section: string): (prompt: string)
    ensures "\n" + SituationRequestLine(text, target, source) + "\n" + ORDER_LINE + "\n" <= prompt
    ensures prompt[|prompt| - |INDENT|..] == INDENT
  {
    "\n" + SituationRequestLine(text, target, source) + "\n" + ORDER_LINE + "\n" + INDENT + section + "\n" + INDENT
  }

  /** Read back line by line, the situation prompt is the request line, the
      order line, then one line per requested type in request order (or the
      single line "All Declarative"), then the closing indentation. */
  lemma SituationPromptLines(text: string, target: Language, source: Language, types: Option<seq<SituationType>>)
    requires '\n' !in text
    requires types.Some? ==> SingleLineDescriptions(types.value)
    ensures
      var lines := SectionLines(types);
      Split(SituationPrompt(text, target, source, SituationSection(types)), '\n')
        == ["", SituationRequestLine(text, target, source), ORDER_LINE, INDENT + lines[0]] + lines[1..] + [INDENT]
  {
    var section := SituationSection(types);
    var request := SituationRequestLine(text, target, source);
    RequestSingleLine(text, target, source);
    SectionPieces(types);
    IndentSingleLine();
    PromptShape(text, target, source, section);
    SplitFrame(request, ORDER_LINE, INDENT + section, INDENT, '\n');
    var lines := SectionLines(types);
    Regroup("", request, ORDER_LINE, INDENT + lines[0], lines[1..], INDENT);
  }

  /** Proof step: the prompt as a concatenation of single characters and
      lines, the form SplitFrame takes. */
  lemma PromptShape(text: string, target: Language, source: Language, section: string)
    ensures SituationPrompt(text, target, source, section)
      == ['\n'] + SituationRequestLine(text, target, source) + ['\n'] + ORDER_LINE + ['\n'] + (INDENT + section) + ['\n'] + INDENT
  {
  }

  /** Proof step: moves the brackets of a sequence concatenation. */
  lemma Regroup<T>(a: T, b: T, c: T, x: T, rest: seq<T>, z: T)
    ensures [a, b, c] + ([x] + rest) + [z] == [a, b, c, x] + rest + [z]
  {
  }

  /** The pieces of four newline-led lines around a middle block. */
  lemma SplitFrame(a: string, b: string, x: string, z: string, c: char)
    requires c !in a && c !in b && c !in z
    ensures Split([c] + a + [c] + b + [c] + x + [c] + z, c) == ["", a, b] + Split(x, c) + [z]
  {
    var t := x + [c] + z;
    var u := b + [c] + t;
    var v := a + [c] + u;
    assert Split(t, c) == Split(x, c) + [z] by {
      SplitConcat(x, z, c);
      SplitFree(z, c);
    }
    assert Split(u, c) == [b] + Split(t, c) by {
      SplitConcat(b, t, c);
      SplitFree(b, c);
    }
    assert Split(v, c) == [a] + Split(u, c) by {
      SplitConcat(a, u, c);
      SplitFree(a, c);
    }
    assert Split([] + [c] + v, c) == [""] + Split(v, c) by {
      SplitConcat([], v, c);
    }
    assert [c] + a + [c] + b + [c] + x + [c] + z == [] + [c] + v;
  }

  /** Prefixing a separator-free string glues onto the first piece. */
  lemma IndentFirstPiece(s: string, c: char)
    requires c !in INDENT
    ensures Split(INDENT + s, c) == [INDENT + Split(s, c)[0]] + Split(s, c)[1..]
  {
    IndentFirstPieceOf(INDENT, s, c);
  }

  lemma {:induction false} IndentFirstPieceOf(p: string, s: string, c: char)
    requires c !in p
    ensures Split(p + s, c) == [p + Split(s, c)[0]] + Split(s, c)[1..]
  {
    var r := Split(s, c);
    if p == [] {
      assert p + s == s;
      assert p + r[0] == r[0];
      assert r == [r[0]] + r[1..];
    } else {
      assert (p + s)[0] == p[0];
      assert (p + s)[1..] == p[1..] + s;
      IndentFirstPieceOf(p[1..], s, c);
      assert [p[0]] + (p[1..] + r[0]) == p + r[0];
    }
  }

  // ---------------------------------------------------------------------------
  // The provider call and the response envelope

  datatype Message = Message(role: string, content: string)

  /** The arguments of the provider's structured-output call. */
  datatype AiRequest = AiRequest(
    temperature: real,
    model: Option<string>,
    instructions: string,
    input: seq<Message>,
    format: OutputFormat)

  /** What the awaited call yields: it throws, it returns without a parsed
      output (`output_parsed` is null), or it returns the parsed output. */
  datatype AiOutcome<T> = Threw(reason: string) | NoParsedOutput | Parsed(output: T)

  /** The error value carried by a failure envelope. */
  datatype ErrorValue = ProviderError(reason: string) | NullOutputError

  /** The uniform response envelope. */
  datatype Envelope<T> = Envelope(
    data: Option<T>,
    success: Option<bool>,
    message: Option<string>,
    error: Option<ErrorValue>)

  function SuccessEnvelope<T>(data: T): Envelope<T>
  {
    Envelope(Some(data), None, None, None)
  }

  function FailureEnvelope<T>(message: string, error: ErrorValue): Envelope<T>
  {
    Envelope(None, Some(false), Some(message), Some(error))
  }

  const TRANSLATE_FAILED := "Failed to translate text"
  const SITUATION_FAILED := "Failed to generate situation"

  /** The parsed output of a translate call. */
  datatype TranslatedText = TranslatedText(translatedText: string)

  /** A translate response; `translatedText` is absent when the provider
      returned no parsed output. */
  datatype TranslateData = TranslateData(translatedText: Option<string>)

  /** One element of the parsed output of a situation call. */
  datatype GeneratedSituation = GeneratedSituation(situation: string, translatedSituation: string, usageExplanation: string)
  datatype SituationOutput = SituationOutput(data: seq<GeneratedSituation>)

  /** One element of a situation response. */
  datatype SituationPair = SituationPair(situation: string, translatedSituation: string)

  /** The call a translate request makes, configured from the Translator entry. */
  function TranslationCall(env: Environment, text: string, target: TranslateLanguage): (req: AiRequest)
    ensures req.temperature == 0.7
    ensures req.model == env.translationModel
    ensures req.instructions == TRANSLATOR_INSTRUCTION && req.format == TRANSLATED_TEXT_FORMAT
    ensures req.input == [Message("user", TranslatePrompt(text, target))]
  {
    var config := MappingInstruction(env, Translator).value;
    AiRequest(config.temperature, config.model, config.instruction,
              [Message("user", TranslatePrompt(text, target))], config.format)
  }

  /** The call a situation request makes, configured from the Situation entry. */
  function SituationCall(env: Environment, text: string, target: Language, source: Language,
                         types: Option<seq<SituationType>>): (req: AiRequest)
    ensures req.temperature == 0.7
    ensures req.model == env.situationModel
    ensures req.instructions == SITUATION_INSTRUCTION && req.format == SITUATION_FORMAT
    ensures req.input == [Message("user", SituationPrompt(text, target, source, SituationSection(types)))]
  {
    var config := MappingInstruction(env, Situation).value;
    AiRequest(config.temperature, config.model, config.instruction,
              [Message("user", SituationPrompt(text, target, source, SituationSection(types)))], config.format)
  }

  /** The response keeps each generated situation and its translation, in
      order, and drops the usage explanation. */
  function DropUsageExplanations(items: seq<GeneratedSituation>): (pairs: seq<SituationPair>)
    ensures |pairs| == |items|
    ensures forall k :: 0 <= k < |items| ==>
      pairs[k].situation == items[k].situation && pairs[k].translatedSituation == items[k].translatedSituation
  {
    if |items| == 0 then []
    else [SituationPair(items[0].situation, items[0].translatedSituation)] + DropUsageExplanations(items[1..])
  }

  /** Translates `text` into `targetLanguage` through the provider, whose
      structured-output call is `respond`. */
  method Translate(env: Environment, text: string, targetLanguage: TranslateLanguage,
                   respond: AiRequest -> AiOutcome<TranslatedText>)
    returns (resp: Envelope<TranslateData>)
    ensures var outcome := respond(TranslationCall(env, text, targetLanguage));
      && (outcome.Parsed? ==> resp == SuccessEnvelope(TranslateData(Some(outcome.output.translatedText))))
      && (outcome.NoParsedOutput? ==> resp == SuccessEnvelope(TranslateData(None)))
      && (outcome.Threw? ==> resp == FailureEnvelope(TRANSLATE_FAILED, ProviderError(outcome.reason)))
    ensures resp.success == Some(false) <==> resp.data.None?
  {
    var outcome := respond(TranslationCall(env, text, targetLanguage));
    match outcome
    case Threw(reason) =>
      resp := FailureEnvelope(TRANSLATE_FAILED, ProviderError(reason));
    case NoParsedOutput =>
      resp := SuccessEnvelope(TranslateData(None));
    case Parsed(output) =>
      resp := SuccessEnvelope(TranslateData(Some(output.translatedText)));
  }

  /** Generates example situations for `text` through the provider, whose
      structured-output call is `respond`. A missing parsed output fails
      like a thrown call. */
  method GenerateSituations(env: Environment, text: string, targetLanguage: Language, sourceLanguage: Language,
                            situationTypes: Option<seq<SituationType>>,
                            respond: AiRequest -> AiOutcome<SituationOutput>)
    returns (resp: Envelope<seq<SituationPair>>)
    ensures var outcome := respond(SituationCall(env, text, targetLanguage, sourceLanguage, situationTypes));
      && (outcome.Parsed? ==> resp == SuccessEnvelope(DropUsageExplanations(outcome.output.data)))
      && (outcome.NoParsedOutput? ==> resp == FailureEnvelope(SITUATION_FAILED, NullOutputError))
      && (outcome.Threw? ==> resp == FailureEnvelope(SITUATION_FAILED, ProviderError(outcome.reason)))
    ensures resp.success == Some(false) <==> resp.data.None?
  {
    var outcome := respond(SituationCall(env, text, targetLanguage, sourceLanguage, situationTypes));
    match outcome
    case Threw(reason) =>
      resp := FailureEnvelope(SITUATION_FAILED, ProviderError(reason));
    case NoParsedOutput =>
      resp := FailureEnvelope(SITUATION_FAILED, NullOutputError);
    case Parsed(output) =>
      resp := SuccessEnvelope(DropUsageExplanations(output.data));
  }
}

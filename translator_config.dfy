/** The per-feature prompt configuration: for each feature with an entry,
    the system instruction, the model name, the structured-output format and
    the sampling temperature sent with every request of that feature. */
module TranslatorConfig {
  import opened Wrappers
  import opened Features

  /** The shape a schema gives the structured output. */
  datatype Shape = Text | Record(fields: seq<Field>) | ListOf(element: Shape)
  datatype Field = Field(name: string, shape: Shape)

  /** A named structured-output format: the schema and the name it is registered under. */
  datatype OutputFormat = OutputFormat(name: string, shape: Shape)

  /** The model names read from the process environment at start-up; each may be unset. */
  datatype Environment = Environment(
    translationModel: Option<string>,
    situationModel: Option<string>,
    usageExplanationModel: Option<string>)

  datatype FeatureConfig = FeatureConfig(
    instruction: string,
    model: Option<string>,
    format: OutputFormat,
    temperature: real)

  const TRANSLATOR_INSTRUCTION := @"
## Context
You are a Dictionary AI. You are given a text and you need to translate it to the target language.

## Task
1. Translate the text to the target language.
2. Return the translated text.

## Rules
1. You must translate the text to the target language.
2. Follow the instruction carefully
"

  const SITUATION_INSTRUCTION := @"
## Context
You are a knowledgeable AI English Teacher. You receive a text input and must generate contextual situations that demonstrate how the given word or phrase is used.

## Task
1. Generate a situation based on the input text and situationTypes.
2. The situation must be in the same language as the input text.
3. Provide a translated version of the situation in the target language.
4. The situation should be based on the difficulty level of the input text.
5. The situation should be based on the style of the input text.

## Rules
1. Respond accurately and clearly.
2. Follow all instructions strictly.
3. The number of situations must match the number of situationTypes.
4. If situationTypes contains ""All Declarative"", generate up to 3 declarative situations.

## Output Fields
- situation
- translatedSituation
"

  const USAGE_EXPLANATION_INSTRUCTION := @"
## Context
You are an expert AI English Teacher. You explain how a given word or phrase functions inside a specific situation.

## Task
1. Explain academically how the input word or phrase is used in the given situation.
2. Describe its role, nuance, meaning in context, or grammar function.
3. The explanation must be in the language requested by the user.

## Rules
1. Be clear, accurate, and educational.
2. Focus only on explaining the usage in context.
3. Do not rewrite or modify the original situation.

## Output Fields
- usageExplanation
"

  const TRANSLATED_TEXT_FORMAT := OutputFormat("translatedText", Record([Field("translatedText", Text)]))

  const SITUATION_FORMAT := OutputFormat("data", Record([
    Field("data", ListOf(Record([
      Field("situation", Text),
      Field("translatedSituation", Text),
      Field("usageExplanation", Text)])))]))

  const USAGE_EXPLANATION_FORMAT := OutputFormat("usageExplanation", Record([Field("usageExplanation", Text)]))

  /** The configuration table, keyed by feature: every entry samples at 0.7,
      and KeywordDetect has no entry. */
  function MappingInstruction(env: Environment, f: FeatureType): (c: Option<FeatureConfig>)
    ensures c.Some? <==> f != KeywordDetect
    ensures c.Some? ==> c.value.temperature == 0.7
  {
    match f
    case Translator =>
      Some(FeatureConfig(TRANSLATOR_INSTRUCTION, env.translationModel, TRANSLATED_TEXT_FORMAT, 0.7))
    case Situation =>
      Some(FeatureConfig(SITUATION_INSTRUCTION, env.situationModel, SITUATION_FORMAT, 0.7))
    case UsageExplanation =>
      Some(FeatureConfig(USAGE_EXPLANATION_INSTRUCTION, env.usageExplanationModel, USAGE_EXPLANATION_FORMAT, 0.7))
    case KeywordDetect => None
  }
}

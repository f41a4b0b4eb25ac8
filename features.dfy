/** The AI features a conversation binding and a prompt configuration are keyed by. */
module Features {

  /** The literal union accepted as a conversation `type`. */
  datatype FeatureType = Translator | Situation | UsageExplanation | KeywordDetect

  /** The literal itself, as stored in the table and written into provider metadata. */
  function TypeName(t: FeatureType): string
  {
    match t
    case Translator => "Translator"
    case Situation => "Situation"
    case UsageExplanation => "UsageExplanation"
    case KeywordDetect => "KeywordDetect"
  }
}

/** Values the servers interpolate into their prompt templates. The template wording
    itself is product text and is not modelled. */
module PromptSlots {

  /** `{ article, content }` */
  datatype LawArticle = LawArticle(article: string, content: string)

  /** The length instruction of a template, if it has one. */
  datatype LengthSlot = NoLengthSlot | Length(phrase: string)

  /** The slots of a report prompt. */
  datatype Slots = Slots(
    length: LengthSlot, law: LawArticle, hazard: string, risk: string, relatedCases: string)
}

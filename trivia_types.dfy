/** The records of the trivia feature (src/lib/trivia/types.ts). The field
    `type` of the source is called `questionType` here, `type` being a Dafny
    keyword. */
module TriviaTypes {

  /** One question as the trivia provider sends it. */
  datatype TriviaQuestion = TriviaQuestion(
    category: string,
    questionType: string,
    difficulty: string,
    question: string,
    correctAnswer: string,
    incorrectAnswers: seq<string>)

  /** A question after shaping: the same fields plus `allAnswers`, the
      options in the order they are shown. */
  datatype EnhancedTriviaQuestion = EnhancedTriviaQuestion(
    category: string,
    questionType: string,
    difficulty: string,
    question: string,
    correctAnswer: string,
    incorrectAnswers: seq<string>,
    allAnswers: seq<string>)

  /** The provider's response body. */
  datatype TriviaResponse = TriviaResponse(responseCode: int, results: seq<TriviaQuestion>)
}

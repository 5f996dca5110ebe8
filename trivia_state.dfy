/** The trivia quiz state machine (src/lib/trivia/state.svelte.ts).

    A context records the loaded questions and, per question index, the
    chosen answer, the time it took and whether the question was shown. The
    source keeps these in JavaScript arrays that are written at arbitrary
    positions and read with `undefined` for holes; here they are maps from
    index to value, an absent key being a hole.

    Answer values carry two sentinels: -1 means the question timed out
    (it still counts as answered), and -2 is excluded from "answered" by
    `isCurrentQuestionAnswered` although nothing in the modelled files stores it. */
module TriviaState {
  import opened Types
  import opened TriviaTypes
  import TriviaFetch

  /** The answer value stored when the countdown ran out. */
  const TimedOutAnswer: int := -1
  /** The answer value `isCurrentQuestionAnswered` refuses to count. */
  const ExcludedAnswer: int := -2
  /** How many questions `initTrivia` asks for. */
  const QuestionCount: int := 5
  /** The filter value that means "no filter". */
  const AnyFilter: string := "any"

  class TriviaContext {
    var isLoading: bool
    var questions: seq<EnhancedTriviaQuestion>
    var error: Option<string>
    var userAnswers: map<nat, int>
    var userAnswersTime: map<nat, int>
    var userQuestionsSeen: map<nat, bool>
    var currentQuestionIndex: int
    var difficulty: string
    var category: string

    /** `createTriviaContext`: nothing loaded, nothing answered, no current
        question (-1) and both filters "any". */
    constructor ()
      ensures !isLoading && questions == [] && error == None
      ensures userAnswers == map[] && userAnswersTime == map[] && userQuestionsSeen == map[]
      ensures currentQuestionIndex == -1
      ensures difficulty == AnyFilter && category == AnyFilter
      ensures GetCurrentQuestion().None? && forall k :: !IsQuestionSeen(k)
    {
      isLoading := false;
      questions := [];
      error := None;
      userAnswers := map[];
      userAnswersTime := map[];
      userQuestionsSeen := map[];
      currentQuestionIndex := -1;
      difficulty := AnyFilter;
      category := AnyFilter;
    }

    // -------------------------------------------------------------------
    // Queries

    /** `getCurrentQuestion`: the question at the current index, absent when
        the index is outside the list (in particular -1 before a load). */
    function GetCurrentQuestion(): (r: Option<EnhancedTriviaQuestion>)
      reads this
      ensures r.Some? <==> 0 <= currentQuestionIndex < |questions|
      ensures r.Some? ==> r.value == questions[currentQuestionIndex]
    {
      if 0 <= currentQuestionIndex < |questions| then Some(questions[currentQuestionIndex]) else None
    }

    /** `userAnswers[questionIndex]`: the stored answer, or absent. */
    function AnswerAt(questionIndex: int): (r: Option<int>)
      reads this`userAnswers
      ensures r.Some? <==> questionIndex >= 0 && questionIndex in userAnswers
      ensures r.Some? ==> r.value == userAnswers[questionIndex]
    {
      if questionIndex >= 0 && questionIndex in userAnswers then Some(userAnswers[questionIndex]) else None
    }

    /** `getCurrentAnswerIndex`: the answer stored for the current question. */
    function GetCurrentAnswerIndex(): (r: Option<int>)
      reads this
      ensures r.Some? <==> IsQuestionAnswered(currentQuestionIndex)
      ensures r.Some? ==> r.value == userAnswers[currentQuestionIndex]
    {
      AnswerAt(currentQuestionIndex)
    }

    /** `isQuestionAnswered`: an answer is stored, whatever its value; the
        timeout value -1 counts. */
    predicate IsQuestionAnswered(questionIndex: int)
      reads this`userAnswers
      ensures IsQuestionAnswered(questionIndex) <==> questionIndex >= 0 && questionIndex in userAnswers
    {
      AnswerAt(questionIndex).Some?
    }

    /** `isQuestionSeen`: the seen flag is stored and is `true`. */
    predicate IsQuestionSeen(questionIndex: int)
      reads this`userQuestionsSeen
      ensures IsQuestionSeen(questionIndex) <==> questionIndex in userQuestionsSeen && userQuestionsSeen[questionIndex]
    {
      questionIndex >= 0 && questionIndex in userQuestionsSeen && userQuestionsSeen[questionIndex]
    }

    /** The scan of `findIndex` from position `from` on. */
    function FirstUnansweredFrom(from: nat): (r: int)
      reads this`questions, this`userAnswers
      requires from <= |questions|
      ensures r == -1 || from <= r < |questions|
      ensures r == -1 <==> forall k :: from <= k < |questions| ==> IsQuestionAnswered(k)
      ensures r != -1 ==> !IsQuestionAnswered(r) && forall k :: from <= k < r ==> IsQuestionAnswered(k)
      decreases |questions| - from
    {
      if from == |questions| then -1
      else if !IsQuestionAnswered(from) then from
      else FirstUnansweredFrom(from + 1)
    }

    /** `getFirstUnansweredQuestionIndex`: the least index of the list with
        no stored answer, or -1 when every question is answered. */
    function GetFirstUnansweredQuestionIndex(): (r: int)
      reads this`questions, this`userAnswers
      ensures -1 <= r < |questions|
      ensures r == -1 <==> forall k :: 0 <= k < |questions| ==> IsQuestionAnswered(k)
      ensures r != -1 ==> !IsQuestionAnswered(r) && forall k :: 0 <= k < r ==> IsQuestionAnswered(k)
    {
      FirstUnansweredFrom(0)
    }

    /** `isQuizComplete`: `questions.every(answered)`. It holds exactly
        when the scan for an unanswered question finds none, and it holds
        for an empty list. */
    predicate IsQuizComplete()
      reads this`questions, this`userAnswers
      ensures IsQuizComplete() <==> GetFirstUnansweredQuestionIndex() == -1
      ensures questions == [] ==> IsQuizComplete()
    {
      forall k :: 0 <= k < |questions| ==> IsQuestionAnswered(k)
    }

    /** `isCurrentQuestionAnswered`: an answer is stored for the current
        question and it is not -2. A timed-out question counts. */
    function IsCurrentQuestionAnswered(): (r: bool)
      reads this
      ensures r <==> IsQuestionAnswered(currentQuestionIndex) && userAnswers[currentQuestionIndex] != ExcludedAnswer
      ensures IsCurrentQuestionTimedOut() ==> r
    {
      GetCurrentAnswerIndex() != None && GetCurrentAnswerIndex() != Some(ExcludedAnswer)
    }

    /** `isTimedoutAnswer`: the answer stored for the question is -1. */
    function IsTimedoutAnswer(questionIndex: int): (r: bool)
      reads this
      ensures r <==> IsQuestionAnswered(questionIndex) && userAnswers[questionIndex] == TimedOutAnswer
      ensures r ==> IsQuestionAnswered(questionIndex)
    {
      AnswerAt(questionIndex) == Some(TimedOutAnswer)
    }

    /** `isCurrentQuestionTimedOut`: the same test at the current index. */
    function IsCurrentQuestionTimedOut(): (r: bool)
      reads this
      ensures r <==> IsTimedoutAnswer(currentQuestionIndex)
    {
      GetCurrentAnswerIndex() == Some(TimedOutAnswer)
    }

    /** `isCorrectAnswer`: the option the answer points at has the text of
        the correct answer. An answer that is absent or outside the options
        (the timeout value -1 among them) reads `undefined` and is never
        correct. The question index must name a question: the source reads
        a field of `questions[questionIndex]` and fails otherwise. */
    function IsCorrectAnswer(questionIndex: int, answerIndex: Option<int>): (r: bool)
      reads this
      requires 0 <= questionIndex < |questions|
      ensures r <==> answerIndex.Some? && 0 <= answerIndex.value < |questions[questionIndex].allAnswers|
                     && questions[questionIndex].allAnswers[answerIndex.value] == questions[questionIndex].correctAnswer
      ensures answerIndex == Some(TimedOutAnswer) ==> !r
    {
      var question := questions[questionIndex];
      match answerIndex
      case Some(a) => 0 <= a < |question.allAnswers| && question.allAnswers[a] == question.correctAnswer
      case None => false
    }

    /** `isCurrentQuestionCorrectlyAnswered`: the current answer is correct.
        A correct answer is an answered one, and not a timeout. */
    function IsCurrentQuestionCorrectlyAnswered(): (r: bool)
      reads this
      requires 0 <= currentQuestionIndex < |questions|
      ensures r ==> IsCurrentQuestionAnswered() && !IsCurrentQuestionTimedOut()
    {
      IsCorrectAnswer(currentQuestionIndex, GetCurrentAnswerIndex())
    }

    /** `isCurrentQuestionAnsweredCorrectly`, the second name the source
        gives the same test: it always agrees with
        `IsCurrentQuestionCorrectlyAnswered`. */
    function IsCurrentQuestionAnsweredCorrectly(): (r: bool)
      reads this
      requires 0 <= currentQuestionIndex < |questions|
      ensures r <==> IsCurrentQuestionAnswered() && IsCorrectAnswer(currentQuestionIndex, Some(userAnswers[currentQuestionIndex]))
    {
      IsCurrentQuestionCorrectlyAnswered()
    }

    // -------------------------------------------------------------------
    // Transitions

    /** `setCurrentAnswer`: stores the answer and its time at the current
        index, overwriting what was there; no other slot and no other field
        changes. The source needs a current question index of at least 0:
        with -1 it writes a property that is not an array element. */
    method SetCurrentAnswer(answerIndex: int, timeMs: int)
      requires currentQuestionIndex >= 0
      modifies this`userAnswers, this`userAnswersTime
      ensures userAnswers == old(userAnswers)[currentQuestionIndex := answerIndex]
      ensures userAnswersTime == old(userAnswersTime)[currentQuestionIndex := timeMs]
      ensures IsQuestionAnswered(currentQuestionIndex) && GetCurrentAnswerIndex() == Some(answerIndex)
      ensures forall k :: k != currentQuestionIndex ==> AnswerAt(k) == old(AnswerAt(k))
    {
      userAnswers := userAnswers[currentQuestionIndex := answerIndex];
      userAnswersTime := userAnswersTime[currentQuestionIndex := timeMs];
    }

    /** `setNextQuestion`: moves to the first unanswered question, or stays
        where it is when the quiz is complete. */
    method SetNextQuestion()
      modifies this`currentQuestionIndex
      ensures old(IsQuizComplete()) ==> currentQuestionIndex == old(currentQuestionIndex)
      ensures !old(IsQuizComplete()) ==>
                && currentQuestionIndex == old(GetFirstUnansweredQuestionIndex())
                && 0 <= currentQuestionIndex < |questions|
                && !IsQuestionAnswered(currentQuestionIndex)
                && forall k :: 0 <= k < currentQuestionIndex ==> IsQuestionAnswered(k)
      ensures !old(IsQuizComplete()) ==>
                && GetCurrentQuestion() == Some(questions[currentQuestionIndex])
                && GetCurrentAnswerIndex().None? && !IsCurrentQuestionAnswered()
    {
      var firstUnansweredQuestionIndex := GetFirstUnansweredQuestionIndex();
      if firstUnansweredQuestionIndex != -1 {
        currentQuestionIndex := firstUnansweredQuestionIndex;
      }
    }

    /** The first half of `initTrivia`, up to the `await`: the previous
        quiz is dropped, the index is set to 0 and loading starts. It
        returns the arguments of the fetch: five questions, with the
        context's category and difficulty. */
    method BeginInitTrivia() returns (amount: int, cat: string, diff: string)
      modifies this`questions, this`currentQuestionIndex, this`userAnswers,
               this`userAnswersTime, this`userQuestionsSeen, this`isLoading
      ensures questions == [] && currentQuestionIndex == 0 && isLoading
      ensures userAnswers == map[] && userAnswersTime == map[] && userQuestionsSeen == map[]
      ensures GetCurrentQuestion().None? && forall k :: !IsQuestionSeen(k)
      ensures amount == QuestionCount && cat == category && diff == difficulty
    {
      questions := [];
      currentQuestionIndex := 0;
      userAnswers := map[];
      userAnswersTime := map[];
      userQuestionsSeen := map[];
      isLoading := true;
      amount, cat, diff := QuestionCount, category, difficulty;
    }

    /** The second half of `initTrivia`, after the `await`: the questions
        are the result's list, or empty on an error; the error is the
        result's message, or none on success; loading ends. */
    method CompleteInitTrivia(fetchResult: ResultOrError<seq<EnhancedTriviaQuestion>, string>)
      modifies this`questions, this`error, this`isLoading
      ensures questions == fetchResult.First().GetOr([])
      ensures error == fetchResult.Second()
      ensures !isLoading
      ensures fetchResult.Err? ==> questions == [] && error == Some(fetchResult.error)
    {
      questions := fetchResult.First().GetOr([]);
      error := fetchResult.Second();
      isLoading := false;
    }

    /** `initTrivia` with `fetchTrivia` run in between, the provider's
        answer, the random draws and the HTML decoder being given. It
        returns the URL requested. */
    method InitTrivia(outcome: TriviaFetch.Outcome, random: seq<real>, decode: string -> string)
      returns (url: TriviaFetch.Url)
      requires outcome.Response? && outcome.data.responseCode == 0 ==>
                 TriviaFetch.ValidDraws(random, TriviaFetch.TotalDraws(outcome.data.results))
      modifies this`questions, this`currentQuestionIndex, this`userAnswers,
               this`userAnswersTime, this`userQuestionsSeen, this`isLoading, this`error
      ensures TriviaFetch.RequestsTrivia(url, QuestionCount, category, difficulty)
      ensures currentQuestionIndex == 0 && !isLoading
      ensures userAnswers == map[] && userAnswersTime == map[] && userQuestionsSeen == map[]
      ensures forall k :: !IsQuestionSeen(k)
      ensures outcome.Response? && outcome.data.responseCode == 0 ==>
                && error == None
                && questions == TriviaFetch.EnhanceAll(outcome.data.results, random, decode)
                && |questions| == |outcome.data.results|
                && forall k :: 0 <= k < |questions| ==>
                     TriviaFetch.IsEnhancementOf(questions[k], outcome.data.results[k], decode)
      ensures !(outcome.Response? && outcome.data.responseCode == 0) ==> questions == [] && error.Some?
      ensures outcome.Response? && outcome.data.responseCode != 0 ==> error == Some(TriviaFetch.FailedToLoad)
      ensures outcome.Threw? ==> error == TriviaFetch.CaughtToResult(outcome.err).Second()
    {
      var amount, cat, diff := BeginInitTrivia();
      var fetchResult;
      url, fetchResult := TriviaFetch.FetchTrivia(amount, cat, diff, outcome, random, decode);
      CompleteInitTrivia(fetchResult);
    }
  }

  /** Grading follows the option text, not its position: two options with
      the same text as the correct answer are both graded correct. */
  lemma GradingByText(ctx: TriviaContext, questionIndex: int, a: int, b: int)
    requires 0 <= questionIndex < |ctx.questions|
    requires 0 <= a < |ctx.questions[questionIndex].allAnswers| && 0 <= b < |ctx.questions[questionIndex].allAnswers|
    requires ctx.questions[questionIndex].allAnswers[a] == ctx.questions[questionIndex].allAnswers[b]
    ensures ctx.IsCorrectAnswer(questionIndex, Some(a)) <==> ctx.IsCorrectAnswer(questionIndex, Some(b))
  {
  }

  /** A question whose options contain its correct answer can be answered
      correctly: some answer index is graded correct. */
  lemma {:induction false} CorrectAnswerReachable(ctx: TriviaContext, questionIndex: int)
    requires 0 <= questionIndex < |ctx.questions|
    requires ctx.questions[questionIndex].correctAnswer in ctx.questions[questionIndex].allAnswers
    ensures exists a :: 0 <= a < |ctx.questions[questionIndex].allAnswers| && ctx.IsCorrectAnswer(questionIndex, Some(a))
  {
    var all := ctx.questions[questionIndex].allAnswers;
    var a :| 0 <= a < |all| && all[a] == ctx.questions[questionIndex].correctAnswer;
    assert ctx.IsCorrectAnswer(questionIndex, Some(a));
  }

  /** The question `setNextQuestion` moves to is shown with no answer
      selected: while the quiz is incomplete and the index is the first
      unanswered question, there is a current question, no answer index for
      it, and it is neither answered nor timed out. */
  lemma FirstUnansweredIsOpen(ctx: TriviaContext)
    requires !ctx.IsQuizComplete()
    requires ctx.currentQuestionIndex == ctx.GetFirstUnansweredQuestionIndex()
    ensures ctx.GetCurrentQuestion().Some?
    ensures ctx.GetCurrentAnswerIndex().None?
    ensures !ctx.IsCurrentQuestionAnswered() && !ctx.IsCurrentQuestionTimedOut()
  {
  }

  /** The grading consequence of `TriviaFetch.RawCorrectAnswerNotShown`: a
      question shaped from one whose correct answer the decoder changes,
      and whose incorrect answers do not decode to it, has no answer index
      that is graded correct. */
  lemma RawCorrectAnswerUnreachable(ctx: TriviaContext, questionIndex: int, q: TriviaQuestion,
                                    random: seq<real>, decode: string -> string)
    requires 0 <= questionIndex < |ctx.questions|
    requires TriviaFetch.ValidDraws(random, |q.incorrectAnswers|)
    requires ctx.questions[questionIndex] == TriviaFetch.EnhanceQuestion(q, random, decode)
    requires decode(q.correctAnswer) != q.correctAnswer
    requires forall s :: s in q.incorrectAnswers ==> decode(s) != q.correctAnswer
    ensures forall a: int :: !ctx.IsCorrectAnswer(questionIndex, Some(a))
  {
    TriviaFetch.RawCorrectAnswerNotShown(q, random, decode);
  }

  /** A run of three questions loaded through `initTrivia`'s two halves: the
      first answered correctly, then `setNextQuestion`; the second timed out,
      then `setNextQuestion` again. The run ends on the third question, which
      is open; the quiz is incomplete, the first answer is graded correct and
      the second, the timeout, is not. */
  method ThreeQuestionRun(qs: seq<EnhancedTriviaQuestion>, correct: nat) returns (ctx: TriviaContext)
    requires |qs| == 3
    requires correct < |qs[0].allAnswers| && qs[0].allAnswers[correct] == qs[0].correctAnswer
    ensures ctx.currentQuestionIndex == 2 && ctx.GetCurrentQuestion() == Some(qs[2])
    ensures !ctx.IsCurrentQuestionAnswered() && !ctx.IsQuizComplete()
    ensures ctx.IsTimedoutAnswer(1) && !ctx.IsTimedoutAnswer(0)
    ensures ctx.IsCorrectAnswer(0, ctx.AnswerAt(0)) && !ctx.IsCorrectAnswer(1, ctx.AnswerAt(1))
  {
    ctx := new TriviaContext();
    var amount, cat, diff := ctx.BeginInitTrivia();
    ctx.CompleteInitTrivia(Ok(qs));
    assert ctx.questions == qs;
    ctx.SetCurrentAnswer(correct, 1200);
    assert ctx.IsCurrentQuestionAnsweredCorrectly();
    assert !ctx.IsQuestionAnswered(1);
    ctx.SetNextQuestion();
    assert ctx.currentQuestionIndex == 1;
    ctx.SetCurrentAnswer(TimedOutAnswer, 5000);
    assert !ctx.IsCurrentQuestionAnsweredCorrectly();
    assert ctx.AnswerAt(0) == Some(correct as int);
    assert !ctx.IsQuestionAnswered(2);
    ctx.SetNextQuestion();
  }
}

/** Fetching and shaping trivia questions (src/lib/trivia/fetch.ts).

    The network round trip is not modelled: what the provider answers (a
    response body or a thrown value) is an input. `Math.random()` is an
    oracle: a sequence of draws, each in `[0, 1)`, consumed in order.
    `decodeHTML` is not part of this model and is an arbitrary function
    `decode` passed in. */
module TriviaFetch {
  import opened Types
  import opened JsBuiltins
  import opened TriviaTypes

  // ---------------------------------------------------------------------
  // shuffleArray: Fisher-Yates over a copy

  /** A value `Math.random()` can return. */
  predicate IsRandomDraw(x: real) {
    0.0 <= x < 1.0
  }

  /** `random` holds at least `n` draws, each a value `Math.random()` can return. */
  predicate ValidDraws(random: seq<real>, n: nat) {
    n <= |random| && forall k :: 0 <= k < |random| ==> IsRandomDraw(random[k])
  }

  /** How many draws shuffling `len` elements takes: one per step
      `i = len - 1` down to `1`. */
  function DrawsFor(len: nat): nat {
    if len == 0 then 0 else len - 1
  }

  /** `x * n`, written as repeated addition so that it stays linear. */
  function Scale(x: real, n: nat): real
    decreases n
  {
    if n == 0 then 0.0 else Scale(x, n - 1) + x
  }

  /** `Scale` is multiplication. */
  lemma {:induction false} ScaleIsProduct(x: real, n: nat)
    ensures Scale(x, n) == x * n as real
    decreases n
  {
    if n > 0 {
      ScaleIsProduct(x, n - 1);
      assert x * n as real == x * (n - 1) as real + x;
    }
  }

  /** The largest `j <= i` not above `y`, or 0: for `0 <= y < i + 1` this is
      `Math.floor(y)`. */
  function FloorBelow(y: real, i: nat): (j: nat)
    ensures j <= i
    decreases i
  {
    if i == 0 || i as real <= y then i else FloorBelow(y, i - 1)
  }

  /** `FloorBelow(y, i)` is not above `y` (unless it is 0), and the next
      integer up to `i` is above `y`. */
  lemma {:induction false} FloorBelowBounds(y: real, i: nat)
    ensures FloorBelow(y, i) == 0 || FloorBelow(y, i) as real <= y
    ensures FloorBelow(y, i) < i ==> y < (FloorBelow(y, i) + 1) as real
    decreases i
  {
    if !(i == 0 || i as real <= y) {
      FloorBelowBounds(y, i - 1);
    }
  }

  /** `Math.floor(Math.random() * (i + 1))` for the draw `x`: the swap partner
      chosen at step `i`, in `[0, i]`. */
  function SwapPartner(x: real, i: nat): (j: nat)
    requires IsRandomDraw(x)
    ensures j <= i
  {
    FloorBelow(Scale(x, i + 1), i)
  }

  /** A draw scaled by `n` lies in `[0, n)`. */
  lemma {:induction false} ScaleBounds(x: real, n: nat)
    requires IsRandomDraw(x) && n > 0
    ensures 0.0 <= Scale(x, n) < n as real
    decreases n
  {
    if n > 1 {
      ScaleBounds(x, n - 1);
    }
  }

  /** An integer `j` with `j <= y < j + 1` is the floor of `y`. */
  lemma FloorUnique(y: real, j: int)
    requires j as real <= y < (j + 1) as real
    ensures y.Floor == j
  {
    var f := y.Floor;
    assert f as real <= y < (f + 1) as real;
    assert f < j + 1 by {
      assert (f as real) < (j + 1) as real;
    }
    assert j < f + 1 by {
      assert (j as real) < (f + 1) as real;
    }
  }

  /** `SwapPartner` is `Math.floor(x * (i + 1))`. */
  lemma SwapPartnerIsFloor(x: real, i: nat)
    requires IsRandomDraw(x)
    ensures SwapPartner(x, i) == (x * (i + 1) as real).Floor
  {
    var y := Scale(x, i + 1);
    ScaleBounds(x, i + 1);
    FloorBelowBounds(y, i);
    FloorUnique(y, FloorBelow(y, i));
    ScaleIsProduct(x, i + 1);
  }

  /** `s` with the elements at `i` and `j` exchanged. */
  function Swap<T>(s: seq<T>, i: nat, j: nat): (r: seq<T>)
    requires i < |s| && j < |s|
    ensures |r| == |s| && r[i] == s[j] && r[j] == s[i]
    ensures forall k :: 0 <= k < |s| && k != i && k != j ==> r[k] == s[k]
  {
    s[i := s[j]][j := s[i]]
  }

  /** A swap only moves elements around. */
  lemma SwapPermutes<T>(s: seq<T>, i: nat, j: nat)
    requires i < |s| && j < |s|
    ensures multiset(Swap(s, i, j)) == multiset(s)
  {
  }

  /** The draw used at step `i` when shuffling `len` elements: steps run from
      `len - 1` down, so step `i` uses draw number `len - 1 - i`. */
  function DrawIndex(len: nat, i: nat): (d: nat)
    requires i < len
    ensures d < DrawsFor(len) || i == 0
  {
    len - 1 - i
  }

  /** The swap partners the draws choose when shuffling `len` elements:
      entry `d` belongs to step `len - 1 - d` and lies in `[0, len - 1 - d]`. */
  function Partners(random: seq<real>, len: nat): (p: seq<nat>)
    requires ValidDraws(random, DrawsFor(len))
    ensures IsPartnerList(p, len)
  {
    seq(DrawsFor(len), d requires 0 <= d < DrawsFor(len) => SwapPartner(random[d], len - 1 - d))
  }

  /** `p` names, for every step `i` from `len - 1` down to 1, a partner in
      `[0, i]`. */
  predicate IsPartnerList(p: seq<nat>, len: nat) {
    |p| == DrawsFor(len) && forall d :: 0 <= d < |p| ==> p[d] <= len - 1 - d
  }

  /** The loop of `shuffleArray` from step `i` down to step 1, the partners
      being given. Every step is a swap, so the result is a permutation of
      `s`. */
  function ShuffleFrom<T>(s: seq<T>, i: nat, p: seq<nat>): (r: seq<T>)
    requires i < |s| && IsPartnerList(p, |s|)
    ensures |r| == |s|
    decreases i
  {
    if i == 0 then s
    else ShuffleFrom(Swap(s, i, p[DrawIndex(|s|, i)]), i - 1, p)
  }

  /** Every step of the loop is a swap, so the loop permutes `s`. */
  lemma {:induction false} ShuffleFromPermutes<T>(s: seq<T>, i: nat, p: seq<nat>)
    requires i < |s| && IsPartnerList(p, |s|)
    ensures multiset(ShuffleFrom(s, i, p)) == multiset(s)
    decreases i
  {
    if i > 0 {
      var j := p[DrawIndex(|s|, i)];
      SwapPermutes(s, i, j);
      ShuffleFromPermutes(Swap(s, i, j), i - 1, p);
    }
  }

  /** What `shuffleArray(s)` returns for the draws `random`. */
  function Shuffle<T>(s: seq<T>, random: seq<real>): (r: seq<T>)
    requires ValidDraws(random, DrawsFor(|s|))
    ensures |r| == |s|
  {
    if s == [] then s else ShuffleFrom(s, |s| - 1, Partners(random, |s|))
  }

  /** The shuffle is a permutation, whatever the draws. */
  lemma ShufflePermutes<T>(s: seq<T>, random: seq<real>)
    requires ValidDraws(random, DrawsFor(|s|))
    ensures multiset(Shuffle(s, random)) == multiset(s)
  {
    if s != [] {
      ShuffleFromPermutes(s, |s| - 1, Partners(random, |s|));
    }
  }

  /** `shuffleArray`: copies the input into a fresh array and swaps in place,
      `i` running from the last index down to 1 and the partner taken from
      `[0, i]`. The input is a value and cannot change; the result is a
      permutation of it. */
  method ShuffleArray<T>(input: seq<T>, random: seq<real>) returns (r: seq<T>)
    requires ValidDraws(random, DrawsFor(|input|))
    ensures r == Shuffle(input, random)
    ensures multiset(r) == multiset(input)
  {
    var a := new T[|input|](k requires 0 <= k < |input| => input[k]);
    assert a[..] == input;
    ghost var p := Partners(random, |input|);
    ghost var target := Shuffle(input, random);
    var i := a.Length - 1;
    while i > 0
      invariant -1 <= i < a.Length == |input|
      invariant i == -1 ==> a[..] == input && target == input
      invariant i >= 0 ==> ShuffleFrom(a[..], i, p) == target
      decreases i
    {
      var d := DrawIndex(a.Length, i);
      var j := SwapPartner(random[d], i);
      PartnerAt(random, a.Length, i);
      ghost var before := a[..];
      ShuffleStep(before, target, i, p);
      SwapArray(a, i, j);
      i := i - 1;
    }
    r := a[..];
    ShufflePermutes(input, random);
  }

  /** `[a[i], a[j]] = [a[j], a[i]]`. */
  method SwapArray<T>(a: array<T>, i: nat, j: nat)
    requires i < a.Length && j < a.Length
    modifies a
    ensures a[..] == Swap(old(a[..]), i, j)
  {
    a[i], a[j] := a[j], a[i];
  }

  /** The partner drawn at step `i` is the one `Partners` lists for it. */
  lemma PartnerAt(random: seq<real>, len: nat, i: nat)
    requires ValidDraws(random, DrawsFor(len)) && 0 < i < len
    ensures Partners(random, len)[DrawIndex(len, i)] == SwapPartner(random[DrawIndex(len, i)], i)
  {
  }

  /** One step of the shuffle loop: if running the loop from step `i` gives
      `target`, then swapping at `i` and running from `i - 1` gives it too. */
  lemma ShuffleStep<T>(s: seq<T>, target: seq<T>, i: nat, p: seq<nat>)
    requires 0 < i < |s| && IsPartnerList(p, |s|)
    requires ShuffleFrom(s, i, p) == target
    ensures ShuffleFrom(Swap(s, i, p[DrawIndex(|s|, i)]), i - 1, p) == target
  {
  }

  // ---------------------------------------------------------------------
  // Shaping one question

  /** `xs.map(f)` for strings. */
  function MapSeq(f: string -> string, xs: seq<string>): (r: seq<string>)
    ensures |r| == |xs| && forall k :: 0 <= k < |xs| ==> r[k] == f(xs[k])
  {
    seq(|xs|, k requires 0 <= k < |xs| => f(xs[k]))
  }

  /** Mapping after a swap is swapping after mapping. */
  lemma MapSwap(f: string -> string, s: seq<string>, i: nat, j: nat)
    requires i < |s| && j < |s|
    ensures MapSeq(f, Swap(s, i, j)) == Swap(MapSeq(f, s), i, j)
  {
  }

  /** Mapping after the shuffle loop is running the loop on the mapped
      sequence: the draws pick the same positions. */
  lemma {:induction false} MapShuffleFrom(f: string -> string, s: seq<string>, i: nat, p: seq<nat>)
    requires i < |s| && IsPartnerList(p, |s|)
    ensures MapSeq(f, ShuffleFrom(s, i, p)) == ShuffleFrom(MapSeq(f, s), i, p)
    decreases i
  {
    if i > 0 {
      var j := p[DrawIndex(|s|, i)];
      MapSwap(f, s, i, j);
      MapShuffleFrom(f, Swap(s, i, j), i - 1, p);
    }
  }

  /** Decoding a shuffled list gives a permutation of the decoded list. */
  lemma DecodedShuffleIsPermutation(f: string -> string, s: seq<string>, random: seq<real>)
    requires ValidDraws(random, DrawsFor(|s|))
    ensures multiset(MapSeq(f, Shuffle(s, random))) == multiset(MapSeq(f, s))
  {
    if s != [] {
      var p := Partners(random, |s|);
      MapShuffleFrom(f, s, |s| - 1, p);
      ShuffleFromPermutes(MapSeq(f, s), |s| - 1, p);
    }
  }

  /** The options before shuffling: the incorrect answers, then the correct one. */
  function AnswerOptions(q: TriviaQuestion): (r: seq<string>)
    ensures |r| == |q.incorrectAnswers| + 1 && r[|r| - 1] == q.correctAnswer
    ensures r[..|r| - 1] == q.incorrectAnswers
  {
    q.incorrectAnswers + [q.correctAnswer]
  }

  /** What shaping promises about one question: the text fields `type`,
      `category` and `question` are decoded; `difficulty`, `correct_answer`
      and `incorrect_answers` are copied as they came; `all_answers` is the
      decoded options in some order. */
  predicate IsEnhancementOf(e: EnhancedTriviaQuestion, q: TriviaQuestion, decode: string -> string) {
    && e.questionType == decode(q.questionType)
    && e.category == decode(q.category)
    && e.question == decode(q.question)
    && e.difficulty == q.difficulty
    && e.correctAnswer == q.correctAnswer
    && e.incorrectAnswers == q.incorrectAnswers
    && |e.allAnswers| == |q.incorrectAnswers| + 1
    && multiset(e.allAnswers) == multiset(MapSeq(decode, AnswerOptions(q)))
  }

  /** The per-question mapping of `fetchTrivia`. */
  function EnhanceQuestion(q: TriviaQuestion, random: seq<real>, decode: string -> string): (e: EnhancedTriviaQuestion)
    requires ValidDraws(random, |q.incorrectAnswers|)
    ensures IsEnhancementOf(e, q, decode)
  {
    var shuffled := Shuffle(AnswerOptions(q), random);
    DecodedShuffleIsPermutation(decode, AnswerOptions(q), random);
    EnhancedTriviaQuestion(
      decode(q.category), decode(q.questionType), q.difficulty, decode(q.question),
      q.correctAnswer, q.incorrectAnswers, MapSeq(decode, shuffled))
  }

  /** If decoding leaves the correct answer as it is, one of the shown
      options is the correct answer, so the question can be answered right. */
  lemma CorrectOptionShown(q: TriviaQuestion, random: seq<real>, decode: string -> string)
    requires ValidDraws(random, |q.incorrectAnswers|)
    requires decode(q.correctAnswer) == q.correctAnswer
    ensures exists a :: 0 <= a < |EnhanceQuestion(q, random, decode).allAnswers|
                        && EnhanceQuestion(q, random, decode).allAnswers[a] == EnhanceQuestion(q, random, decode).correctAnswer
  {
    var e := EnhanceQuestion(q, random, decode);
    var opts := MapSeq(decode, AnswerOptions(q));
    assert opts[|opts| - 1] == q.correctAnswer;
    assert q.correctAnswer in multiset(opts);
    assert q.correctAnswer in multiset(e.allAnswers);
    assert q.correctAnswer in e.allAnswers;
  }

  /** `correct_answer` is stored undecoded while the options are decoded: for
      a decoder that changes the correct answer's text (an HTML entity in
      it), and incorrect answers that do not decode to it, no shown option
      equals `correct_answer`. */
  lemma RawCorrectAnswerNotShown(q: TriviaQuestion, random: seq<real>, decode: string -> string)
    requires ValidDraws(random, |q.incorrectAnswers|)
    requires decode(q.correctAnswer) != q.correctAnswer
    requires forall s :: s in q.incorrectAnswers ==> decode(s) != q.correctAnswer
    ensures var e := EnhanceQuestion(q, random, decode);
            forall a :: 0 <= a < |e.allAnswers| ==> e.allAnswers[a] != e.correctAnswer
  {
    var e := EnhanceQuestion(q, random, decode);
    var opts := MapSeq(decode, AnswerOptions(q));
    assert q.correctAnswer !in opts by {
      forall k | 0 <= k < |opts|
        ensures opts[k] != q.correctAnswer
      {
        if k < |q.incorrectAnswers| {
          assert AnswerOptions(q)[k] == q.incorrectAnswers[k];
          assert q.incorrectAnswers[k] in q.incorrectAnswers;
        }
      }
    }
    assert multiset(e.allAnswers) == multiset(opts);
    forall a | 0 <= a < |e.allAnswers|
      ensures e.allAnswers[a] != e.correctAnswer
    {
      assert e.allAnswers[a] in multiset(opts);
    }
  }

  /** The conditions of `RawCorrectAnswerNotShown` can be met: the correct
      answer "AT&amp;T", the incorrect answer "IBM" and a decoder that
      turns "&amp;" into "&". */
  lemma RawCorrectAnswerExample()
    ensures var q := TriviaQuestion("History", "multiple", "easy", "Q", "AT&amp;T", ["IBM"]);
            var decode := (s: string) => if s == "AT&amp;T" then "AT&T" else s;
            var e := EnhanceQuestion(q, [0.5], decode);
            forall a :: 0 <= a < |e.allAnswers| ==> e.allAnswers[a] != e.correctAnswer
  {
    var q := TriviaQuestion("History", "multiple", "easy", "Q", "AT&amp;T", ["IBM"]);
    var decode := (s: string) => if s == "AT&amp;T" then "AT&T" else s;
    assert decode(q.correctAnswer) == "AT&T";
    RawCorrectAnswerNotShown(q, [0.5], decode);
  }

  // ---------------------------------------------------------------------
  // Shaping the whole response

  /** Draws taken by shaping `results`: one shuffle of
      `|incorrect_answers| + 1` options per question. */
  function TotalDraws(results: seq<TriviaQuestion>): nat
    decreases |results|
  {
    if results == [] then 0 else |results[0].incorrectAnswers| + TotalDraws(results[1..])
  }

  /** `data.results.map(...)`: the questions are shaped in order, each one
      taking its draws after those of the questions before it. */
  function EnhanceAll(results: seq<TriviaQuestion>, random: seq<real>, decode: string -> string): (r: seq<EnhancedTriviaQuestion>)
    requires ValidDraws(random, TotalDraws(results))
    ensures |r| == |results|
    ensures forall k :: 0 <= k < |results| ==> IsEnhancementOf(r[k], results[k], decode)
    decreases |results|
  {
    if results == [] then []
    else
      var n := |results[0].incorrectAnswers|;
      [EnhanceQuestion(results[0], random[..n], decode)] + EnhanceAll(results[1..], random[n..], decode)
  }

  const FailedToLoad: string := "Failed to load questions"
  const ErrorLoadingPrefix: string := "Error loading questions: "
  const UnknownError: string := "Unknown error"

  /** The branch on `response_code`: 0 gives the shaped questions, one per
      result and in order; any other code gives the fixed failure message. */
  function ResponseToResult(data: TriviaResponse, random: seq<real>, decode: string -> string)
    : (r: ResultOrError<seq<EnhancedTriviaQuestion>, string>)
    requires data.responseCode == 0 ==> ValidDraws(random, TotalDraws(data.results))
    ensures r.Ok? <==> data.responseCode == 0
    ensures r.Ok? ==> |r.value| == |data.results|
                      && forall k :: 0 <= k < |data.results| ==> IsEnhancementOf(r.value[k], data.results[k], decode)
    ensures r.Err? ==> r.error == FailedToLoad
  {
    if data.responseCode == 0 then Ok(EnhanceAll(data.results, random, decode))
    else Err(FailedToLoad)
  }

  /** A value thrown while fetching: an `Error` with its message, or anything else. */
  datatype Thrown = ErrorInstance(message: string) | OtherValue

  /** The `catch` branch: always an error, whose text starts with
      "Error loading questions: " and ends with the message of an `Error`,
      or "Unknown error" for anything else. */
  function CaughtToResult(err: Thrown): (r: ResultOrError<seq<EnhancedTriviaQuestion>, string>)
    ensures r.Err? && |r.error| >= |ErrorLoadingPrefix| && r.error[..|ErrorLoadingPrefix|] == ErrorLoadingPrefix
    ensures err.ErrorInstance? ==> r.error[|ErrorLoadingPrefix|..] == err.message
    ensures err.OtherValue? ==> r.error[|ErrorLoadingPrefix|..] == UnknownError
  {
    Err(ErrorLoadingPrefix + (if err.ErrorInstance? then err.message else UnknownError))
  }

  /** The two failure paths can be told apart by their message. */
  lemma FailureMessagesDiffer(err: Thrown)
    ensures CaughtToResult(err).error != FailedToLoad
  {
    assert CaughtToResult(err).error[0] == 'E';
    assert FailedToLoad[0] == 'F';
  }

  // ---------------------------------------------------------------------
  // The request URL

  const TriviaEndpoint: string := "https://opentdb.com/api.php"
  const Any: string := "any"

  /** A URL: its address without the query, and the query parameters in order. */
  datatype Url = Url(endpoint: string, params: seq<(string, string)>)

  /** `searchParams.getAll(key)`: the values given for `key`, in order. */
  function ParamValues(params: seq<(string, string)>, key: string): seq<string>
    decreases |params|
  {
    if params == [] then []
    else (if params[0].0 == key then [params[0].1] else []) + ParamValues(params[1..], key)
  }

  /** `url` asks the trivia endpoint for `amount` questions, naming the
      category and the difficulty only when they are not "any". */
  predicate RequestsTrivia(url: Url, amount: int, category: string, difficulty: string) {
    && url.endpoint == TriviaEndpoint
    && ParamValues(url.params, "amount") == [IntToString(amount)]
    && ParamValues(url.params, "category") == (if category != Any then [category] else [])
    && ParamValues(url.params, "difficulty") == (if difficulty != Any then [difficulty] else [])
  }

  /** The URL `fetchTrivia` builds: `amount` first, then `category` and
      `difficulty` appended one by one unless they are "any". */
  method BuildTriviaUrl(amount: int, category: string, difficulty: string) returns (url: Url)
    ensures RequestsTrivia(url, amount, category, difficulty)
    ensures |url.params| >= 1 && url.params[0] == ("amount", IntToString(amount))
    ensures |url.params| == 1 + (if category != Any then 1 else 0) + (if difficulty != Any then 1 else 0)
  {
    var params := [("amount", IntToString(amount))];
    if category != Any {
      params := params + [("category", category)];
    }
    if difficulty != Any {
      params := params + [("difficulty", difficulty)];
    }
    url := Url(TriviaEndpoint, params);
    assert ParamValues(params, "amount") == [IntToString(amount)] by {
      ParamValuesAppend(params, "amount");
    }
    ParamValuesAppend(params, "category");
    ParamValuesAppend(params, "difficulty");
  }

  /** The three keys of the query, written out parameter by parameter. */
  lemma ParamValuesAppend(params: seq<(string, string)>, key: string)
    requires 1 <= |params| <= 3 && params[0].0 == "amount"
    requires |params| >= 2 ==> params[1].0 in {"category", "difficulty"}
    requires |params| == 3 ==> params[1].0 == "category" && params[2].0 == "difficulty"
    ensures ParamValues(params, key) ==
      (if key == "amount" then [params[0].1] else [])
      + (if |params| >= 2 && params[1].0 == key then [params[1].1] else [])
      + (if |params| == 3 && params[2].0 == key then [params[2].1] else [])
  {
    var first := if key == "amount" then [params[0].1] else [];
    if |params| == 1 {
      assert params[1..] == [];
      assert ParamValues(params, key) == first + [];
    } else {
      var rest := params[1..];
      var second := if params[1].0 == key then [params[1].1] else [];
      if |params| == 2 {
        assert rest[1..] == [];
        assert ParamValues(rest, key) == second + [];
      } else {
        var third := if params[2].0 == key then [params[2].1] else [];
        assert rest[1..][1..] == [];
        assert ParamValues(rest[1..], key) == third + [];
        assert ParamValues(rest, key) == second + third;
      }
    }
  }

  /** What the provider did: answered with a body, or the fetch threw. */
  datatype Outcome = Response(data: TriviaResponse) | Threw(err: Thrown)

  /** `fetchTrivia(amount, category, difficulty)` with the provider's
      behaviour given as `outcome`: the URL it requests, and its result. */
  method FetchTrivia(amount: int, category: string, difficulty: string, outcome: Outcome,
                     random: seq<real>, decode: string -> string)
    returns (url: Url, result: ResultOrError<seq<EnhancedTriviaQuestion>, string>)
    requires outcome.Response? && outcome.data.responseCode == 0 ==> ValidDraws(random, TotalDraws(outcome.data.results))
    ensures RequestsTrivia(url, amount, category, difficulty)
    ensures outcome.Response? ==> result == ResponseToResult(outcome.data, random, decode)
    ensures outcome.Threw? ==> result == CaughtToResult(outcome.err)
    ensures result.Ok? <==> outcome.Response? && outcome.data.responseCode == 0
  {
    url := BuildTriviaUrl(amount, category, difficulty);
    match outcome
    case Response(data) =>
      result := ResponseToResult(data, random, decode);
    case Threw(err) =>
      result := CaughtToResult(err);
  }
}

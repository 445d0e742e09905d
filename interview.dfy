/** The server actions `generateQuiz` and `saveQuizResult` of
    actions/interview.js, over the model and database of Collaborators. */
module Interview {
  import opened Common
  import opened ResponseText
  import opened QuizDecoding
  import opened Grading
  import opened Collaborators

  /** What one generation attempt yields from a reply that resolved: the
      ten questions, or `None` when the text does not parse or has the
      wrong shape. */
  function AttemptQuiz(parse: string -> Option<Json>, result: ProviderResult): (quiz: Option<seq<Json>>)
    ensures quiz.Some? ==> |quiz.value| == 10
  {
    DecodeQuiz(parse, ExtractText(result))
  }

  /** Whether the first attempt, with reply `first`, leads to the retry:
      it resolved, but its text either did not parse or parsed to the wrong
      shape. A thrown call does not. */
  function Retries(parse: string -> Option<Json>, first: Reply): (retry: bool)
    ensures retry <==> (first.Returned? &&
      var parsed := parse(ParseInput(ExtractText(first.result)));
      parsed.None? || AcceptQuiz(parsed.value).None?)
  {
    first.Returned? && AttemptQuiz(parse, first.result).None?
  }

  /** The outcome `generateQuiz` promises for the replies `first` and
      `second` to its first and (possible) second call. */
  function QuizOutcome(parse: string -> Option<Json>, first: Reply, second: Reply): (res: Result<seq<Json>, Error>)
    ensures res.Success? ==> |res.value| == 10
    ensures res.Failure? ==> res.error == GenerationFailed
  {
    if first.Threw? then Failure(GenerationFailed)
    else if AttemptQuiz(parse, first.result).Some? then Success(AttemptQuiz(parse, first.result).value)
    else if second.Threw? then Failure(GenerationFailed)
    else if AttemptQuiz(parse, second.result).Some? then Success(AttemptQuiz(parse, second.result).value)
    else Failure(GenerationFailed)
  }

  /** The first attempt that validates wins; a first attempt that validates
      or throws settles the outcome whatever the second reply would be; and
      the quiz is never produced unless one of the two replies gives it. */
  lemma QuizOutcomeFirstWins(parse: string -> Option<Json>, first: Reply, second: Reply, other: Reply)
    ensures first.Returned? && AttemptQuiz(parse, first.result).Some? ==>
      QuizOutcome(parse, first, second) == Success(AttemptQuiz(parse, first.result).value)
    ensures !Retries(parse, first) ==> QuizOutcome(parse, first, second) == QuizOutcome(parse, first, other)
    ensures QuizOutcome(parse, first, second).Success? ==>
      || (first.Returned? && AttemptQuiz(parse, first.result) == Some(QuizOutcome(parse, first, second).value))
      || (Retries(parse, first) && second.Returned?
          && AttemptQuiz(parse, second.result) == Some(QuizOutcome(parse, first, second).value))
  {
  }

  /** The model calls of `generateQuiz` for a user with `industry` and
      `skills`: the quiz prompt, then the stricter prompt only when the
      first reply resolved to text that did not give a quiz. */
  method RequestQuiz(provider: Provider, parse: string -> Option<Json>, industry: string, skills: seq<string>)
    returns (res: Result<seq<Json>, Error>)
    requires provider.Valid()
    modifies provider
    ensures provider.Valid()
    ensures var first := provider.oracle(old(provider.calls));
      && provider.prompts == old(provider.prompts) + [QuizPrompt(industry, skills)]
                              + (if Retries(parse, first) then [RetryPrompt] else [])
      && res == QuizOutcome(parse, first, provider.oracle(old(provider.calls) + 1))
  {
    ghost var later := provider.oracle(provider.calls + 1);
    var first := provider.Generate(QuizPrompt(industry, skills));
    if first.Threw? {
      assert !Retries(parse, first);
      return Failure(GenerationFailed);
    }
    var quiz := AttemptQuiz(parse, first.result);
    if quiz.Some? {
      assert !Retries(parse, first) && QuizOutcome(parse, first, later) == Success(quiz.value);
      return Success(quiz.value);
    }
    assert Retries(parse, first);
    var second := provider.Generate(RetryPrompt);
    assert second == later;
    if second.Threw? {
      return Failure(GenerationFailed);
    }
    quiz := AttemptQuiz(parse, second.result);
    if quiz.Some? {
      assert QuizOutcome(parse, first, second) == Success(quiz.value);
      return Success(quiz.value);
    }
    return Failure(GenerationFailed);
  }

  /** `generateQuiz`: the two guards, then at most two model calls; the
      first attempt that gives ten questions wins, and every failure after
      the guards, a thrown call included, is the one generic error. */
  method GenerateQuiz(session: Option<ClerkId>, store: Store, provider: Provider,
                      parse: string -> Option<Json>)
    returns (res: Result<seq<Json>, Error>)
    requires provider.Valid()
    modifies provider
    ensures provider.Valid()
    ensures |provider.prompts| <= |old(provider.prompts)| + 2
    ensures res.Success? ==> |res.value| == 10
    ensures session.None? ==> res == Failure(Unauthorized) && provider.prompts == old(provider.prompts)
    ensures session.Some? && session.value !in store.users ==>
      res == Failure(UserNotFound) && provider.prompts == old(provider.prompts)
    ensures session.Some? && session.value in store.users ==>
      var user := store.users[session.value];
      var first := provider.oracle(old(provider.calls));
      var second := provider.oracle(old(provider.calls) + 1);
      && provider.prompts == old(provider.prompts) + [QuizPrompt(user.industry, user.skills)]
                              + (if Retries(parse, first) then [RetryPrompt] else [])
      && res == QuizOutcome(parse, first, second)
  {
    if session.None? {
      return Failure(Unauthorized);
    }
    var user := store.FindUser(session.value);
    if user.None? {
      return Failure(UserNotFound);
    }
    res := RequestQuiz(provider, parse, user.value.industry, user.value.skills);
  }

  /** `tipResult.response.text().trim()`: `None` when the call threw or the
      result has no callable `response.text`, or that call throws. */
  function TipText(reply: Reply): (tip: Option<string>)
    ensures reply.Threw? ==> tip.None?
    ensures tip.Some? <==>
      && reply.Returned?
      && reply.result.response.ObjectResponse?
      && reply.result.response.text.TextMethod?
      && reply.result.response.text.call.Some?
    ensures tip.Some? ==> tip.value == Trim(reply.result.response.text.call.value)
    ensures tip.Some? ==> tip.value == [] || (!IsJsWhitespace(tip.value[0]) && !IsJsWhitespace(tip.value[|tip.value| - 1]))
  {
    match reply
    case Returned(ProviderResult(ObjectResponse(_, TextMethod(Some(t))), _)) => Some(Trim(t))
    case _ => None
  }

  /** `saveQuizResult`: the two guards, grading, a tip request only when
      some answer is wrong (its failure leaves the tip `null`), then the
      write of the assessment with the caller's score passed through. */
  method SaveQuizResult(session: Option<ClerkId>, store: Store, provider: Provider,
                        questions: seq<QuizQuestion>, answers: seq<string>, score: real)
    returns (res: Result<Assessment, Error>)
    requires provider.Valid() && store.Valid()
    modifies provider, store
    ensures provider.Valid() && store.Valid()
    ensures session.None? ==>
      res == Failure(Unauthorized) && provider.prompts == old(provider.prompts) && store.assessments == old(store.assessments)
    ensures session.Some? && session.value !in store.users ==>
      res == Failure(UserNotFound) && provider.prompts == old(provider.prompts) && store.assessments == old(store.assessments)
    ensures session.Some? && session.value in store.users ==>
      var user := store.users[session.value];
      var graded := Grade(questions, answers);
      var wrong := WrongAnswers(graded);
      var tip := if wrong == [] then None else TipText(provider.oracle(old(provider.calls)));
      && provider.prompts == old(provider.prompts) + (if wrong == [] then [] else [TipPrompt(user.industry, wrong)])
      && (store.writesFail ==> res == Failure(SaveFailed) && store.assessments == old(store.assessments))
      && (!store.writesFail ==>
            && res == Success(Assessment(|old(store.assessments)|, user.id, score, graded, "Technical", tip))
            && store.assessments == old(store.assessments) + [res.value])
  {
    if session.None? {
      return Failure(Unauthorized);
    }
    var user := store.FindUser(session.value);
    if user.None? {
      return Failure(UserNotFound);
    }
    var questionResults := Grade(questions, answers);
    var wrongAnswers := WrongAnswers(questionResults);
    var improvementTip: Option<string> := None;
    if |wrongAnswers| > 0 {
      var tipResult := provider.Generate(TipPrompt(user.value.industry, wrongAnswers));
      improvementTip := TipText(tipResult);
    }
    var created := store.CreateAssessment(user.value.id, score, questionResults, "Technical", improvementTip);
    if created.None? {
      return Failure(SaveFailed);
    }
    return Success(created.value);
  }
}

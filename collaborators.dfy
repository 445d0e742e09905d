/** The external services the server actions call, reduced to what the
    actions observe of them: the text-generation model and the database. */
module Collaborators {
  import opened Common
  import opened ResponseText
  import opened Grading

  /** The identifier the auth provider gives a signed-in user. */
  type ClerkId = string

  /** A user record: its database id and the profile the prompts use. */
  datatype User = User(id: string, industry: string, skills: seq<string>)

  /** What a prompt asks for; its wording is not modelled, only what it is
      built from. */
  datatype Prompt =
    | QuizPrompt(industry: string, skills: seq<string>)    // the first quiz request
    | RetryPrompt                                          // the stricter second request
    | TipPrompt(industry: string, wrong: seq<GradedQuestion>)  // the improvement-tip request

  /** How a call to `model.generateContent` ends: it throws, or it resolves
      to a result. */
  datatype Reply = Threw | Returned(result: ProviderResult)

  /** The text-generation model. Its replies are an oracle: the reply to the
      k-th call is `oracle(k)`, whatever was asked. `prompts` records every
      request in order. */
  class Provider {
    const oracle: nat -> Reply
    var calls: nat
    ghost var prompts: seq<Prompt>

    ghost predicate Valid()
      reads this
    {
      calls == |prompts|
    }

    constructor (oracle: nat -> Reply)
      ensures Valid() && this.oracle == oracle && prompts == []
    {
      this.oracle := oracle;
      calls := 0;
      prompts := [];
    }

    /** `model.generateContent(p)`: one more call, answered by the oracle. */
    method Generate(p: Prompt) returns (reply: Reply)
      requires Valid()
      modifies this
      ensures Valid()
      ensures prompts == old(prompts) + [p]
      ensures reply == oracle(old(calls))
    {
      reply := oracle(calls);
      calls := calls + 1;
      prompts := prompts + [p];
    }
  }

  /** A stored assessment; `id` is the identifier the store assigns. The
      creation time is not modelled. */
  datatype Assessment = Assessment(
    id: nat,
    userId: string,
    quizScore: real,
    questions: seq<GradedQuestion>,
    category: string,
    improvementTip: Option<string>)

  /** The database: the user records, keyed by the auth provider's id, and
      the assessments written so far, oldest first. Whether it accepts
      writes is fixed by `writesFail`. */
  class Store {
    const users: map<ClerkId, User>
    const writesFail: bool
    var assessments: seq<Assessment>

    /** Every assessment carries its position as its id, so ids are
        distinct. */
    ghost predicate Valid()
      reads this
    {
      forall i :: 0 <= i < |assessments| ==> assessments[i].id == i
    }

    constructor (users: map<ClerkId, User>, writesFail: bool)
      ensures Valid()
      ensures this.users == users && this.writesFail == writesFail && assessments == []
    {
      this.users := users;
      this.writesFail := writesFail;
      assessments := [];
    }

    /** `db.user.findUnique({ where: { clerkUserId } })`. */
    method FindUser(clerkId: ClerkId) returns (user: Option<User>)
      ensures user.Some? <==> clerkId in users
      ensures user.Some? ==> user.value == users[clerkId]
    {
      if clerkId in users {
        user := Some(users[clerkId]);
      } else {
        user := None;
      }
    }

    /** `db.assessment.create`: appends the record under the next id, which
      no stored assessment has, or fails and leaves the store as it was. */
    method CreateAssessment(userId: string, quizScore: real, questions: seq<GradedQuestion>,
                            category: string, improvementTip: Option<string>)
      returns (created: Option<Assessment>)
      requires Valid()
      modifies this
      ensures Valid()
      ensures created.Some? ==> forall i :: 0 <= i < |old(assessments)| ==> old(assessments)[i].id != created.value.id
      ensures writesFail ==> created.None? && assessments == old(assessments)
      ensures !writesFail ==>
        && created == Some(Assessment(|old(assessments)|, userId, quizScore, questions, category, improvementTip))
        && assessments == old(assessments) + [created.value]
    {
      if writesFail {
        created := None;
      } else {
        var a := Assessment(|assessments|, userId, quizScore, questions, category, improvementTip);
        assessments := assessments + [a];
        created := Some(a);
      }
    }
  }
}

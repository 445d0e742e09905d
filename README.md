# Interview quiz actions: a verified model

This project models the interview-quiz server actions of a career-coaching web
application (`actions/interview.js`). It is written in Dafny. It covers these
parts:

- **Text extraction.** A reply from the text-generation model is reduced to one
  string. The sources are tried in a fixed priority order: the joined parts of
  the first candidate, then `response.text()`, then a bare string `response`,
  then `outputText`. If a source throws, the result is `""`. If no source is
  present, the result is also `""` (module `ResponseText`).
- **Quiz decoding.** Markdown fence markers are stripped: three backticks, then
  an optional `json`, then an optional newline. The text is trimmed. The span
  from the first `{` to the last `}` is taken, or the whole text when there is
  no such span. That text is handed to `JSON.parse`, and the result is
  accepted only if its `questions` field is an array of exactly ten items
  (module `QuizDecoding`). `JSON.parse` is a function parameter
  `parse: string -> Option<Json>`, where `None` means it throws.
- **Grading.** Questions are paired with answers by position. `isCorrect`
  means exact string equality. The wrong answers are the incorrect entries,
  kept in their original order (module `Grading`).
- **The two actions** (module `Interview`):
  - `generateQuiz` makes at most two model calls. The first attempt that
    validates wins. Every failure after the auth and user checks, a thrown
    call included, becomes the single error "Failed to generate quiz
    questions".
  - `saveQuizResult` grades the answers. It asks for an improvement tip only
    when some answer is wrong. A failed tip leaves the tip `null` and does not
    stop the save. It then writes the assessment with the caller's score, the
    graded questions and the category `"Technical"`.

The model and the database are classes in module `Collaborators`:

- `Provider` answers its k-th call with `oracle(k)` and keeps a ghost log of
  the prompts it was sent.
- `Store` holds the user records, a fixed flag saying whether writes fail, and
  the assessments written so far.
- The auth provider is the `session` parameter (`None` when no user is signed
  in).

A reader might expect checks that the code does not make. The model follows
the code:

- A quiz item is not checked to have four options, or to have a
  `correctAnswer` among them. Only `questions` being an array of ten items is
  checked, and the items are returned uninspected.
- Answers are not checked against the number of questions. An answer missing
  at position i reads as `undefined` (`None` here). That entry is incorrect,
  unless the item itself lacks `correctAnswer`: then `undefined === undefined`
  holds and the entry counts as correct. `correctAnswer` is therefore an
  `Option<string>`.
- `quizScore` is not computed from the grading. The caller's `score` is stored
  unchanged.

## Model

| member | source | states |
|---|---|---|
| Common.Message | actions/interview.js:12-202 | every error reaches the caller with a non-empty message |
| Common.MessagesDistinct | actions/interview.js:12-202 | two errors have the same message exactly when they are the same error |
| ResponseText.JoinTexts | actions/interview.js:54-56 | joining the parts throws exactly when some part is null; a non-empty join comes from some part with non-empty text |
| ResponseText.JoinTextsAppend | actions/interview.js:54-56 | joining a concatenation throws when either side throws, and otherwise gives the two joined texts in order |
| ResponseText.JoinTextsSingle | actions/interview.js:54-56 | one part: a null part throws, a missing text joins as `""`, a present text joins as itself |
| ResponseText.ExtractText | actions/interview.js:51-71 | a non-empty extracted text is the text of one of the four sources |
| ResponseText.ExtractTextFollowsPriority | actions/interview.js:51-71 | the extracted text is the first present source in the order candidates, `text()`, string `response`, `outputText`; a throw or no source gives `""` |
| ResponseText.FirstPresentIsFirst | actions/interview.js:51-71 | under the priority reading, a non-empty result is the text of a present source, and every earlier source is absent |
| ResponseText.ExtractTextDrawnFromSources | actions/interview.js:51-71 | extraction never invents text: a non-empty result is the highest-priority present source; with no source present, the result is `""` |
| QuizDecoding.StripFromRemovesAll | actions/interview.js:74 | the left-to-right scan of the global replace leaves no three-backtick marker, including one formed across a removed match |
| QuizDecoding.StripFrom | actions/interview.js:74 | the global replace as a left-to-right scan from an index; its contract bounds the result by the text scanned, and the lemmas below state what it keeps and removes |
| QuizDecoding.StripFences | actions/interview.js:74 | the replace over the whole text: never longer than the input, and no three-backtick marker is left |
| QuizDecoding.StripFromKeeps | actions/interview.js:74 | characters at which no marker starts are copied through in order, ahead of what the rest of the scan gives |
| QuizDecoding.StripFromShift | actions/interview.js:74 | the replace works locally: scanning a text from a position inside a suffix gives the same as scanning that suffix alone |
| QuizDecoding.StripFencesPrefix | actions/interview.js:74 | text in which no marker starts passes through the replace unchanged, in front of whatever follows |
| QuizDecoding.StripFencesFenceFree | actions/interview.js:74 | text with no marker is left as it is |
| QuizDecoding.StripFencesIdempotent | actions/interview.js:74 | stripping twice gives the same text as stripping once |
| QuizDecoding.LeadingWhitespace | actions/interview.js:74 | counts the leading run of ECMAScript whitespace and line terminators, stopping at the first other character |
| QuizDecoding.TrailingWhitespace | actions/interview.js:74 | counts the trailing run of ECMAScript whitespace and line terminators, stopping at the last other character |
| QuizDecoding.TrimIsMaximalSlice | actions/interview.js:74 | `trim` gives a slice of the input with only whitespace dropped on each side, and that slice does not start or end with whitespace |
| QuizDecoding.Trim | actions/interview.js:74 | `trim` never lengthens its input, and its result is empty or has non-whitespace first and last characters |
| QuizDecoding.TrimFenceFree | actions/interview.js:74 | trimming text that holds no fence marker leaves none |
| QuizDecoding.FirstIndexOf | actions/interview.js:76 | gives the index of the first occurrence of a character, or the length when there is none |
| QuizDecoding.LastIndexOf | actions/interview.js:76 | gives the index of the last occurrence of a character, or -1 when there is none |
| QuizDecoding.JsonCandidate | actions/interview.js:76-77 | when some `{` has a `}` after it, gives the span from the first `{` to the last `}` (greedy); otherwise gives the whole cleaned text; never longer than it, and fence-free when it is |
| QuizDecoding.NoFenceSlice | actions/interview.js:74-77 | any piece of fence-free text is fence-free |
| QuizDecoding.JsonCandidateFramed | actions/interview.js:76-77 | a brace-delimited block with no `{` before it and no `}` after it is exactly the span taken |
| QuizDecoding.AcceptQuiz | actions/interview.js:89-90 | a parsed value is accepted exactly when it is an object whose `questions` is an array of exactly 10 items, and then that array is returned |
| QuizDecoding.ParseInput | actions/interview.js:73-80 | the text `tryParseJSONFromText` hands to `JSON.parse` is never longer than the reply text and holds no fence marker |
| QuizDecoding.DecodeQuiz | actions/interview.js:73-97 | one attempt yields a quiz exactly when `JSON.parse` of the parse input succeeds and the shape check accepts, and then it is the accepted array of 10 items |
| QuizDecoding.StripOpeningFence | actions/interview.js:74 | an opening fence with its `json` tag and newline is removed entirely |
| QuizDecoding.StripClosingFence | actions/interview.js:74 | a closing fence is removed with the tag and newline that may follow it, and backtick-free text after it is kept |
| QuizDecoding.StripFencedBlock | actions/interview.js:74 | a fenced `json` block inside backtick-free prose loses only its fence markers and the tag and newline after them |
| QuizDecoding.TrimmedSpan | actions/interview.js:74-77 | after trimming, the span taken from a framed brace block is that block |
| QuizDecoding.BareJsonUnchanged | actions/interview.js:73-80 | a bare JSON object text reaches `JSON.parse` unchanged |
| QuizDecoding.FencedJsonRoundTrip | actions/interview.js:73-80 | wrapping an object in a `json` fence with brace-free prose around it gives `JSON.parse` the same text as the bare object |
| Grading.Grade | actions/interview.js:145-151 | one entry per question, in order: question, correct answer and explanation copied, the user's answer from the same position (absent past the end), and `isCorrect` exactly when that answer strictly equals the correct one, two missing values included |
| Grading.WrongAnswers | actions/interview.js:154 | the wrong answers are graded entries that are incorrect, and there are no more of them than graded entries |
| Grading.WrongAnswersAppend | actions/interview.js:154 | the filter distributes over concatenation, so entries keep their original order |
| Grading.WrongAnswersSingle | actions/interview.js:154 | a single entry is kept exactly when it is incorrect |
| Grading.WrongAnswersCounts | actions/interview.js:154 | each incorrect entry is kept as often as it occurs, and no correct entry is kept |
| Grading.WrongAnswersEmptyIff | actions/interview.js:145-158 | there are no wrong answers exactly when every question's answer in its position equals its correct answer, both possibly missing |
| Collaborators.Provider.Generate | actions/interview.js:46-49 | each model call is logged and answered with the oracle's reply for that call number |
| Collaborators.Store.FindUser | actions/interview.js:14-22 | the user lookup finds a record exactly when one is stored under the caller's id |
| Collaborators.Store.CreateAssessment | actions/interview.js:188-203 | a write either appends the record under the next id, which no stored assessment has, keeping ids equal to positions, or fails and leaves the store unchanged |
| Interview.AttemptQuiz | actions/interview.js:84-91 | an attempt that yields a quiz yields exactly 10 questions |
| Interview.Retries | actions/interview.js:84-97 | the retry is made exactly when the first call resolved and its text either failed to parse or parsed to the wrong shape; a thrown call is not retried |
| Interview.QuizOutcome | actions/interview.js:82-132 | generation ends with 10 questions or with the generic generation error, never with another error |
| Interview.QuizOutcomeFirstWins | actions/interview.js:82-132 | a first attempt that validates wins; a first attempt that validates or throws settles the outcome, whatever the second reply; a quiz always comes from one of the two replies |
| Interview.RequestQuiz | actions/interview.js:82-127 | the quiz prompt is sent; the stricter prompt is sent only after a first reply that resolved without giving a quiz; the result is `QuizOutcome` of the replies |
| Interview.GenerateQuiz | actions/interview.js:10-132 | Unauthorized and "User not found" come first, with no model call; then the quiz prompt, and the retry prompt only after a first reply that parsed wrongly; at most two calls; result as `QuizOutcome` |
| Interview.TipText | actions/interview.js:177-185 | a tip exists exactly when the call resolved with a callable `response.text()` that returned; it is that text trimmed, with no outer whitespace; a thrown call gives no tip |
| Interview.SaveQuizResult | actions/interview.js:135-204 | guards first; tip request only when some answer is wrong, with exactly those wrong answers; tip `null` when there are none or the call fails; the assessment gets the graded questions, the caller's score, `"Technical"` and the tip; a failed write gives "Failed to save quiz result" and stores nothing |

## Left out

- `getAssessments` (actions/interview.js:206-231) is not modelled. It is a single database query, and the database does its ordering.
- The wording of the prompts (actions/interview.js:24-44, 100-109, 166-175) is not modelled. A `Prompt` records only what it is built from: the industry and skills, the retry, or the industry and the wrong answers.
- `console` logging and the diagnostics it prints are not modelled. The output is unchanged by them.
- `JSON.parse` is a parameter, not a definition. Which texts parse, and to which values, is not modelled.
- The regular-expression engine is not modelled in general. Only the fence pattern and the brace-span pattern are written out.
- Only strings are modelled as JavaScript values for `text()`, `outputText`, part texts and answers. A non-string value (a number, say) is not modelled. Neither is a `parts` value that is not an array.
- Grading.Grade: question and explanation are modelled as strings, and `correctAnswer` as a string or missing. Since `Grade` only copies the first two, other values for them change nothing. A non-string `correctAnswer`, such as a number, is not modelled; it would never equal a string answer.
- An exception from the user lookup is not modelled. In the code it propagates unchanged.
- The Clerk auth call is not modelled. It is the `session` input.
- The model client setup and API key (actions/interview.js:7-8) are not modelled.
- The assessment's `createdAt` timestamp is not modelled.
- `async`/`await` is modelled as plain sequential calls.
- The `|| ""` after each extraction (actions/interview.js:85, 112) has no effect in the model, because extraction always returns a string.

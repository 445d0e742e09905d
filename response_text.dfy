/** The shape of a provider reply and the choice of its text
    (`extractTextFromResponse` in actions/interview.js). */
module ResponseText {
  import opened Common

  /** One element of `candidates[0].content.parts`. `NullPart` is a null or
      undefined element: reading its `text` throws. A part whose `text` is
      missing contributes nothing to the joined string. */
  datatype Part = NullPart | Part(text: Option<string>)

  /** One element of `response.candidates`; `parts` is `None` when the
      candidate, its `content` or its `parts` is missing. */
  datatype Candidate = Candidate(parts: Option<seq<Part>>)

  /** `response.text`: absent (not a function), or a function whose call
      either returns a string or throws (`None`). */
  datatype TextMethod = NoTextMethod | TextMethod(call: Option<string>)

  /** `result.response`: missing, a bare string, or an object. A missing or
      empty `candidates` array is the empty sequence. */
  datatype ResponseField =
    | NoResponse
    | StringResponse(s: string)
    | ObjectResponse(candidates: seq<Candidate>, text: TextMethod)

  /** What `model.generateContent` resolves to. A `null` result is a
      `ProviderResult(NoResponse, None)`. */
  datatype ProviderResult = ProviderResult(response: ResponseField, outputText: Option<string>)

  /** The joined `text` of the parts; `None` when a null part makes the
      `map` throw. Missing texts join as the empty string. */
  function JoinTexts(parts: seq<Part>): (r: Option<string>)
    ensures r.None? <==> NullPart in parts
    ensures r.Some? && r.value != [] ==> exists k :: 0 <= k < |parts| && parts[k].Part? && parts[k].text.Some? && parts[k].text.value != []
  {
    if parts == [] then Some([])
    else match parts[0]
      case NullPart => None
      case Part(t) =>
        var head := if t.Some? then t.value else [];
        match JoinTexts(parts[1..])
        case None => None
        case Some(rest) => Some(head + rest)
  }

  /** Joining a concatenation: it throws when either side throws, and
      otherwise gives the two joined texts one after the other. */
  lemma {:induction false} JoinTextsAppend(a: seq<Part>, b: seq<Part>)
    ensures JoinTexts(a + b) == if JoinTexts(a).None? || JoinTexts(b).None? then None
                                else Some(JoinTexts(a).value + JoinTexts(b).value)
  {
    if a == [] {
      assert a + b == b;
      if JoinTexts(b).Some? {
        assert [] + JoinTexts(b).value == JoinTexts(b).value;
      }
    } else {
      assert (a + b)[0] == a[0] && (a + b)[1..] == a[1..] + b;
      JoinTextsAppend(a[1..], b);
      if a[0].Part? && JoinTexts(a[1..]).Some? && JoinTexts(b).Some? {
        var head := if a[0].text.Some? then a[0].text.value else [];
        assert head + (JoinTexts(a[1..]).value + JoinTexts(b).value)
            == (head + JoinTexts(a[1..]).value) + JoinTexts(b).value;
      }
    }
  }

  /** One part: a null part throws, a missing text joins as `""`, and a
      present text joins as itself. With `JoinTextsAppend` this fixes the
      joined string as the in-order concatenation of the part texts. */
  lemma JoinTextsSingle(p: Part)
    ensures JoinTexts([p]) == match p
      case NullPart => None
      case Part(None) => Some([])
      case Part(Some(t)) => Some(t)
  {
    assert [p][1..] == [];
    if p.Part? && p.text.Some? {
      assert p.text.value + [] == p.text.value;
    }
  }

  /** What the candidate chain evaluates to: `undefined` (`Absent`), a joined
      string, or a throw. */
  datatype Source = Absent | Present(text: string) | Raises

  /** The first candidate's joined parts text, as the source reads it: only a
      non-empty (truthy) string is used. */
  function CandidatesSource(r: ProviderResult): Source
  {
    match r.response
    case ObjectResponse(cs, _) =>
      if cs == [] || cs[0].parts.None? then Absent
      else (match JoinTexts(cs[0].parts.value)
        case None => Raises
        case Some(t) => if t == [] then Absent else Present(t))
    case _ => Absent
  }

  /** `response.text()`, used whenever it is a function, whatever it returns. */
  function TextMethodSource(r: ProviderResult): Source
  {
    match r.response
    case ObjectResponse(_, TextMethod(call)) => if call.Some? then Present(call.value) else Raises
    case _ => Absent
  }

  /** `response` itself when it is a string, even the empty one. */
  function StringSource(r: ProviderResult): Source
  {
    if r.response.StringResponse? then Present(r.response.s) else Absent
  }

  /** `outputText`, used only when it is a non-empty (truthy) string. */
  function OutputTextSource(r: ProviderResult): Source
  {
    if r.outputText.Some? && r.outputText.value != [] then Present(r.outputText.value) else Absent
  }

  /** The four places text can come from, highest priority first. */
  function Sources(r: ProviderResult): (ss: seq<Source>)
    ensures |ss| == 4
  {
    [CandidatesSource(r), TextMethodSource(r), StringSource(r), OutputTextSource(r)]
  }

  /** The reference reading of a priority list: the first source that is
      there wins; a source that throws ends the search with the empty string,
      and so does running out of sources. */
  function FirstPresent(ss: seq<Source>): string
  {
    if ss == [] then []
    else match ss[0]
      case Absent => FirstPresent(ss[1..])
      case Present(t) => t
      case Raises => []
  }

  /** The text of a provider reply, written as the source's chain of `if`s,
      with the surrounding `try`/`catch` turning any throw into `""`. */
  function ExtractText(r: ProviderResult): (t: string)
    ensures t != [] ==> Present(t) in Sources(r)
  {
    var candidatesText :=
      if r.response.ObjectResponse? && r.response.candidates != [] && r.response.candidates[0].parts.Some?
      then JoinTexts(r.response.candidates[0].parts.value)
      else Some([]);
    if candidatesText.None? then []
    else if candidatesText.value != [] then candidatesText.value
    else if r.response.ObjectResponse? && r.response.text.TextMethod? then
      (if r.response.text.call.Some? then r.response.text.call.value else [])
    else if r.response.StringResponse? then r.response.s
    else if r.outputText.Some? && r.outputText.value != [] then r.outputText.value
    else []
  }

  /** The extracted text is the first source present, in the fixed order
      candidates, `text()`, string response, `outputText`. */
  lemma ExtractTextFollowsPriority(r: ProviderResult)
    ensures ExtractText(r) == FirstPresent(Sources(r))
  {
    var ss := Sources(r);
    if ss[0].Absent? {
      assert FirstPresent(ss) == FirstPresent([ss[1], ss[2], ss[3]]) by { assert ss[1..] == [ss[1], ss[2], ss[3]]; }
      if ss[1].Absent? {
        assert FirstPresent([ss[1], ss[2], ss[3]]) == FirstPresent([ss[2], ss[3]]) by { assert [ss[1], ss[2], ss[3]][1..] == [ss[2], ss[3]]; }
        if ss[2].Absent? {
          assert FirstPresent([ss[2], ss[3]]) == FirstPresent([ss[3]]) by { assert [ss[2], ss[3]][1..] == [ss[3]]; }
          assert FirstPresent([ss[3]][1..]) == [];
        }
      }
    }
  }

  /** A non-empty result of the priority reading is the text of some source
      that is present, and every source before it is absent. */
  lemma {:induction false} FirstPresentIsFirst(ss: seq<Source>)
    requires FirstPresent(ss) != []
    ensures exists k :: 0 <= k < |ss| && ss[k] == Present(FirstPresent(ss)) && forall j :: 0 <= j < k ==> ss[j].Absent?
  {
    if ss[0].Absent? {
      FirstPresentIsFirst(ss[1..]);
      var k :| 0 <= k < |ss[1..]| && ss[1..][k] == Present(FirstPresent(ss[1..])) && forall j :: 0 <= j < k ==> ss[1..][j].Absent?;
      assert ss[k + 1] == Present(FirstPresent(ss));
      assert forall j :: 0 <= j < k + 1 ==> ss[j].Absent? by {
        forall j | 0 <= j < k + 1 ensures ss[j].Absent? {
          if j > 0 { assert ss[j] == ss[1..][j - 1]; }
        }
      }
    } else {
      assert ss[0] == Present(FirstPresent(ss));
    }
  }

  /** Extraction never invents text: a non-empty result is the text of the
      highest-priority source present, and every source before it is absent;
      with no source present, or a throw first, the result is `""`. */
  lemma ExtractTextDrawnFromSources(r: ProviderResult)
    ensures ExtractText(r) != [] ==>
      exists k :: 0 <= k < 4 && Sources(r)[k] == Present(ExtractText(r)) && forall j :: 0 <= j < k ==> Sources(r)[j].Absent?
    ensures (forall k :: 0 <= k < 4 ==> !Sources(r)[k].Present?) ==> ExtractText(r) == []
  {
    ExtractTextFollowsPriority(r);
    if ExtractText(r) != [] {
      FirstPresentIsFirst(Sources(r));
    }
  }
}

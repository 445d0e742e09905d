/** From the text of a provider reply to a quiz: `tryParseJSONFromText` and
    the shape check of `generateQuiz` in actions/interview.js. */
module QuizDecoding {
  import opened Common

  /** A parsed JSON value. Which values `JSON.parse` produces is not modelled;
      it is given to the operations below as a partial function. */
  datatype Json =
    | JNull
    | JBool(b: bool)
    | JNumber(n: real)
    | JString(s: string)
    | JArray(items: seq<Json>)
    | JObject(fields: map<string, Json>)

  // ---------------------------------------------------------------------
  // Fence stripping: text.replace(/```(?:json)?\n?/g, "")
  // ---------------------------------------------------------------------

  /** A fence marker, three backticks, starts at index `i` of `s`. */
  predicate FenceAt(s: string, i: nat)
  {
    i + 3 <= |s| && s[i] == '`' && s[i + 1] == '`' && s[i + 2] == '`'
  }

  /** No fence marker occurs anywhere in `s`. */
  predicate NoFence(s: string)
  {
    forall i :: 0 <= i < |s| ==> !FenceAt(s, i)
  }

  /** Where the scan resumes once the pattern has taken the optional `json`
      tag and the optional newline that may start at index `k`. */
  function TagEnd(s: string, k: nat): (e: nat)
    requires k <= |s|
    ensures k <= e <= |s|
  {
    var m := if k + 4 <= |s| && s[k] == 'j' && s[k + 1] == 's' && s[k + 2] == 'o' && s[k + 3] == 'n'
             then k + 4 else k;
    if m < |s| && s[m] == '\n' then m + 1 else m
  }

  /** What is left of `t` after a fence's tag and newline are taken. */
  function AfterFence(t: string): string
  {
    t[TagEnd(t, 0)..]
  }

  /** The global replace, from index `i` on: a match at `i` (three backticks,
      then `json` if it follows, then a newline if it follows) is dropped and
      the scan resumes after it; any other character is kept. */
  function StripFrom(s: string, i: nat): (r: string)
    requires i <= |s|
    ensures |r| <= |s| - i
    decreases |s| - i
  {
    if i == |s| then []
    else if FenceAt(s, i) then StripFrom(s, TagEnd(s, i + 3))
    else [s[i]] + StripFrom(s, i + 1)
  }

  /** A character that is not a backtick is kept as the first character. */
  lemma StripFromHead(s: string, i: nat)
    requires i < |s| && s[i] != '`'
    ensures |StripFrom(s, i)| > 0 && StripFrom(s, i)[0] == s[i]
  {
  }

  /** Stripping is complete: no fence marker survives, not even one formed
      by characters that were separated by a removed match. */
  lemma {:induction false} StripFromRemovesAll(s: string, i: nat)
    requires i <= |s|
    ensures NoFence(StripFrom(s, i))
    decreases |s| - i
  {
    if i == |s| {
    } else if FenceAt(s, i) {
      StripFromRemovesAll(s, TagEnd(s, i + 3));
    } else {
      var rest := StripFrom(s, i + 1);
      var r := StripFrom(s, i);
      assert r == [s[i]] + rest;
      StripFromRemovesAll(s, i + 1);
      forall k | 0 <= k < |r| ensures !FenceAt(r, k) {
        if k > 0 {
          assert !FenceAt(rest, k - 1);
        } else if s[i] == '`' && i + 1 < |s| {
          if s[i + 1] != '`' {
            StripFromHead(s, i + 1);
          } else if i + 2 < |s| {
            assert s[i + 2] != '`';
            assert !FenceAt(s, i + 1);
            assert rest == [s[i + 1]] + StripFrom(s, i + 2);
            StripFromHead(s, i + 2);
          }
        }
      }
    }
  }

  /** `text.replace(/```(?:json)?\n?/g, "")`: every match of the fence
      pattern is removed, scanning left to right, and no fence marker is
      left in the result. */
  function StripFences(s: string): (r: string)
    ensures |r| <= |s|
    ensures NoFence(r)
  {
    StripFromRemovesAll(s, 0);
    StripFrom(s, 0)
  }

  /** The characters from `i` up to `n`, where no fence marker starts, are
      kept as they are in front of what the scan from `n` gives. */
  lemma {:induction false} StripFromKeeps(s: string, i: nat, n: nat)
    requires i <= n <= |s|
    requires forall k :: i <= k < n ==> !FenceAt(s, k)
    ensures StripFrom(s, i) == s[i..n] + StripFrom(s, n)
    decreases n - i
  {
    if i == n {
      assert s[i..n] == [];
    } else {
      var rest := StripFrom(s, i + 1);
      assert !FenceAt(s, i);
      assert StripFrom(s, i) == [s[i]] + rest;
      StripFromKeeps(s, i + 1, n);
      assert rest == s[i + 1..n] + StripFrom(s, n);
      assert s[i..n] == [s[i]] + s[i + 1..n];
    }
  }

  /** The tag after a fence is read the same way wherever the text sits. */
  lemma TagEndShift(a: string, b: string, k: nat)
    requires k <= |b|
    ensures TagEnd(a + b, |a| + k) == |a| + TagEnd(b, k)
  {
    var s := a + b;
    var i := |a| + k;
    if k + 4 <= |b| {
      assert s[i] == b[k] && s[i + 1] == b[k + 1] && s[i + 2] == b[k + 2] && s[i + 3] == b[k + 3];
    }
    var m := if k + 4 <= |b| && b[k] == 'j' && b[k + 1] == 's' && b[k + 2] == 'o' && b[k + 3] == 'n'
             then k + 4 else k;
    if m < |b| {
      assert s[|a| + m] == b[m];
    }
  }

  /** A fence marker is recognised the same way wherever the text sits. */
  lemma FenceAtShift(a: string, b: string, j: nat)
    ensures FenceAt(a + b, |a| + j) <==> FenceAt(b, j)
  {
    var s := a + b;
    if j + 3 <= |b| {
      assert s[|a| + j] == b[j] && s[|a| + j + 1] == b[j + 1] && s[|a| + j + 2] == b[j + 2];
    }
  }

  /** The scan over `a + b` from a position inside `b` is the scan over `b`
      alone. */
  lemma {:induction false} StripFromShift(a: string, b: string, j: nat)
    requires j <= |b|
    ensures StripFrom(a + b, |a| + j) == StripFrom(b, j)
    decreases |b| - j
  {
    var s := a + b;
    var i := |a| + j;
    if j < |b| {
      FenceAtShift(a, b, j);
      if FenceAt(b, j) {
        var e := TagEnd(b, j + 3);
        TagEndShift(a, b, j + 3);
        assert StripFrom(s, i) == StripFrom(s, |a| + e);
        assert StripFrom(b, j) == StripFrom(b, e);
        StripFromShift(a, b, e);
      } else {
        assert s[i] == b[j];
        assert StripFrom(s, i) == [b[j]] + StripFrom(s, i + 1);
        assert StripFrom(b, j) == [b[j]] + StripFrom(b, j + 1);
        StripFromShift(a, b, j + 1);
      }
    }
  }

  /** A prefix in which no fence marker starts passes through unchanged. */
  lemma StripFencesPrefix(a: string, b: string)
    requires forall i :: 0 <= i < |a| ==> !FenceAt(a + b, i)
    ensures StripFences(a + b) == a + StripFences(b)
  {
    var s := a + b;
    StripFromKeeps(s, 0, |a|);
    StripFromShift(a, b, 0);
    assert s[0..|a|] == a;
  }

  /** Text without a fence marker is left as it is. */
  lemma StripFencesFenceFree(s: string)
    requires NoFence(s)
    ensures StripFences(s) == s
  {
    StripFromKeeps(s, 0, |s|);
    assert s[0..|s|] == s;
  }

  /** Stripping twice strips nothing more. */
  lemma StripFencesIdempotent(s: string)
    ensures StripFences(StripFences(s)) == StripFences(s)
  {
    StripFencesFenceFree(StripFences(s));
  }

  // ---------------------------------------------------------------------
  // String.prototype.trim
  // ---------------------------------------------------------------------

  /** The characters `trim` removes: the ECMAScript WhiteSpace and
      LineTerminator characters. */
  predicate IsJsWhitespace(c: char)
  {
    c == '\t' || c == '\n' || c == '\U{B}' || c == '\U{C}' || c == '\r' || c == ' '
    || c == '\U{A0}' || c == '\U{1680}' || ('\U{2000}' <= c <= '\U{200A}')
    || c == '\U{2028}' || c == '\U{2029}' || c == '\U{202F}' || c == '\U{205F}'
    || c == '\U{3000}' || c == '\U{FEFF}'
  }

  /** How many whitespace characters `s` begins with. */
  function LeadingWhitespace(s: string): (n: nat)
    ensures n <= |s|
    ensures forall i :: 0 <= i < n ==> IsJsWhitespace(s[i])
    ensures n < |s| ==> !IsJsWhitespace(s[n])
  {
    if s != [] && IsJsWhitespace(s[0]) then 1 + LeadingWhitespace(s[1..]) else 0
  }

  /** How many whitespace characters `s` ends with. */
  function TrailingWhitespace(s: string): (n: nat)
    ensures n <= |s|
    ensures forall i :: |s| - n <= i < |s| ==> IsJsWhitespace(s[i])
    ensures n < |s| ==> !IsJsWhitespace(s[|s| - 1 - n])
  {
    if s != [] && IsJsWhitespace(s[|s| - 1]) then 1 + TrailingWhitespace(s[..|s| - 1]) else 0
  }

  function TrimStart(s: string): string
  {
    s[LeadingWhitespace(s)..]
  }

  function TrimEnd(s: string): string
  {
    s[..|s| - TrailingWhitespace(s)]
  }

  /** `String.prototype.trim`: the result is no longer than `s`, and it is
      empty or neither begins nor ends with whitespace. */
  function Trim(s: string): (r: string)
    ensures |r| <= |s|
    ensures r == [] || (!IsJsWhitespace(r[0]) && !IsJsWhitespace(r[|r| - 1]))
  {
    TrimEnd(TrimStart(s))
  }

  /** The trimmed string is the slice of `s` that remains when all leading
      and trailing whitespace is dropped: it neither begins nor ends with
      whitespace, and everything dropped is whitespace. */
  lemma TrimIsMaximalSlice(s: string)
    ensures exists i, j :: (0 <= i <= j <= |s| && Trim(s) == s[i..j]
                            && (forall k :: 0 <= k < i ==> IsJsWhitespace(s[k]))
                            && (forall k :: j <= k < |s| ==> IsJsWhitespace(s[k]))
                            && (i < j ==> !IsJsWhitespace(s[i]) && !IsJsWhitespace(s[j - 1])))
  {
    var i := LeadingWhitespace(s);
    var t := s[i..];
    var m := TrailingWhitespace(t);
    var j := i + |t| - m;
    assert Trim(s) == s[i..j];
    forall k | j <= k < |s| ensures IsJsWhitespace(s[k]) {
      assert s[k] == t[k - i];
    }
    if i < j {
      assert s[j - 1] == t[|t| - 1 - m];
    }
  }

  /** Trimming fence-free text leaves it fence-free. */
  lemma TrimFenceFree(s: string)
    requires NoFence(s)
    ensures NoFence(Trim(s))
  {
    var t := TrimStart(s);
    NoFenceSlice(s, LeadingWhitespace(s), |s|);
    assert t == s[LeadingWhitespace(s)..|s|];
    NoFenceSlice(t, 0, |t| - TrailingWhitespace(t));
    assert Trim(s) == t[0..|t| - TrailingWhitespace(t)];
  }

  /** Leading whitespace is only looked for before a non-whitespace start. */
  lemma TrimStartConcat(x: string, y: string)
    requires y != [] && !IsJsWhitespace(y[0])
    ensures TrimStart(x + y) == TrimStart(x) + y
  {
    var n := LeadingWhitespace(x);
    var xy := x + y;
    if n < |x| {
      assert xy[n] == x[n];
    } else {
      assert xy[n] == y[0];
    }
    assert LeadingWhitespace(xy) == n;
    assert xy[n..] == x[n..] + y;
  }

  /** Trailing whitespace is only looked for after a non-whitespace end. */
  lemma TrimEndConcat(x: string, y: string)
    requires x != [] && !IsJsWhitespace(x[|x| - 1])
    ensures TrimEnd(x + y) == x + TrimEnd(y)
  {
    var n := TrailingWhitespace(y);
    var xy := x + y;
    if n < |y| {
      assert xy[|xy| - 1 - n] == y[|y| - 1 - n];
    } else {
      assert xy[|xy| - 1 - n] == x[|x| - 1];
    }
    assert TrailingWhitespace(xy) == n;
    assert xy[..|xy| - n] == x + y[..|y| - n];
  }

  // ---------------------------------------------------------------------
  // The brace span: cleaned.match(/(\{[\s\S]*\})/)
  // ---------------------------------------------------------------------

  /** The index of the first `c` in `s`, or `|s|` when there is none. */
  function FirstIndexOf(s: string, c: char): (k: nat)
    ensures k <= |s| && (k < |s| ==> s[k] == c)
    ensures forall i :: 0 <= i < k ==> s[i] != c
  {
    if s == [] then 0
    else if s[0] == c then 0
    else 1 + FirstIndexOf(s[1..], c)
  }

  /** The index of the last `c` in `s`, or `-1` when there is none. */
  function LastIndexOf(s: string, c: char): (k: int)
    ensures -1 <= k < |s| && (k >= 0 ==> s[k] == c)
    ensures forall i :: k < i < |s| ==> s[i] != c
  {
    if s == [] then -1
    else if s[|s| - 1] == c then |s| - 1
    else LastIndexOf(s[..|s| - 1], c)
  }

  /** Some `{` in `s` has a `}` after it. */
  predicate HasBraceSpan(s: string)
  {
    exists i, j :: 0 <= i < j < |s| && s[i] == '{' && s[j] == '}'
  }

  /** The text handed to the JSON parser: the greedy span from the first `{`
      to the last `}` when the pattern matches, otherwise all of `cleaned`. */
  function JsonCandidate(cleaned: string): (toParse: string)
    ensures HasBraceSpan(cleaned) ==>
      exists i, j :: 0 <= i < j < |cleaned| && toParse == cleaned[i..j + 1]
        && cleaned[i] == '{' && cleaned[j] == '}'
        && (forall k :: 0 <= k < i ==> cleaned[k] != '{')
        && (forall k :: j < k < |cleaned| ==> cleaned[k] != '}')
    ensures !HasBraceSpan(cleaned) ==> toParse == cleaned
    ensures |toParse| <= |cleaned|
    ensures NoFence(cleaned) ==> NoFence(toParse)
  {
    var i := FirstIndexOf(cleaned, '{');
    var j := LastIndexOf(cleaned, '}');
    if i < j then
      NoFenceSlice(cleaned, i, j + 1);
      cleaned[i..j + 1]
    else cleaned
  }

  /** A piece of fence-free text is fence-free. */
  lemma NoFenceSlice(s: string, i: nat, j: nat)
    requires i <= j <= |s|
    ensures NoFence(s) ==> NoFence(s[i..j])
  {
    if NoFence(s) {
      forall k | 0 <= k < j - i ensures !FenceAt(s[i..j], k) {
        assert !FenceAt(s, i + k);
      }
    }
  }

  /** A brace-delimited block with no `{` before it and no `}` after it is
      exactly the span taken. */
  lemma JsonCandidateFramed(u: string, body: string, v: string)
    requires |body| >= 2 && body[0] == '{' && body[|body| - 1] == '}'
    requires Lacks(u, '{') && Lacks(v, '}')
    ensures JsonCandidate(u + body + v) == body
  {
    var s := u + body + v;
    var i := FirstIndexOf(s, '{');
    var j := LastIndexOf(s, '}');
    assert s[|u|] == '{' && s[|u| + |body| - 1] == '}';
    assert i == |u|;
    assert j == |u| + |body| - 1;
    assert s[i..j + 1] == body;
  }

  // ---------------------------------------------------------------------
  // Parsing and the shape check
  // ---------------------------------------------------------------------

  /** The string `tryParseJSONFromText` hands to `JSON.parse`: never longer
      than the reply text, and free of fence markers. */
  function ParseInput(text: string): (toParse: string)
    ensures |toParse| <= |text|
    ensures NoFence(toParse)
  {
    TrimFenceFree(StripFences(text));
    JsonCandidate(Trim(StripFences(text)))
  }

  /** The shape check: the parsed value is accepted exactly when it is an
      object whose `questions` field is an array of exactly ten items, and
      then that array is what is returned. The items are not inspected. */
  function AcceptQuiz(v: Json): (r: Option<seq<Json>>)
    ensures r.Some? <==> (v.JObject? && "questions" in v.fields
                          && v.fields["questions"].JArray? && |v.fields["questions"].items| == 10)
    ensures r.Some? ==> r.value == v.fields["questions"].items
  {
    match v
    case JObject(fields) =>
      if "questions" in fields then
        match fields["questions"]
        case JArray(items) => if |items| == 10 then Some(items) else None
        case _ => None
      else None
    case _ => None
  }

  /** One attempt's decoding: `tryParseJSONFromText`, with `JSON.parse`
      supplied as `parse` (`None` when it throws), then the shape check; a
      parse failure and a wrong shape both give `None`. */
  function DecodeQuiz(parse: string -> Option<Json>, text: string): (r: Option<seq<Json>>)
    ensures r.Some? ==> |r.value| == 10
    ensures r.Some? <==> parse(ParseInput(text)).Some? && AcceptQuiz(parse(ParseInput(text)).value).Some?
    ensures r.Some? ==> r == AcceptQuiz(parse(ParseInput(text)).value)
  {
    match parse(ParseInput(text))
    case None => None
    case Some(v) => AcceptQuiz(v)
  }

  /** Text without a backtick passes through stripping unchanged, whatever
      follows it. */
  lemma StripFencesBacktickFree(a: string, b: string)
    requires Lacks(a, '`')
    ensures StripFences(a + b) == a + StripFences(b)
  {
    forall i | 0 <= i < |a| ensures !FenceAt(a + b, i) {
      assert (a + b)[i] == a[i];
    }
    StripFencesPrefix(a, b);
  }

  /** An opening `json` fence and its newline are removed. */
  lemma StripOpeningFence(x: string)
    ensures StripFences("```json\n" + x) == StripFences(x)
  {
    var open := "```json\n";
    var s := open + x;
    assert FenceAt(s, 0);
    assert TagEnd(s, 3) == |open|;
    StripFromShift(open, x, 0);
  }

  /** A closing fence is removed, together with a `json` tag and a newline
      right after it, should the backtick-free text that follows start so. */
  lemma StripClosingFence(tail: string)
    requires Lacks(tail, '`')
    ensures StripFences("\n```" + tail) == "\n" + AfterFence(tail)
  {
    var close := "\n```";
    var s := close + tail;
    var e := TagEnd(tail, 0);
    assert !FenceAt(s, 0) && FenceAt(s, 1);
    TagEndShift(close, tail, 0);
    StripFromShift(close, tail, e);
    StripFromKeeps(tail, e, |tail|);
    assert StripFrom(s, 0) == "\n" + StripFrom(s, |close| + e);
  }

  /** Stripping a fenced block with backtick-free prose around it leaves the
      prose, the block, the newline before the closing fence, and what
      follows the closing fence minus an optional `json` tag and newline. */
  lemma StripFencedBlock(prose: string, body: string, tail: string)
    requires Lacks(prose, '`') && Lacks(tail, '`')
    requires body != [] && body[|body| - 1] != '`' && NoFence(body)
    ensures StripFences(prose + "```json\n" + body + "\n```" + tail)
         == prose + (body + ("\n" + AfterFence(tail)))
  {
    var closing := "\n```" + tail;
    var fenced := "```json\n" + (body + closing);
    assert prose + "```json\n" + body + "\n```" + tail == prose + fenced;
    StripFencesBacktickFree(prose, fenced);
    StripOpeningFence(body + closing);
    forall i | 0 <= i < |body| ensures !FenceAt(body + closing, i) {
      if i + 3 <= |body| {
        assert !FenceAt(body, i);
      } else {
        assert (body + closing)[|body| - 1] == body[|body| - 1];
      }
    }
    StripFencesPrefix(body, closing);
    StripClosingFence(tail);
  }

  /** Trimming cannot reach past a block that begins and ends with
      non-whitespace. */
  lemma TrimFramed(u: string, body: string, v: string)
    requires body != [] && !IsJsWhitespace(body[0]) && !IsJsWhitespace(body[|body| - 1])
    ensures Trim(u + (body + v)) == TrimStart(u) + body + TrimEnd(v)
  {
    var w := TrimStart(u);
    assert (body + v)[0] == body[0];
    assert (w + body)[|w + body| - 1] == body[|body| - 1];
    TrimStartConcat(u, body + v);
    assert TrimStart(u + (body + v)) == (w + body) + v;
    TrimEndConcat(w + body, v);
    assert Trim(u + (body + v)) == TrimEnd((w + body) + v);
  }

  /** `c` does not occur in `s`. */
  predicate Lacks(s: string, c: char)
  {
    forall k :: 0 <= k < |s| ==> s[k] != c
  }

  lemma LacksSlice(s: string, c: char, i: nat, j: nat)
    requires Lacks(s, c) && i <= j <= |s|
    ensures Lacks(s[i..j], c)
  {
    forall k | 0 <= k < j - i ensures s[i..j][k] != c {
      assert s[i..j][k] == s[i + k];
    }
  }

  /** A bare JSON object text is handed to the parser unchanged. */
  lemma BareJsonUnchanged(body: string)
    requires |body| >= 2 && body[0] == '{' && body[|body| - 1] == '}' && NoFence(body)
    ensures ParseInput(body) == body
  {
    StripFencesFenceFree(body);
    TrimFramed([], body, []);
    assert [] + (body + []) == body && [] + body + [] == body;
    JsonCandidateFramed([], body, []);
  }

  /** After trimming, the span taken from a brace-delimited block with no
      `{` before it and no `}` after it is that block. */
  lemma TrimmedSpan(prose: string, body: string, rest: string)
    requires Lacks(prose, '{') && Lacks(rest, '}')
    requires |body| >= 2 && body[0] == '{' && body[|body| - 1] == '}'
    ensures JsonCandidate(Trim(prose + (body + rest))) == body
  {
    TrimFramed(prose, body, rest);
    LacksSlice(prose, '{', LeadingWhitespace(prose), |prose|);
    LacksSlice(rest, '}', 0, |rest| - TrailingWhitespace(rest));
    JsonCandidateFramed(TrimStart(prose), body, TrimEnd(rest));
  }

  /** Fences and surrounding prose do not change what is parsed: a JSON
      object wrapped in a `json` fence, with prose before it that holds no
      `{` and prose after it that holds no `}` (neither holding a backtick),
      is parsed exactly as the bare object would be. */
  lemma FencedJsonRoundTrip(prose: string, body: string, tail: string)
    requires Lacks(prose, '`') && Lacks(prose, '{')
    requires Lacks(tail, '`') && Lacks(tail, '}')
    requires |body| >= 2 && body[0] == '{' && body[|body| - 1] == '}' && NoFence(body)
    ensures ParseInput(prose + "```json\n" + body + "\n```" + tail) == body
    ensures ParseInput(body) == body
  {
    BareJsonUnchanged(body);
    var tail' := AfterFence(tail);
    var rest := "\n" + tail';
    assert Lacks(rest, '}') by {
      LacksSlice(tail, '}', TagEnd(tail, 0), |tail|);
      forall k | 0 <= k < |rest| ensures rest[k] != '}' {
        if k > 0 { assert rest[k] == tail'[k - 1]; }
      }
    }
    var fenced := prose + "```json\n" + body + "\n```" + tail;
    StripFencedBlock(prose, body, tail);
    TrimmedSpan(prose, body, rest);
    assert ParseInput(fenced) == JsonCandidate(Trim(StripFences(fenced)));
  }
}

/**
 * The report generator (GenerateReport): the tendency lines fed into the
 * prompt, the request built from the environment, the failure policy that
 * turns every failed step into a fixed fallback text, and the cleanup of the
 * generated content.
 *
 * The environment and the HTTP exchange are parameters: `attempt` says what
 * happens when the handler tries to serialise, send and read back a request.
 */
module Report {
  import opened Wrappers
  import opened GoStrings
  import Classifier

  /** A decoded JSON value as encoding/json produces it for an interface{} target. */
  datatype Json =
    | JNull
    | JBool(b: bool)
    | JNumber(literal: string)
    | JString(s: string)
    | JArray(items: seq<Json>)
    | JObject(fields: map<string, Json>)

  /** The response body: not decodable as JSON, or the first JSON value in it. */
  datatype Payload = Malformed | Parsed(value: Json)

  /** How one attempt at the chat-completion exchange ended. */
  datatype Exchange =
    | MarshalFailed
    | RequestFailed
    | CallFailed
    | ReadFailed
    | Responded(status: int, payload: Payload)

  /** DEEPSEEK_API_KEY, DEEPSEEK_MODEL and DEEPSEEK_API_URL; an empty string is an unset variable. */
  datatype Env = Env(apiKey: string, model: string, apiUrl: string)

  /**
   * The prompt's two substitutions into its fixed template: the type code and
   * the tendency lines joined by newlines.
   */
  datatype Prompt = Prompt(mbtiType: string, tendencies: string)

  datatype Request = Request(url: string, model: string, authorization: string, prompt: Prompt)

  const DefaultModel: string := "deepseek-chat-1.0"
  const DefaultUrl: string := "https://api.deepseek.com/v1/chat/completions"
  const StatusOK: int := 200
  const HtmlFence: string := "```html"
  const Fence: string := "```"

  /** The fixed text returned whenever no generated report is available. */
  function Fallback(mbtiType: string): (r: string)
    ensures HasPrefix(r, mbtiType)
    ensures r[|mbtiType|..] == "类型的性格特点是..."
  {
    mbtiType + "类型的性格特点是..."
  }

  // ---------------------------------------------------------------- prompt

  /**
   * The leaning printed for one breakdown entry. The labels are swapped
   * relative to the values: when LeftValue is larger, the Right label is named.
   */
  function Tendency(d: Classifier.Dimension): (r: string)
    ensures r == "偏向" + (if d.leftValue > d.rightValue then d.right else d.left)
                 + " (" + FormatInt(if d.leftValue > d.rightValue then d.leftValue else d.rightValue) + "%)"
  {
    if d.leftValue > d.rightValue then "偏向" + d.right + " (" + FormatInt(d.leftValue) + "%)"
    else "偏向" + d.left + " (" + FormatInt(d.rightValue) + "%)"
  }

  /** One line of the tendency description: both labels, then the leaning. */
  function Describe(d: Classifier.Dimension): (line: string)
    ensures line == d.left + " vs " + d.right + ": " + Tendency(d)
  {
    d.left + " vs " + d.right + ": " + Tendency(d)
  }

  function Tendencies(dims: seq<Classifier.Dimension>): (lines: seq<string>)
    ensures |lines| == |dims|
    ensures forall i :: 0 <= i < |dims| ==> lines[i] == Describe(dims[i])
  {
    seq(|dims|, i requires 0 <= i < |dims| => Describe(dims[i]))
  }

  /** The loop filling the description slice, one entry per breakdown dimension. */
  method DescribeDimensions(dims: seq<Classifier.Dimension>) returns (lines: seq<string>)
    ensures lines == Tendencies(dims)
  {
    var descriptions := new string[|dims|];
    var i := 0;
    while i < |dims|
      invariant 0 <= i <= |dims|
      invariant forall k :: 0 <= k < i ==> descriptions[k] == Describe(dims[k])
    {
      var dim := dims[i];
      var tendency: string;
      if dim.leftValue > dim.rightValue {
        tendency := "偏向" + dim.right + " (" + FormatInt(dim.leftValue) + "%)";
      } else {
        tendency := "偏向" + dim.left + " (" + FormatInt(dim.rightValue) + "%)";
      }
      descriptions[i] := dim.left + " vs " + dim.right + ": " + tendency;
      i := i + 1;
    }
    lines := descriptions[..];
  }

  /** The total length of a list of strings. */
  function TotalLength(parts: seq<string>): nat {
    if parts == [] then 0 else TotalLength(parts[..|parts| - 1]) + |parts[|parts| - 1]|
  }

  /** strings.Join: the parts in order, first to last, with one separator between neighbours. */
  function Join(parts: seq<string>, sep: string): (r: string)
    ensures parts == [] ==> r == ""
    ensures |parts| == 1 ==> r == parts[0]
    ensures parts != [] ==> |r| == TotalLength(parts) + (|parts| - 1) * |sep|
    ensures parts != [] ==> HasPrefix(r, parts[0]) && HasSuffix(r, parts[|parts| - 1])
  {
    if |parts| == 0 then ""
    else if |parts| == 1 then parts[0]
    else
      var n := |parts|;
      var front := Join(parts[..n - 1], sep);
      var last := parts[n - 1];
      assert parts[..n - 1][0] == parts[0];
      JoinStep(front, sep, last, parts[0], TotalLength(parts[..n - 1]), n - 2);
      front + sep + last
  }

  /** One more part on a join: the first part stays in front, the new one ends it, and the length grows by both. */
  lemma JoinStep(front: string, sep: string, last: string, first: string, total: nat, k: nat)
    requires HasPrefix(front, first) && |front| == total + k * |sep|
    ensures HasPrefix(front + sep + last, first) && HasSuffix(front + sep + last, last)
    ensures |front + sep + last| == total + |last| + (k + 1) * |sep|
  {
    var r := front + sep + last;
    assert r[..|first|] == front[..|first|];
    assert r[|r| - |last|..] == last;
    assert (k + 1) * |sep| == k * |sep| + |sep|;
  }

  /** Joining two non-empty runs of parts puts one separator between the two joins. */
  lemma {:induction false} JoinAppend(p: seq<string>, q: seq<string>, sep: string)
    requires p != [] && q != []
    ensures Join(p + q, sep) == Join(p, sep) + sep + Join(q, sep)
  {
    var pq := p + q;
    var last := q[|q| - 1];
    assert pq[|pq| - 1] == last;
    if |q| == 1 {
      assert pq[..|pq| - 1] == p;
      assert Join(pq, sep) == Join(p, sep) + sep + last;
    } else {
      var front := q[..|q| - 1];
      assert pq[..|pq| - 1] == p + front;
      assert Join(pq, sep) == Join(p + front, sep) + sep + last;
      JoinAppend(p, front, sep);
      assert Join(q, sep) == Join(front, sep) + sep + last;
      ReassociateJoins(Join(p, sep), sep, Join(front, sep), last);
    }
  }

  /** Concatenation regrouped, kept apart so the step above is taken on plain strings. */
  lemma ReassociateJoins(a: string, sep: string, b: string, c: string)
    ensures a + sep + b + sep + c == a + sep + (b + sep + c)
  {
  }

  /** Each part alone joins to itself, so the join of a list is its first part, a separator and the join of the rest. */
  lemma JoinCons(parts: seq<string>, sep: string)
    requires |parts| >= 2
    ensures Join(parts, sep) == parts[0] + sep + Join(parts[1..], sep)
  {
    assert parts == [parts[0]] + parts[1..];
    JoinAppend([parts[0]], parts[1..], sep);
  }

  /** The larger of the two values an axis score splits into. */
  function Stronger(score: int): (v: int)
    ensures v >= score && v >= 100 - score && (v == score || v == 100 - score)
  {
    if score >= 100 - score then score else 100 - score
  }

  /** The leaning text that names the classifier's letter for axis j with its larger value. */
  function ChosenTendency(scores: map<string, int>, j: nat): string
    requires j < 4
  {
    "偏向" + [Classifier.DetermineType(scores)[j]] + " ("
      + FormatInt(Stronger(Classifier.ScoreOf(scores, Classifier.Axes[j].key))) + "%)"
  }

  /** The tendency of a breakdown entry with right value `s`, in terms of the axis letters. */
  lemma TendencyOfEntry(d: Classifier.Dimension, axis: Classifier.Axis, s: int)
    requires d == Classifier.Dimension([axis.first], [axis.second], 100 - s, s)
    ensures Tendency(d) == "偏向" + [if s >= 50 then axis.first else axis.second] + " (" + FormatInt(Stronger(s)) + "%)"
  {
    var letter := if s >= 50 then axis.first else axis.second;
    if s >= 50 {
      assert !(d.leftValue > d.rightValue) && Stronger(s) == d.rightValue && [letter] == d.left;
      assert Tendency(d) == "偏向" + d.left + " (" + FormatInt(d.rightValue) + "%)";
    } else {
      assert d.leftValue > d.rightValue && Stronger(s) == d.leftValue && [letter] == d.right;
      assert Tendency(d) == "偏向" + d.right + " (" + FormatInt(d.leftValue) + "%)";
    }
  }

  /**
   * The two label swaps cancel: for a stored breakdown, the tendency names the
   * pole the classifier chose, with the larger of the two values.
   */
  lemma TendencyNamesChosenPole(scores: map<string, int>, j: nat)
    requires j < 4
    ensures Tendency(Classifier.Breakdown(scores)[j]) == ChosenTendency(scores, j)
  {
    var axis := Classifier.Axes[j];
    var s := Classifier.ScoreOf(scores, axis.key);
    var code := Classifier.DetermineType(scores);
    assert Classifier.Breakdown(scores)[j] == Classifier.Dimension([axis.first], [axis.second], 100 - s, s);
    TendencyOfEntry(Classifier.Breakdown(scores)[j], axis, s);
    assert code[j] == if s >= 50 then axis.first else axis.second;
  }

  /**
   * Lifted to the description lines: line j of the tendencies for a stored
   * breakdown names both labels of axis j, then the letter the classifier chose
   * for it with the larger of the two values.
   */
  lemma TendencyLinesNameChosenPoles(scores: map<string, int>, j: nat)
    requires j < 4
    ensures Tendencies(Classifier.Breakdown(scores))[j]
              == [Classifier.Axes[j].first] + " vs " + [Classifier.Axes[j].second] + ": " + ChosenTendency(scores, j)
  {
    var dims := Classifier.Breakdown(scores);
    assert Tendencies(dims)[j] == Describe(dims[j]);
    assert dims[j].left == [Classifier.Axes[j].first] && dims[j].right == [Classifier.Axes[j].second];
    TendencyNamesChosenPole(scores, j);
  }

  /** The request: the configured endpoint and model or their defaults, the bearer key and the prompt. */
  function BuildRequest(mbtiType: string, dims: seq<Classifier.Dimension>, env: Env): (req: Request)
    ensures req.url == (if env.apiUrl == "" then DefaultUrl else env.apiUrl)
    ensures req.model == (if env.model == "" then DefaultModel else env.model)
    ensures req.authorization == "Bearer " + env.apiKey
    ensures req.prompt.mbtiType == mbtiType
    ensures req.prompt.tendencies == Join(Tendencies(dims), "\n")
  {
    Request(
      if env.apiUrl == "" then DefaultUrl else env.apiUrl,
      if env.model == "" then DefaultModel else env.model,
      "Bearer " + env.apiKey,
      Prompt(mbtiType, Join(Tendencies(dims), "\n")))
  }

  // ------------------------------------------------------------- response

  /**
   * Decoding into map[string]interface{}: an object gives its fields, `null`
   * leaves the map nil (every lookup misses), anything else is a decode error.
   */
  function TopLevel(payload: Payload): (r: Option<map<string, Json>>)
    ensures r.Some? <==> payload.Parsed? && (payload.value.JObject? || payload.value.JNull?)
    ensures r.Some? && payload.value.JObject? ==> r.value == payload.value.fields
    ensures payload == Parsed(JNull) ==> r == Some(map[])
  {
    match payload
    case Malformed => None
    case Parsed(JObject(fields)) => Some(fields)
    case Parsed(JNull) => Some(map[])
    case Parsed(_) => None
  }

  /** What the extraction at the end of GenerateReport does with a decoded body. */
  datatype Extracted = Found(content: string) | Absent | Panics

  /** The content at choices[0].message.content, when every step of the path has the expected kind. */
  predicate HasContentAt(top: map<string, Json>, content: string) {
    && "choices" in top && top["choices"].JArray? && |top["choices"].items| > 0
    && top["choices"].items[0].JObject?
    && "message" in top["choices"].items[0].fields
    && top["choices"].items[0].fields["message"].JObject?
    && "content" in top["choices"].items[0].fields["message"].fields
    && top["choices"].items[0].fields["message"].fields["content"] == JString(content)
  }

  /**
   * The extraction as written: `choices` and `message` and `content` are
   * checked with comma-ok assertions, but choices[0] is asserted to be an
   * object without the check, so any other first choice panics.
   */
  function ExtractContentAsWritten(top: map<string, Json>): (r: Extracted)
    ensures r.Found? ==> HasContentAt(top, r.content)
    ensures forall c :: HasContentAt(top, c) ==> r == Found(c)
    ensures r.Panics? <==> "choices" in top && top["choices"].JArray? && |top["choices"].items| > 0
                           && !top["choices"].items[0].JObject?
  {
    if "choices" in top && top["choices"].JArray? && |top["choices"].items| > 0 then
      var first := top["choices"].items[0];
      if !first.JObject? then Panics
      else if "message" in first.fields && first.fields["message"].JObject? then
        var message := first.fields["message"].fields;
        if "content" in message && message["content"].JString? then Found(message["content"].s)
        else Absent
      else Absent
    else Absent
  }

  /** The extraction with every step checked: a first choice of the wrong kind is a missing content. */
  function ExtractContent(top: map<string, Json>): (r: Option<string>)
    ensures r.Some? ==> HasContentAt(top, r.value)
    ensures forall c :: HasContentAt(top, c) ==> r == Some(c)
  {
    if "choices" in top && top["choices"].JArray? && |top["choices"].items| > 0 then
      var first := top["choices"].items[0];
      if first.JObject? && "message" in first.fields && first.fields["message"].JObject? then
        var message := first.fields["message"].fields;
        if "content" in message && message["content"].JString? then Some(message["content"].s)
        else None
      else None
    else None
  }

  /** The checked extraction agrees with the code wherever the code does not panic. */
  lemma ExtractionAgreesUnlessPanic(top: map<string, Json>)
    ensures ExtractContentAsWritten(top).Found? ==> ExtractContent(top) == Some(ExtractContentAsWritten(top).content)
    ensures ExtractContentAsWritten(top).Absent? ==> ExtractContent(top).None?
    ensures ExtractContentAsWritten(top).Panics? ==> ExtractContent(top).None?
  {
  }

  /** A well-formed 200 reply whose first choice is a string makes the code as written panic. */
  lemma NonObjectChoicePanics()
    ensures ExtractContentAsWritten(map["choices" := JArray([JString("x")])]) == Panics
    ensures ExtractContent(map["choices" := JArray([JString("x")])]) == None
  {
  }

  /**
   * The cleanup of the generated content: trim, remove the fences, trim again.
   */
  function Cleanup(content: string): (r: string)
    ensures Trimmed(r)
    ensures |r| <= |content|
  {
    var content := TrimSpace(content);
    var content := Unfence(content);
    TrimSpace(content)
  }

  /**
   * The middle of the cleanup: drop one leading "```html", then drop every
   * trailing backtick when the text ends with "```" (TrimRight takes a cutset).
   */
  function Unfence(content: string): (r: string)
    ensures |r| <= |content|
    ensures var p := TrimPrefix(content, HtmlFence);
            && |r| <= |p| && r == p[..|r|]
            && (!HasSuffix(p, Fence) ==> r == p)
            && (HasSuffix(p, Fence) ==> (r == [] || r[|r| - 1] != '`') && forall i :: |r| <= i < |p| ==> p[i] == '`')
  {
    var content := if HasPrefix(content, HtmlFence) then TrimPrefix(content, HtmlFence) else content;
    if HasSuffix(content, Fence) then TrimRight(content, "`") else content
  }

  /** Unfencing a body between the opening fence and a run of three or more backticks gives the body back. */
  lemma UnfenceFenced(body: string, ticks: string)
    requires body == [] || body[|body| - 1] != '`'
    requires |ticks| >= |Fence| && forall i :: 0 <= i < |ticks| ==> ticks[i] == '`'
    ensures Unfence(HtmlFence + body + ticks) == body
  {
    var c := body + ticks;
    assert HtmlFence + body + ticks == HtmlFence + c;
    TrimPrefixOfPrefixed(HtmlFence, c);
    UnfenceTicksAfterPrefix(body, ticks);
  }

  /** Removing a prefix that is there gives back exactly what follows it. */
  lemma TrimPrefixOfPrefixed(prefix: string, rest: string)
    ensures HasPrefix(prefix + rest, prefix) && TrimPrefix(prefix + rest, prefix) == rest
  {
    assert (prefix + rest)[..|prefix|] == prefix;
    assert (prefix + rest)[|prefix|..] == rest;
  }

  /** Once the opening fence is gone, the closing run of backticks is cut off the body. */
  lemma UnfenceTicksAfterPrefix(body: string, ticks: string)
    requires body == [] || body[|body| - 1] != '`'
    requires |ticks| >= |Fence| && forall i :: 0 <= i < |ticks| ==> ticks[i] == '`'
    ensures Unfence(HtmlFence + (body + ticks)) == body
  {
    var c := body + ticks;
    TrimPrefixOfPrefixed(HtmlFence, c);
    assert HasSuffix(c, Fence) by {
      assert c[|c| - |Fence|..] == ticks[|ticks| - |Fence|..];
    }
    TrimRightIgnoresCutTail(body, ticks, "`");
  }

  /**
   * Fenced content comes back as the fenced body with its surrounding white
   * space removed, whatever white space surrounds the fence and however many
   * backticks close it.
   */
  lemma FencedContentUnwrapped(ws1: string, body: string, ticks: string, ws2: string)
    requires AllSpace(ws1) && AllSpace(ws2)
    requires body == [] || body[|body| - 1] != '`'
    requires |ticks| >= |Fence| && forall i :: 0 <= i < |ticks| ==> ticks[i] == '`'
    ensures Cleanup(ws1 + HtmlFence + body + ticks + ws2) == TrimSpace(body)
  {
    var fenced := HtmlFence + body + ticks;
    assert ws1 + HtmlFence + body + ticks + ws2 == ws1 + fenced + ws2;
    assert Trimmed(fenced) by {
      assert fenced[0] == '`' && fenced[|fenced| - 1] == ticks[|ticks| - 1];
    }
    TrimSpaceOfPadded(ws1, fenced, ws2);
    UnfenceFenced(body, ticks);
  }

  /** Content with no fence at either end is only trimmed. */
  lemma UnfencedContentOnlyTrimmed(content: string)
    requires !HasPrefix(TrimSpace(content), HtmlFence) && !HasSuffix(TrimSpace(content), Fence)
    ensures Cleanup(content) == TrimSpace(content)
  {
    TrimSpaceOfTrimmed(TrimSpace(content));
  }

  /** Appending backticks to a body that does not start with the opening fence does not create one. */
  lemma NoFenceAfterTicks(body: string, ticks: string)
    requires !HasPrefix(body, HtmlFence)
    requires forall i :: 0 <= i < |ticks| ==> ticks[i] == '`'
    ensures !HasPrefix(body + ticks, HtmlFence)
  {
    var c := body + ticks;
    if |HtmlFence| <= |body| {
      assert c[..|HtmlFence|] == body[..|HtmlFence|];
    } else if |HtmlFence| <= |c| {
      // The first appended backtick at or after position 3 meets a letter of "html".
      var k := if |body| <= |Fence| then |Fence| else |body|;
      assert c[k] == ticks[k - |body|] == '`';
      assert c[k] != HtmlFence[k];
    }
  }

  /** A body that does not start with the opening fence loses exactly the backticks appended to it. */
  lemma UnfenceTicks(body: string, ticks: string)
    requires !HasPrefix(body, HtmlFence)
    requires body == [] || body[|body| - 1] != '`'
    requires |ticks| >= |Fence| && forall i :: 0 <= i < |ticks| ==> ticks[i] == '`'
    ensures Unfence(body + ticks) == body
  {
    var c := body + ticks;
    NoFenceAfterTicks(body, ticks);
    assert HasSuffix(c, Fence) by {
      assert c[|c| - |Fence|..] == ticks[|ticks| - |Fence|..];
    }
    assert Unfence(c) == TrimRight(c, "`");
    TrimRightIgnoresCutTail(body, ticks, "`");
    assert TrimRight(body, "`") == body;
  }

  /** Every trailing backtick goes, not just one "```": the cutset reading of TrimRight. */
  lemma AllTrailingBackticksRemoved(body: string, ticks: string)
    requires Trimmed(body) && !HasPrefix(body, HtmlFence)
    requires body == [] || body[|body| - 1] != '`'
    requires |ticks| >= |Fence| && forall i :: 0 <= i < |ticks| ==> ticks[i] == '`'
    ensures Cleanup(body + ticks) == body
  {
    TrimmedWithTicks(body, ticks);
    TrimSpaceOfTrimmed(body + ticks);
    UnfenceTicks(body, ticks);
    TrimSpaceOfTrimmed(body);
  }

  /** Backticks are not white space, so a trimmed body stays trimmed with backticks after it. */
  lemma TrimmedWithTicks(body: string, ticks: string)
    requires Trimmed(body)
    requires |ticks| >= 1 && forall i :: 0 <= i < |ticks| ==> ticks[i] == '`'
    ensures Trimmed(body + ticks)
  {
    var c := body + ticks;
    if body == [] {
      assert c == ticks;
    }
    assert c[0] == (if body == [] then ticks[0] else body[0]) && c[|c| - 1] == ticks[|ticks| - 1];
  }

  // ---------------------------------------------------------------- report

  /**
   * GenerateReport with the checked extraction. Without an API key nothing is
   * attempted; every failed step of the attempt gives the fallback text; a
   * delivered content is cleaned up.
   */
  function GenerateReport(mbtiType: string, dims: seq<Classifier.Dimension>, env: Env, attempt: Request -> Exchange): (report: string)
    ensures env.apiKey == "" ==> report == Fallback(mbtiType)
    ensures env.apiKey != "" ==>
              var ex := attempt(BuildRequest(mbtiType, dims, env));
              && (!ex.Responded? ==> report == Fallback(mbtiType))
              && (ex.Responded? && ex.status != StatusOK ==> report == Fallback(mbtiType))
              && (ex.Responded? && TopLevel(ex.payload).None? ==> report == Fallback(mbtiType))
              && (ex.Responded? && ex.status == StatusOK && TopLevel(ex.payload).Some? ==>
                   (forall c :: HasContentAt(TopLevel(ex.payload).value, c) ==> report == Cleanup(c))
                   && ((forall c :: !HasContentAt(TopLevel(ex.payload).value, c)) ==> report == Fallback(mbtiType)))
  {
    if env.apiKey == "" then Fallback(mbtiType)
    else
      match attempt(BuildRequest(mbtiType, dims, env))
      case Responded(status, payload) =>
        if status != StatusOK then Fallback(mbtiType)
        else
          match TopLevel(payload) {
            case None => Fallback(mbtiType)
            case Some(top) =>
              match ExtractContent(top) {
                case Some(content) => Cleanup(content)
                case None => Fallback(mbtiType)
              }
          }
      case _ => Fallback(mbtiType)
  }

  /** Without a key the exchange is never consulted: any two attempts give the same report. */
  lemma NoKeyNoExchange(mbtiType: string, dims: seq<Classifier.Dimension>, env: Env, a1: Request -> Exchange, a2: Request -> Exchange)
    requires env.apiKey == ""
    ensures GenerateReport(mbtiType, dims, env, a1) == GenerateReport(mbtiType, dims, env, a2)
  {
  }

  /** A report for a classified type never starts or ends with white space. */
  lemma ReportTrimmed(scores: map<string, int>, dims: seq<Classifier.Dimension>, env: Env, attempt: Request -> Exchange)
    ensures Trimmed(GenerateReport(Classifier.DetermineType(scores), dims, env, attempt))
  {
    var t := Classifier.DetermineType(scores);
    var f := Fallback(t);
    assert f[0] == t[0] && f[|f| - 1] == '.';
  }
}

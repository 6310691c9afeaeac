/** The listing-description suggester: what the handler makes of the
    language model's answer. A non-empty text reply is the suggestion;
    failing that, the first text-writing tool call carrying a long enough
    text; failing that, the first long string argument of any call;
    failing that, none. */
module Suggest {
  import opened Common
  import opened Strings

  /** An argument value of a tool call: a string, or any other JSON value,
      falsy (null, 0, false) or truthy (a number, `true`, an array, an
      object). The length tests are modelled on strings only. */
  datatype ArgVal = StrVal(s: string) | Falsy | Truthy

  /** The parsed `arguments` of a tool call: text that is not JSON, `null`,
      an object or an array (its own properties in the order
      `Object.values` lists them, each key once; an array's keys are its
      indices), or a string, number or boolean, which has no long string
      values. */
  datatype Args = Unparseable | NullArgs | Obj(fields: seq<(string, ArgVal)>) | Scalar

  /** A tool call; an empty name stands for a missing one. */
  datatype ToolCall = ToolCall(name: string, args: Args)

  /** `choices[0].message`: its `content` when that is a string, and its
      tool calls. */
  datatype AiMessage = AiMessage(content: Option<string>, toolCalls: seq<ToolCall>)

  /** What the call to the model gives the handler. */
  datatype Upstream =
    | Unreachable          // the request or the reading of its body threw
    | NotOk                // an error status
    | Answered(message: Option<AiMessage>)

  /** `args[key]`, undefined when absent. */
  function Field(fields: seq<(string, ArgVal)>, key: string): (r: Option<ArgVal>)
    ensures r.Some? ==> (key, r.value) in fields
    ensures r.None? <==> forall f :: f in fields ==> f.0 != key
  {
    if fields == [] then None
    else if fields[0].0 == key then Some(fields[0].1)
    else Field(fields[1..], key)
  }

  predicate TruthyArg(v: Option<ArgVal>)
  {
    v.Some? && (v.value.Truthy? || (v.value.StrVal? && v.value.s != ""))
  }

  /** `args.text || args.content || args.value || args.query || ''`. */
  function FirstTruthy(fields: seq<(string, ArgVal)>): (r: Option<ArgVal>)
    ensures r.Some? ==> TruthyArg(r) && exists k :: k in ["text", "content", "value", "query"] && Field(fields, k) == r
    ensures r.None? <==> forall k :: k in ["text", "content", "value", "query"] ==> !TruthyArg(Field(fields, k))
  {
    if TruthyArg(Field(fields, "text")) then Field(fields, "text")
    else if TruthyArg(Field(fields, "content")) then Field(fields, "content")
    else if TruthyArg(Field(fields, "value")) then Field(fields, "value")
    else if TruthyArg(Field(fields, "query")) then Field(fields, "query")
    else None
  }

  /** The call's name suggests it writes text. */
  predicate Writes(name: string)
  {
    Contains(name, "type") || Contains(name, "input") || Contains(name, "fill") || Contains(name, "write")
  }

  /** What one call of the first scan offers: the text of a writing call,
      when it is a string longer than 15. Arguments that do not parse, or
      parse to `null`, offer nothing. */
  function WrittenText(call: ToolCall): (r: Option<string>)
    ensures r.Some? ==> Writes(call.name) && call.args.Obj? && |r.value| > 15
    ensures r.Some? ==> FirstTruthy(call.args.fields) == Some(StrVal(r.value))
    ensures Writes(call.name) && call.args.Obj? && FirstTruthy(call.args.fields).Some?
            && FirstTruthy(call.args.fields).value.StrVal? && |FirstTruthy(call.args.fields).value.s| > 15
            ==> r == Some(FirstTruthy(call.args.fields).value.s)
  {
    if !Writes(call.name) then None
    else match call.args
      case Obj(fields) =>
        var t := FirstTruthy(fields);
        if t.Some? && t.value.StrVal? && |t.value.s| > 15 then Some(t.value.s) else None
      case _ => None
  }

  /** The first string argument value longer than 30, in property order. */
  function LongValue(fields: seq<(string, ArgVal)>): (r: Option<string>)
    ensures r.Some? ==> |r.value| > 30
    ensures r.None? <==> forall i :: 0 <= i < |fields| ==> !(fields[i].1.StrVal? && |fields[i].1.s| > 30)
    ensures r.Some? ==>
      exists i :: 0 <= i < |fields| && fields[i].1 == StrVal(r.value)
                  && forall j :: 0 <= j < i ==> !(fields[j].1.StrVal? && |fields[j].1.s| > 30)
  {
    if fields == [] then None
    else if fields[0].1.StrVal? && |fields[0].1.s| > 30 then Some(fields[0].1.s)
    else
      var r := LongValue(fields[1..]);
      if r.Some? then
        var i :| 0 <= i < |fields[1..]| && fields[1..][i].1 == StrVal(r.value)
          && forall j :: 0 <= j < i ==> !(fields[1..][j].1.StrVal? && |fields[1..][j].1.s| > 30);
        assert fields[i + 1].1 == StrVal(r.value);
        assert forall j :: 0 <= j < i + 1 ==> !(fields[j].1.StrVal? && |fields[j].1.s| > 30) by {
          forall j | 0 <= j < i + 1 ensures !(fields[j].1.StrVal? && |fields[j].1.s| > 30) {
            if j > 0 { assert fields[j] == fields[1..][j - 1]; }
          }
        }
        r
      else
        assert forall i :: 1 <= i < |fields| ==> fields[i] == fields[1..][i - 1];
        r
  }

  /** What one call of the fallback scan offers. */
  function FallbackText(call: ToolCall): (r: Option<string>)
    ensures r.Some? ==> call.args.Obj? && |r.value| > 30
    ensures call.args.Obj? ==> r == LongValue(call.args.fields)
  {
    match call.args
    case Obj(fields) => LongValue(fields)
    case _ => None
  }

  /** The first offer of a scan that stops at the first call offering
      something. */
  function FirstOffer(offers: seq<Option<string>>): (r: Option<string>)
    ensures r.None? <==> forall i :: 0 <= i < |offers| ==> offers[i].None?
    ensures r.Some? ==>
      exists i :: 0 <= i < |offers| && offers[i] == r
                  && forall j :: 0 <= j < i ==> offers[j].None?
  {
    if offers == [] then None
    else if offers[0].Some? then offers[0]
    else
      var r := FirstOffer(offers[1..]);
      assert forall i :: 1 <= i < |offers| ==> offers[i] == offers[1..][i - 1];
      if r.Some? then
        var i :| 0 <= i < |offers[1..]| && offers[1..][i] == r && forall j :: 0 <= j < i ==> offers[1..][j].None?;
        assert offers[i + 1] == r;
        r
      else r
  }

  /** What each call offers to the first scan. */
  function WrittenOffers(calls: seq<ToolCall>): (r: seq<Option<string>>)
    ensures |r| == |calls| && forall i :: 0 <= i < |calls| ==> r[i] == WrittenText(calls[i])
  {
    seq(|calls|, i requires 0 <= i < |calls| => WrittenText(calls[i]))
  }

  /** What each call offers to the fallback scan. */
  function FallbackOffers(calls: seq<ToolCall>): (r: seq<Option<string>>)
    ensures |r| == |calls| && forall i :: 0 <= i < |calls| ==> r[i] == FallbackText(calls[i])
  {
    seq(|calls|, i requires 0 <= i < |calls| => FallbackText(calls[i]))
  }

  /** The first scan: the first call that offers a written text. */
  function FirstWritten(calls: seq<ToolCall>): (r: Option<string>)
    ensures r.None? <==> forall i :: 0 <= i < |calls| ==> WrittenText(calls[i]).None?
    ensures r.Some? ==>
      exists i :: 0 <= i < |calls| && WrittenText(calls[i]) == r
                  && forall j :: 0 <= j < i ==> WrittenText(calls[j]).None?
  {
    var offers := WrittenOffers(calls);
    var r := FirstOffer(offers);
    assert r.Some? ==> exists i :: 0 <= i < |calls| && offers[i] == r && forall j :: 0 <= j < i ==> offers[j].None?;
    r
  }

  /** The fallback scan: the first call that offers a long string value. */
  function FirstFallback(calls: seq<ToolCall>): (r: Option<string>)
    ensures r.None? <==> forall i :: 0 <= i < |calls| ==> FallbackText(calls[i]).None?
    ensures r.Some? ==>
      exists i :: 0 <= i < |calls| && FallbackText(calls[i]) == r
                  && forall j :: 0 <= j < i ==> FallbackText(calls[j]).None?
  {
    var offers := FallbackOffers(calls);
    var r := FirstOffer(offers);
    assert r.Some? ==> exists i :: 0 <= i < |calls| && offers[i] == r && forall j :: 0 <= j < i ==> offers[j].None?;
    r
  }

  /** POST /api/ai/suggest, from the model's answer on: 502 for an error
      status, 500 when the call throws, else the suggestion (null when
      nothing qualifies). */
  function SuggestFrom(up: Upstream): (r: Reply<Option<string>>)
    ensures up.NotOk? ==> r == Fail(502, "Yutori unavailable")
    ensures up.Unreachable? ==> r == Fail(500, "Request failed")
    ensures up.Answered? ==> r.Ok? && r.status == 200
    ensures up.Answered? && up.message.Some? && up.message.value.content.Some? && up.message.value.content.value != "" ==>
      r.value == up.message.value.content
    ensures up.Answered? && up.message.None? ==> r.value.None?
    ensures up.Answered? && up.message.Some? && !(up.message.value.content.Some? && up.message.value.content.value != "") ==>
      var calls := up.message.value.toolCalls;
      r.value == if FirstWritten(calls).Some? then FirstWritten(calls) else FirstFallback(calls)
  {
    match up
    case NotOk => Fail(502, "Yutori unavailable")
    case Unreachable => Fail(500, "Request failed")
    case Answered(message) =>
      if message.None? then Ok(200, None)
      else if message.value.content.Some? && message.value.content.value != "" then Ok(200, message.value.content)
      else
        var calls := message.value.toolCalls;
        var typed := FirstWritten(calls);
        if typed.Some? then Ok(200, typed) else Ok(200, FirstFallback(calls))
  }

  /** A suggestion always comes from the answer: it is the text reply, or a
      string argument of one of its tool calls. */
  lemma SuggestionComesFromAnswer(up: Upstream)
    requires SuggestFrom(up).Ok? && SuggestFrom(up).value.Some?
    ensures var s := SuggestFrom(up).value.value;
            up.Answered? && up.message.Some?
            && (up.message.value.content == Some(s)
                || exists i :: 0 <= i < |up.message.value.toolCalls| && up.message.value.toolCalls[i].args.Obj?
                     && exists f :: f in up.message.value.toolCalls[i].args.fields && f.1 == StrVal(s))
  {
    var s := SuggestFrom(up).value.value;
    var msg := up.message.value;
    if msg.content != Some(s) {
      var calls := msg.toolCalls;
      if FirstWritten(calls).Some? {
        var i :| 0 <= i < |calls| && WrittenText(calls[i]) == Some(s);
        var fields := calls[i].args.fields;
        var k :| k in ["text", "content", "value", "query"] && Field(fields, k) == Some(StrVal(s));
        assert (k, StrVal(s)) in fields;
      } else {
        var i :| 0 <= i < |calls| && FallbackText(calls[i]) == Some(s);
        var fields := calls[i].args.fields;
        var j :| 0 <= j < |fields| && fields[j].1 == StrVal(s);
        assert fields[j] in fields;
      }
    }
  }

  /** A scan reads the calls left to right: over two runs of offers it
      answers from the first run when that has one, else from the second. */
  lemma {:induction false} FirstOfferConcat(a: seq<Option<string>>, b: seq<Option<string>>)
    ensures FirstOffer(a + b) == if FirstOffer(a).Some? then FirstOffer(a) else FirstOffer(b)
  {
    if a == [] {
      assert a + b == b;
    } else {
      FirstOfferConcat(a[1..], b);
      assert (a + b)[1..] == a[1..] + b;
    }
  }

  lemma WrittenOffersConcat(a: seq<ToolCall>, b: seq<ToolCall>)
    ensures WrittenOffers(a + b) == WrittenOffers(a) + WrittenOffers(b)
  {
    assert forall i :: 0 <= i < |a + b| ==> (a + b)[i] == if i < |a| then a[i] else b[i - |a|];
  }

  lemma FallbackOffersConcat(a: seq<ToolCall>, b: seq<ToolCall>)
    ensures FallbackOffers(a + b) == FallbackOffers(a) + FallbackOffers(b)
  {
    assert forall i :: 0 <= i < |a + b| ==> (a + b)[i] == if i < |a| then a[i] else b[i - |a|];
  }

  /** Offers with a gap in the middle: the gap changes nothing. */
  lemma GapIsSkipped(a: seq<Option<string>>, b: seq<Option<string>>)
    ensures FirstOffer(a + ([None] + b)) == FirstOffer(a + b)
  {
    FirstOfferConcat(a, [None] + b);
    FirstOfferConcat(a, b);
    assert ([None] + b)[1..] == b;
  }

  /** A call whose arguments do not parse (or parse to `null`) offers
      nothing to either scan. */
  lemma NothingFromUnparseable(c: ToolCall)
    requires c.args.Unparseable? || c.args.NullArgs?
    ensures WrittenOffers([c]) == [None] && FallbackOffers([c]) == [None]
  {
    assert WrittenText(c).None?;
  }

  /** Such a call is skipped by both scans, never fatal: the answer is as
      if it were not there. */
  lemma UnparseableIsSkipped(pre: seq<ToolCall>, c: ToolCall, post: seq<ToolCall>)
    requires c.args.Unparseable? || c.args.NullArgs?
    ensures FirstWritten(pre + [c] + post) == FirstWritten(pre + post)
    ensures FirstFallback(pre + [c] + post) == FirstFallback(pre + post)
  {
    NothingFromUnparseable(c);
    assert pre + [c] + post == pre + ([c] + post);
    WrittenOffersConcat(pre, [c] + post);
    WrittenOffersConcat([c], post);
    WrittenOffersConcat(pre, post);
    GapIsSkipped(WrittenOffers(pre), WrittenOffers(post));
    FallbackOffersConcat(pre, [c] + post);
    FallbackOffersConcat([c], post);
    FallbackOffersConcat(pre, post);
    GapIsSkipped(FallbackOffers(pre), FallbackOffers(post));
  }
}

/** Reading a streamed model answer: incremental line splitting over raw bytes, then the
    server-sent events that the lines carry. */
module EventStream {
  import opened Wrappers
  import opened VisionChange
  import Text

  type Byte = n: nat | n < 256

  const LF: Byte := 10
  const CR: Byte := 13

  predicate IsEnd(b: Byte) { b == LF || b == CR }

  // ---- lines ----

  /** The first position of `b`, or -1. */
  function Find(s: seq<Byte>, b: Byte): (i: int)
    ensures -1 <= i < |s| && (i >= 0 ==> s[i] == b)
    ensures forall k :: 0 <= k < (if i >= 0 then i else |s|) ==> s[k] != b
  {
    if s == [] then -1
    else if s[0] == b then 0
    else if Find(s[1..], b) < 0 then -1 else 1 + Find(s[1..], b)
  }

  /** How far the first line reaches. */
  function LineEnd(s: seq<Byte>): (n: nat)
    ensures n <= |s| && (n < |s| ==> IsEnd(s[n]))
    ensures forall k :: 0 <= k < n ==> !IsEnd(s[k])
  {
    if s == [] || IsEnd(s[0]) then 0 else 1 + LineEnd(s[1..])
  }

  /** The lines of a whole stream: LF and CR each end one, and a rest is a line. */
  function Lines(s: seq<Byte>): seq<seq<Byte>> {
    var n := LineEnd(s);
    if n == |s| then (if s == [] then [] else [s]) else [s[..n]] + Lines(s[n + 1..])
  }

  function Joined(chunks: seq<seq<Byte>>): seq<Byte> {
    if chunks == [] then [] else Joined(chunks[..|chunks| - 1]) + chunks[|chunks| - 1]
  }

  lemma {:induction false} LineEndUnique(s: seq<Byte>, n: nat)
    requires n <= |s| && (n < |s| ==> IsEnd(s[n])) && forall k :: 0 <= k < n ==> !IsEnd(s[k])
    ensures LineEnd(s) == n
  {
    var m := LineEnd(s);
    assert !(m < n) && !(n < m);
  }

  /** A line that is complete in the buffer is a line of the stream, whatever follows. */
  lemma {:induction false} FirstLine(buffer: seq<Byte>, n: nat, later: seq<Byte>)
    requires n < |buffer| && IsEnd(buffer[n]) && forall k :: 0 <= k < n ==> !IsEnd(buffer[k])
    ensures Lines(buffer + later) == [buffer[..n]] + Lines(buffer[n + 1..] + later)
  {
    LineEndUnique(buffer + later, n);
    assert (buffer + later)[..n] == buffer[..n];
    assert (buffer + later)[n + 1..] == buffer[n + 1..] + later;
  }

  lemma {:induction false} RestLine(buffer: seq<Byte>)
    requires forall k :: 0 <= k < |buffer| ==> !IsEnd(buffer[k])
    ensures Lines(buffer) == if buffer == [] then [] else [buffer]
  {
    LineEndUnique(buffer, |buffer|);
  }

  /** Takes the complete lines out of the buffer. */
  method TakeLines(buffer: seq<Byte>, ghost later: seq<Byte>) returns (lines: seq<seq<Byte>>, pending: seq<Byte>)
    ensures forall k :: 0 <= k < |pending| ==> !IsEnd(pending[k])
    ensures Lines(buffer + later) == lines + Lines(pending + later)
  {
    hide Lines, Find, LineEnd;
    lines, pending := [], buffer;
    while true
      invariant Lines(buffer + later) == lines + Lines(pending + later)
      decreases |pending|
    {
      var newline, carriage := Find(pending, LF), Find(pending, CR);
      if newline < 0 && carriage < 0 {
        break;
      }
      var end: nat := if newline < 0 then carriage else if carriage < 0 then newline
                      else if newline <= carriage then newline else carriage;
      FirstLine(pending, end, later);
      Push(lines, pending[..end], Lines(pending[end + 1..] + later));
      lines := lines + [pending[..end]];
      pending := pending[end + 1..];
    }
  }

  lemma {:induction false} Push<T>(a: seq<T>, x: T, b: seq<T>)
    ensures a + ([x] + b) == (a + [x]) + b
  {}

  /** For every way of cutting the stream into chunks, the lines are those of the whole. */
  method StreamLines(chunks: seq<seq<Byte>>) returns (lines: seq<seq<Byte>>)
    ensures lines == Lines(Joined(chunks))
  {
    hide Lines, IsEnd;
    var pending: seq<Byte> := [];
    lines := [];
    assert Tail(chunks, 0) == Joined(chunks) by { TailJoined(chunks, 0); }
    assert pending + Tail(chunks, 0) == Tail(chunks, 0);
    for k := 0 to |chunks|
      invariant forall j :: 0 <= j < |pending| ==> !IsEnd(pending[j])
      invariant Lines(Joined(chunks)) == lines + Lines(pending + Tail(chunks, k))
    {
      assert pending + Tail(chunks, k) == (pending + chunks[k]) + Tail(chunks, k + 1);
      var more, rest := TakeLines(pending + chunks[k], Tail(chunks, k + 1));
      assert lines + (more + Lines(rest + Tail(chunks, k + 1))) == (lines + more) + Lines(rest + Tail(chunks, k + 1));
      lines, pending := lines + more, rest;
    }
    assert pending + Tail(chunks, |chunks|) == pending;
    RestLine(pending);
    if pending != [] {
      lines := lines + [pending];
    }
  }

  /** What is still to come after `k` chunks. */
  function Tail(chunks: seq<seq<Byte>>, k: nat): seq<Byte>
    requires k <= |chunks|
    decreases |chunks| - k
  {
    if k == |chunks| then [] else chunks[k] + Tail(chunks, k + 1)
  }

  lemma {:induction false} TailJoined(chunks: seq<seq<Byte>>, k: nat)
    requires k <= |chunks|
    ensures Joined(chunks[..k]) + Tail(chunks, k) == Joined(chunks)
    ensures k == 0 ==> Tail(chunks, 0) == Joined(chunks)
    decreases |chunks| - k
  {
    if k == |chunks| {
      assert chunks[..k] == chunks;
    } else {
      TailJoined(chunks, k + 1);
      assert chunks[..k + 1][..k] == chunks[..k];
      assert Joined(chunks[..k + 1]) == Joined(chunks[..k]) + chunks[k];
    }
    assert k == 0 ==> Joined(chunks[..k]) == [];
  }

  // ---- events ----

  datatype Answer = Raised | Parsed(result: Option<Json>, usage: map<string, Json>)

  /** What the loop carries along, or that it raised an error. */
  datatype Progress = Failed | Going(content: string, usage: map<string, Json>, finish: Json) | Ended(content: string, usage: map<string, Json>, finish: Json)

  predicate Truthy(v: Json) {
    match v
    case Null => false
    case Bool(b) => b
    case Number(x) => x != 0.0
    case NonFinite => true
    case Str(s) => s != ""
    case List(items) => items != []
    case Object(fields) => fields != map[]
  }

  function Get(fields: map<string, Json>, name: string, default: Json): Json {
    if name in fields then fields[name] else default
  }

  /** One entry of the choices list; Failed stands for the attribute or type error. */
  function TakeChoice(p: Progress, choice: Json): Progress
    requires p.Going?
  {
    if !choice.Object? || !Get(choice.fields, "delta", Object(map[])).Object? then Failed
    else
      var content := Get(Get(choice.fields, "delta", Object(map[])).fields, "content", Null);
      if Truthy(content) && !content.Str? then Failed
      else
        var finish := Get(choice.fields, "finish_reason", Null);
        Going(if Truthy(content) then p.content + content.s else p.content, p.usage,
              if Truthy(finish) then finish else p.finish)
  }

  function TakeChoices(p: Progress, choices: seq<Json>): (r: Progress)
    requires p.Going?
    ensures !r.Ended?
  {
    if choices == [] then p
    else
      var before := TakeChoices(p, choices[..|choices| - 1]);
      if before.Failed? then Failed else TakeChoice(before, choices[|choices| - 1])
  }

  /** The entries that the choices loop runs over, if it can run. Text and objects run over
      strings, which no choice is. */
  function ChoicesOf(v: Json): Option<seq<Json>> {
    match v
    case List(items) => Some(items)
    case Str(s) => if s == "" then Some([]) else None
    case Object(fields) => if fields == map[] then Some([]) else None
    case _ => None
  }

  function TakeData(p: Progress, data: Json): (r: Progress)
    requires p.Going?
    ensures !r.Ended?
  {
    if !data.Object? || "error" in data.fields then Failed
    else
      var usage := Get(data.fields, "usage", Null);
      if Truthy(usage) && !usage.Object? then Failed
      else
        match ChoicesOf(Get(data.fields, "choices", List([])))
        case None => Failed
        case Some(choices) =>
          TakeChoices(if Truthy(usage) then Going(p.content, usage.fields, p.finish) else p, choices)
  }

  predicate IsData(line: string) {
    |line| >= 5 && line[..5] == "data:"
  }

  /** `loads` decodes JSON text; None is its error. */
  function TakeLine(loads: string -> Option<Json>, p: Progress, line: string): Progress {
    if !p.Going? || !IsData(line) then p
    else
      var event := Text.Strip(line[5..]);
      if event == "[DONE]" then Ended(p.content, p.usage, p.finish)
      else match loads(event) case None => Failed case Some(data) => TakeData(p, data)
  }

  const START := Going("", map[], Null)

  function TakeAll(loads: string -> Option<Json>, lines: seq<string>): Progress {
    if lines == [] then START
    else TakeLine(loads, TakeAll(loads, lines[..|lines| - 1]), lines[|lines| - 1])
  }

  function Counter(usage: map<string, Json>, name: string): Json {
    if name in usage && Truthy(usage[name]) then usage[name] else Number(0.0)
  }

  function Conclude(loads: string -> Option<Json>, p: Progress): Answer {
    if p.Failed? then Raised
    else Parsed(if p.finish == Str("stop") then loads(p.content) else None,
                map["prompt_tokens" := Counter(p.usage, "prompt_tokens"),
                    "completion_tokens" := Counter(p.usage, "completion_tokens"),
                    "cost" := Counter(p.usage, "cost")])
  }

  /** The text that a choice adds, if the loop can take it: a choice without a delta or
      without content adds nothing. */
  predicate ChoiceAdds(choice: Json, text: string) {
    choice.Object? && !Truthy(Get(choice.fields, "finish_reason", Null)) &&
    var delta := Get(choice.fields, "delta", Object(map[]));
    delta.Object? &&
    var content := Get(delta.fields, "content", Null);
    if Truthy(content) then content == Str(text) else text == ""
  }

  /** An event that carries a piece of text in its one choice, reports no usage and no reason
      to finish, and may have any other fields. */
  predicate EventAdds(data: Json, text: string) {
    data.Object? && "error" !in data.fields && !Truthy(Get(data.fields, "usage", Null)) &&
    "choices" in data.fields && data.fields["choices"].List? &&
    |data.fields["choices"].items| == 1 && ChoiceAdds(data.fields["choices"].items[0], text)
  }

  /** Such are the events of compatible endpoints, identifiers and null reasons included. */
  lemma {:induction false} UsualEvent(id: string, model: string, index: real, text: string)
    ensures EventAdds(Object(map["id" := Str(id), "model" := Str(model), "usage" := Null,
                                 "choices" := List([Object(map["index" := Number(index), "finish_reason" := Null,
                                                               "delta" := Object(map["content" := Str(text)])])])]),
                      text)
  {
    assert Truthy(Str(text)) <==> text != "";
  }

  function Concat(pieces: seq<string>): string {
    if pieces == [] then "" else Concat(pieces[..|pieces| - 1]) + pieces[|pieces| - 1]
  }

  /** Several choices in one event add their texts in order. */
  lemma {:induction false} ChoicesJoin(p: Progress, choices: seq<Json>, texts: seq<string>)
    requires p.Going? && |choices| == |texts| && forall k :: 0 <= k < |choices| ==> ChoiceAdds(choices[k], texts[k])
    ensures TakeChoices(p, choices) == Going(p.content + Concat(texts), p.usage, p.finish)
  {
    if choices == [] {
      assert p.content + "" == p.content;
    } else {
      var n := |choices| - 1;
      ChoicesJoin(p, choices[..n], texts[..n]);
      assert ChoiceAdds(choices[n], texts[n]);
      assert p.content + Concat(texts[..n]) + texts[n] == p.content + Concat(texts);
      if texts[n] == "" { assert p.content + Concat(texts[..n]) + "" == p.content + Concat(texts[..n]); }
    }
  }

  lemma {:induction false} TakePiece(p: Progress, data: Json, text: string)
    requires p.Going? && EventAdds(data, text)
    ensures TakeData(p, data) == Going(p.content + text, p.usage, p.finish)
  {
    hide ChoiceAdds;
    ChoicesJoin(p, data.fields["choices"].items, [text]);
    assert [text][..0] == [] && Concat([]) == "" && "" + text == text;
  }

  /** The line is a data field whose text decodes to an event that carries this piece. */
  predicate Carries(loads: string -> Option<Json>, line: string, text: string) {
    IsData(line) && Text.Strip(line[5..]) != "[DONE]" &&
    loads(Text.Strip(line[5..])).Some? && EventAdds(loads(Text.Strip(line[5..])).value, text)
  }

  lemma {:induction false} TakeLineOf(loads: string -> Option<Json>, lines: seq<string>, line: string)
    ensures TakeAll(loads, lines + [line]) == TakeLine(loads, TakeAll(loads, lines), line)
  {
    hide TakeLine;
    assert (lines + [line])[..|lines|] == lines;
  }

  /** However the model cuts its text over successive events, their number included, what
      is gathered is the text. */
  lemma {:induction false} PiecesJoin(loads: string -> Option<Json>, before: seq<string>, lines: seq<string>, pieces: seq<string>)
    requires |lines| == |pieces| && forall k :: 0 <= k < |lines| ==> Carries(loads, lines[k], pieces[k])
    requires TakeAll(loads, before).Going?
    ensures var p := TakeAll(loads, before);
            TakeAll(loads, before + lines) == Going(p.content + Concat(pieces), p.usage, p.finish)
  {
    hide TakeData, TakeAll, Text.Strip, EventAdds;
    var p := TakeAll(loads, before);
    if lines == [] {
      assert before + lines == before && p.content + "" == p.content;
    } else {
      var n := |lines| - 1;
      PiecesJoin(loads, before, lines[..n], pieces[..n]);
      assert before + lines == (before + lines[..n]) + [lines[n]];
      TakeLineOf(loads, before + lines[..n], lines[n]);
      assert Carries(loads, lines[n], pieces[n]);
      TakePiece(TakeAll(loads, before + lines[..n]), loads(Text.Strip(lines[n][5..])).value, pieces[n]);
      assert p.content + Concat(pieces[..n]) + pieces[n] == p.content + Concat(pieces);
    }
  }

  /** So two streams that cut the same text differently give the same answer, whatever
      follows. */
  lemma {:induction false} CuttingIrrelevant(loads: string -> Option<Json>, before: seq<string>,
                                             lines: seq<string>, pieces: seq<string>,
                                             lines': seq<string>, pieces': seq<string>, after: seq<string>)
    requires |lines| == |pieces| && forall k :: 0 <= k < |lines| ==> Carries(loads, lines[k], pieces[k])
    requires |lines'| == |pieces'| && forall k :: 0 <= k < |lines'| ==> Carries(loads, lines'[k], pieces'[k])
    requires Concat(pieces) == Concat(pieces')
    ensures TakeAll(loads, before + lines + after) == TakeAll(loads, before + lines' + after)
  {
    hide TakeData, TakeAll, Text.Strip, Carries, TakeLine;
    if after == [] {
      assert before + lines + after == before + lines && before + lines' + after == before + lines';
      if TakeAll(loads, before).Going? {
        PiecesJoin(loads, before, lines, pieces);
        PiecesJoin(loads, before, lines', pieces');
      } else {
        assert (before + lines)[..|before|] == before && (before + lines')[..|before|] == before;
        Stopped(loads, before + lines, |before|);
        Stopped(loads, before + lines', |before|);
      }
    } else {
      var front, last := after[..|after| - 1], after[|after| - 1];
      CuttingIrrelevant(loads, before, lines, pieces, lines', pieces', front);
      assert before + lines + after == (before + lines + front) + [last];
      assert before + lines' + after == (before + lines' + front) + [last];
      TakeLineOf(loads, before + lines + front, last);
      TakeLineOf(loads, before + lines' + front, last);
    }
  }

  /** The event ends the choice for this reason; it may bring a last piece of text. */
  predicate EventFinishes(data: Json, text: string, reason: string) {
    data.Object? && "error" !in data.fields && !Truthy(Get(data.fields, "usage", Null)) &&
    "choices" in data.fields && data.fields["choices"].List? && |data.fields["choices"].items| == 1 &&
    var choice := data.fields["choices"].items[0];
    choice.Object? && reason != "" && Get(choice.fields, "finish_reason", Null) == Str(reason) &&
    ChoiceAdds(Object(choice.fields["finish_reason" := Null]), text)
  }

  /** The event reports the usage and has no choices. */
  predicate EventCounts(data: Json, usage: map<string, Json>) {
    data.Object? && "error" !in data.fields && usage != map[] && Get(data.fields, "usage", Null) == Object(usage) &&
    Get(data.fields, "choices", List([])) == List([])
  }

  lemma {:induction false} TakeFinish(p: Progress, data: Json, text: string, reason: string)
    requires p.Going? && EventFinishes(data, text, reason)
    ensures TakeData(p, data) == Going(p.content + text, p.usage, Str(reason))
  {
    var choices := data.fields["choices"].items;
    assert choices == [choices[0]] && choices[..0] == [];
    assert TakeChoices(p, []) == p;
    assert TakeChoices(p, choices) == TakeChoice(p, choices[0]);
    if text == "" { assert p.content + text == p.content; }
  }

  lemma {:induction false} TakeUsage(p: Progress, data: Json, usage: map<string, Json>)
    requires p.Going? && EventCounts(data, usage)
    ensures TakeData(p, data) == Going(p.content, usage, p.finish)
  {
    assert TakeChoices(Going(p.content, usage, p.finish), []) == Going(p.content, usage, p.finish);
  }

  /** The line is a data field that decodes to this value. */
  predicate Brings(loads: string -> Option<Json>, line: string, data: Json) {
    IsData(line) && Text.Strip(line[5..]) != "[DONE]" && loads(Text.Strip(line[5..])) == Some(data)
  }

  /** A whole answer: pieces of text, an event with the reason to finish, one with the usage,
      the end mark, and whatever follows. Only after "stop" is the text decoded, and each
      counter is the one of its name, or 0. */
  lemma {:induction false} WholeAnswer(loads: string -> Option<Json>, lines: seq<string>, pieces: seq<string>,
                                       finish: string, last: Json, text: string, reason: string,
                                       count: string, report: Json, usage: map<string, Json>, done: string, rest: seq<string>)
    requires |lines| == |pieces| && forall k :: 0 <= k < |lines| ==> Carries(loads, lines[k], pieces[k])
    requires Brings(loads, finish, last) && EventFinishes(last, text, reason)
    requires Brings(loads, count, report) && EventCounts(report, usage)
    requires IsData(done) && Text.Strip(done[5..]) == "[DONE]"
    ensures var answer := Conclude(loads, TakeAll(loads, lines + [finish] + [count] + [done] + rest));
            answer.Parsed? && answer.result == (if reason == "stop" then loads(Concat(pieces) + text) else None) &&
            answer.usage.Keys == {"prompt_tokens", "completion_tokens", "cost"} &&
            forall name :: name in answer.usage ==>
              answer.usage[name] == if name in usage && Truthy(usage[name]) then usage[name] else Number(0.0)
  {
    hide TakeData, TakeAll, Text.Strip, EventAdds, EventFinishes, EventCounts, Truthy, Carries;
    assert TakeAll(loads, []) == START by { TakeNone(loads); }
    assert [] + lines == lines && "" + Concat(pieces) == Concat(pieces);
    PiecesJoin(loads, [], lines, pieces);
    TakeLineOf(loads, lines, finish);
    TakeFinish(TakeAll(loads, lines), last, text, reason);
    TakeLineOf(loads, lines + [finish], count);
    TakeUsage(TakeAll(loads, lines + [finish]), report, usage);
    var all := lines + [finish] + [count] + [done];
    TakeLineOf(loads, lines + [finish] + [count], done);
    assert TakeAll(loads, all) == Ended(Concat(pieces) + text, usage, Str(reason));
    assert (all + rest)[..|all|] == all;
    Stopped(loads, all + rest, |all|);
  }

  lemma {:induction false} TakeNone(loads: string -> Option<Json>)
    ensures TakeAll(loads, []) == START
  {}

  /** The event cannot be used: it does not decode, is no object, reports an error, or has a
      usage or choices of the wrong kind. */
  predicate Unusable(event: Option<Json>) {
    event.None? || !event.value.Object? || "error" in event.value.fields ||
    ("usage" in event.value.fields && Truthy(event.value.fields["usage"]) && !event.value.fields["usage"].Object?) ||
    ("choices" in event.value.fields &&
     (var choices := event.value.fields["choices"];
      choices in {Null, NonFinite} || choices.Bool? || choices.Number? ||
      (choices.Str? && choices.s != "") || (choices.Object? && choices.fields != map[]) ||
      (choices.List? && exists k :: 0 <= k < |choices.items| && !choices.items[k].Object?)))
  }

  lemma {:induction false} ChoicesFail(p: Progress, choices: seq<Json>, k: nat)
    requires p.Going? && k < |choices| && !choices[k].Object?
    ensures TakeChoices(p, choices).Failed?
  {
    if k < |choices| - 1 { ChoicesFail(p, choices[..|choices| - 1], k); }
  }

  /** Such an event makes the whole answer an error, whatever came before the end mark and
      whatever follows. */
  lemma {:induction false} UnusableRaises(loads: string -> Option<Json>, before: seq<string>, line: string, rest: seq<string>)
    requires TakeAll(loads, before).Going? && IsData(line) && Text.Strip(line[5..]) != "[DONE]"
    requires Unusable(loads(Text.Strip(line[5..])))
    ensures Conclude(loads, TakeAll(loads, before + [line] + rest)) == Raised
  {
    hide TakeAll, Text.Strip, TakeChoices, Truthy;
    var p, event := TakeAll(loads, before), loads(Text.Strip(line[5..]));
    TakeLineOf(loads, before, line);
    if event.Some? && event.value.Object? { UnusableFails(p, event.value); }
    assert (before + [line] + rest)[..|before| + 1] == before + [line];
    Stopped(loads, before + [line] + rest, |before| + 1);
  }

  lemma {:induction false} UnusableFails(p: Progress, data: Json)
    requires p.Going? && data.Object? && Unusable(Some(data))
    ensures TakeData(p, data).Failed?
  {
    hide TakeChoices, Truthy;
    var usage := Get(data.fields, "usage", Null);
    assert !Truthy(Null) by { NullIsFalse(); }
    if "choices" in data.fields && data.fields["choices"].List? {
      var choices := data.fields["choices"].items;
      var q := if Truthy(usage) && usage.Object? then Going(p.content, usage.fields, p.finish) else p;
      if k: nat :| k < |choices| && !choices[k].Object? { ChoicesFail(q, choices, k); }
    }
  }

  lemma {:induction false} NullIsFalse()
    ensures !Truthy(Null)
  {}

  method ConsumeEvents(loads: string -> Option<Json>, lines: seq<string>) returns (answer: Answer)
    ensures answer == Conclude(loads, TakeAll(loads, lines))
  {
    hide TakeData, Conclude, Text.Strip;
    var p, k := START, 0;
    assert lines[..0] == [];
    while k < |lines| && p.Going?
      invariant 0 <= k <= |lines| && p == TakeAll(loads, lines[..k])
    {
      assert lines[..k + 1][..k] == lines[..k];
      var line := lines[k];
      k := k + 1;
      if IsData(line) {
        var event := Text.Strip(line[5..]);
        if event == "[DONE]" {
          p := Ended(p.content, p.usage, p.finish);
        } else {
          match loads(event) {
            case None => p := Failed;
            case Some(data) => p := TakeData(p, data);
          }
        }
      }
    }
    Stopped(loads, lines, k);
    return Conclude(loads, p);
  }

  /** Nothing after an error or after the end mark changes the outcome. */
  lemma {:induction false} Stopped(loads: string -> Option<Json>, lines: seq<string>, k: nat)
    requires k <= |lines| && (k == |lines| || !TakeAll(loads, lines[..k]).Going?)
    ensures TakeAll(loads, lines) == TakeAll(loads, lines[..k])
  {
    hide TakeData;
    if k == |lines| {
      assert lines[..k] == lines;
    } else {
      var front := lines[..|lines| - 1];
      assert front[..k] == lines[..k];
      Stopped(loads, front, k);
    }
  }

  // ---- the whole path from bytes to answer ----

  function Decoded(decode: seq<Byte> -> string, lines: seq<seq<Byte>>): seq<string> {
    if lines == [] then [] else Decoded(decode, lines[..|lines| - 1]) + [decode(lines[|lines| - 1])]
  }

  /** What a byte stream means, however it arrives. */
  function Meaning(decode: seq<Byte> -> string, loads: string -> Option<Json>, stream: seq<Byte>): Answer {
    Conclude(loads, TakeAll(loads, Decoded(decode, Lines(stream))))
  }

  method ReadAnswer(decode: seq<Byte> -> string, loads: string -> Option<Json>, chunks: seq<seq<Byte>>)
    returns (answer: Answer)
    ensures answer == Meaning(decode, loads, Joined(chunks))
  {
    hide Lines, TakeAll, Conclude;
    var raw := StreamLines(chunks);
    var lines: seq<string> := [];
    for k := 0 to |raw|
      invariant lines == Decoded(decode, raw[..k])
    {
      assert raw[..k + 1][..k] == raw[..k];
      lines := lines + [decode(raw[k])];
    }
    assert raw[..|raw|] == raw;
    answer := ConsumeEvents(loads, lines);
  }

  // ---- line ends ----

  function NonEmpty(lines: seq<seq<Byte>>): seq<seq<Byte>> {
    if lines == [] then []
    else NonEmpty(lines[..|lines| - 1]) + if lines[|lines| - 1] == [] then [] else [lines[|lines| - 1]]
  }

  lemma {:induction false} NonEmptyAppend(a: seq<seq<Byte>>, b: seq<seq<Byte>>)
    ensures NonEmpty(a + b) == NonEmpty(a) + NonEmpty(b)
  {
    if b == [] {
      assert a + b == a;
    } else {
      NonEmptyAppend(a, b[..|b| - 1]);
      assert (a + b)[..|a + b| - 1] == a + b[..|b| - 1];
    }
  }

  /** Empty lines carry nothing. */
  lemma {:induction false} EmptyLinesIgnored(decode: seq<Byte> -> string, loads: string -> Option<Json>,
                                             lines: seq<seq<Byte>>)
    requires !IsData(decode([]))
    ensures TakeAll(loads, Decoded(decode, lines)) == TakeAll(loads, Decoded(decode, NonEmpty(lines)))
  {
    hide TakeData;
    if lines != [] {
      var front, last := lines[..|lines| - 1], lines[|lines| - 1];
      EmptyLinesIgnored(decode, loads, front);
      DecodedNext(decode, loads, front, last);
      assert front + [last] == lines;
      if last != [] {
        DecodedNext(decode, loads, NonEmpty(front), last);
      } else {
        assert NonEmpty(lines) == NonEmpty(front);
      }
    }
  }

  lemma {:induction false} DecodedNext(decode: seq<Byte> -> string, loads: string -> Option<Json>,
                                       front: seq<seq<Byte>>, last: seq<Byte>)
    ensures TakeAll(loads, Decoded(decode, front + [last]))
         == TakeLine(loads, TakeAll(loads, Decoded(decode, front)), decode(last))
  {
    hide TakeLine;
    assert (front + [last])[..|front|] == front;
    var d := Decoded(decode, front);
    assert Decoded(decode, front + [last]) == d + [decode(last)];
    assert (d + [decode(last)])[..|d|] == d;
  }

  /** Every LF becomes CR LF. */
  function ToCrlf(s: seq<Byte>): seq<Byte> {
    if s == [] then [] else (if s[0] == LF then [CR, LF] else [s[0]]) + ToCrlf(s[1..])
  }

  lemma {:induction false} CrlfPrefix(s: seq<Byte>, n: nat)
    requires n <= |s| && forall k :: 0 <= k < n ==> !IsEnd(s[k])
    ensures ToCrlf(s) == s[..n] + ToCrlf(s[n..])
  {
    if n == 0 {
      assert s[..0] == [] && s[0..] == s;
    } else {
      CrlfPrefix(s[1..], n - 1);
      assert s[1..][..n - 1] == s[1..n] && s[1..][n - 1..] == s[n..];
      assert s[..n] == [s[0]] + s[1..n];
    }
  }

  /** The lines of a stream, one step at a time. */
  lemma {:induction false} LinesNext(s: seq<Byte>)
    ensures LineEnd(s) == |s| ==> Lines(s) == if s == [] then [] else [s]
    ensures LineEnd(s) < |s| ==> Lines(s) == [s[..LineEnd(s)]] + Lines(s[LineEnd(s) + 1..])
  {}

  lemma {:induction false} OneLine(line: seq<Byte>, rest: seq<Byte>, end: Byte)
    requires IsEnd(end) && forall k :: 0 <= k < |line| ==> !IsEnd(line[k])
    ensures Lines(line + [end] + rest) == [line] + Lines(rest)
  {
    hide Lines, LineEnd;
    var buffer := line + [end];
    FirstLine(buffer, |line|, rest);
    assert buffer[..|line|] == line && buffer[|line| + 1..] + rest == rest;
  }

  /** Writing CR LF for LF changes no line but adds empty ones. */
  lemma {:induction false} CrlfLines(s: seq<Byte>)
    ensures NonEmpty(Lines(ToCrlf(s))) == NonEmpty(Lines(s))
    decreases |s|
  {
    hide Lines, LineEnd, ToCrlf, NonEmpty;
    var n := LineEnd(s);
    CrlfPrefix(s, n);
    LinesNext(s);
    if n == |s| {
      assert ToCrlf(s[n..]) == [] by { NoCrlf(s[n..]); }
      assert ToCrlf(s) == s;
    } else {
      var line, rest := s[..n], s[n + 1..];
      CrlfLines(rest);
      CrlfEnd(s[n..]);
      assert s[n..][1..] == rest;
      if s[n] == LF {
        assert ToCrlf(s) == line + [CR] + ([LF] + ToCrlf(rest));
        OneLine(line, [LF] + ToCrlf(rest), CR);
        OneLine([], ToCrlf(rest), LF);
        assert [] + [LF] + ToCrlf(rest) == [LF] + ToCrlf(rest);
        NonEmptyAppend([line], [[]] + Lines(ToCrlf(rest)));
        NonEmptyAppend([[]], Lines(ToCrlf(rest)));
        assert NonEmpty([[]]) == [] by { OneEmpty(); }
      } else {
        assert ToCrlf(s) == line + [s[n]] + ToCrlf(rest);
        OneLine(line, ToCrlf(rest), s[n]);
        NonEmptyAppend([line], Lines(ToCrlf(rest)));
      }
      NonEmptyAppend([line], Lines(rest));
    }
  }

  lemma {:induction false} NoCrlf(s: seq<Byte>)
    requires s == []
    ensures ToCrlf(s) == []
  {}

  lemma {:induction false} OneEmpty()
    ensures NonEmpty([[]]) == []
  {
    var lines: seq<seq<Byte>> := [[]];
    assert lines[..0] == [];
  }

  lemma {:induction false} CrlfEnd(s: seq<Byte>)
    requires s != [] && IsEnd(s[0])
    ensures ToCrlf(s) == (if s[0] == LF then [CR, LF] else [s[0]]) + ToCrlf(s[1..])
  {}

  /** The answer does not depend on whether lines end in LF or CR LF. */
  lemma {:induction false} LineEndsIrrelevant(decode: seq<Byte> -> string, loads: string -> Option<Json>, s: seq<Byte>)
    requires !IsData(decode([]))
    ensures Meaning(decode, loads, ToCrlf(s)) == Meaning(decode, loads, s)
  {
    hide Lines, TakeAll, Conclude, ToCrlf, NonEmpty;
    CrlfLines(s);
    EmptyLinesIgnored(decode, loads, Lines(s));
    EmptyLinesIgnored(decode, loads, Lines(ToCrlf(s)));
  }

  /** Fields other than data, comments and heartbeats change nothing. */
  lemma {:induction false} OtherLinesIgnored(decode: seq<Byte> -> string, loads: string -> Option<Json>,
                                             before: seq<seq<Byte>>, line: seq<Byte>, after: seq<seq<Byte>>)
    requires !IsData(decode(line))
    ensures TakeAll(loads, Decoded(decode, before + [line] + after)) == TakeAll(loads, Decoded(decode, before + after))
  {
    hide TakeData, Decoded, TakeAll;
    if after == [] {
      assert before + [line] + after == before + [line] && before + after == before;
      DecodedNext(decode, loads, before, line);
    } else {
      var front, last := after[..|after| - 1], after[|after| - 1];
      OtherLinesIgnored(decode, loads, before, line, front);
      assert before + [line] + after == (before + [line] + front) + [last];
      assert before + after == (before + front) + [last];
      DecodedNext(decode, loads, before + [line] + front, last);
      DecodedNext(decode, loads, before + front, last);
    }
  }
}

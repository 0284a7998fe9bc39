/** The chat endpoints (`app/api/v1/endpoints/chat.py`): `POST /message`
    and the server-sent-event stream of `POST /stream`. Both build a new
    `ChatService` per request, so its session store starts empty. */
module ChatApi {
  import opened Wrappers
  import opened Strings
  import opened Exceptions
  import opened ModelManagement
  import opened Deps
  import opened OrderedDicts
  import opened ChatService

  const PROCESSING: string := "Processing your request..."
  const STREAM_UNAVAILABLE: string := "Chat service temporarily unavailable"

  /** One event of the stream, before JSON encoding. `ChatResponse` has
      no `context` attribute, so the stream never carries a context event. */
  datatype StreamEvent =
    | Start(message: string)
    | Token(content: string)
    | Progress(percentage: real)
    | Complete(sessionId: string, timestamp: int, processingTime: Option<real>, confidence: Option<real>, fullResponse: string)
    | Error(error: string, message: string)

  // ---------------------------------------------------------------
  // The event sequence
  // ---------------------------------------------------------------

  /** The progress event after token `i`: only every tenth token, with
      the share of tokens sent so far (unrounded). */
  function ProgressAfter(words: seq<string>, i: nat): (r: seq<StreamEvent>)
    requires i < |words|
    ensures |r| == if i % 10 == 0 then 1 else 0
    ensures forall k :: 0 <= k < |r| ==> r[k].Progress?
  {
    if i % 10 == 0 then [Progress((i + 1) as real / |words| as real * 100.0)] else []
  }

  /** The events for the words from index `i` on: each word as a token
      followed by its progress event, if any. */
  function TokenPhase(words: seq<string>, i: nat): (r: seq<StreamEvent>)
    requires i <= |words|
    decreases |words| - i
  {
    if i == |words| then []
    else [Token(words[i] + " ")] + ProgressAfter(words, i) + TokenPhase(words, i + 1)
  }

  /** Every event is a token or a progress event. */
  predicate OnlyTokensAndProgress(s: seq<StreamEvent>)
  {
    forall k :: 0 <= k < |s| ==> s[k].Token? || s[k].Progress?
  }

  lemma OnlyTokensAndProgressAppend(a: seq<StreamEvent>, b: seq<StreamEvent>)
    requires OnlyTokensAndProgress(a) && OnlyTokensAndProgress(b)
    ensures OnlyTokensAndProgress(a + b)
  {
    forall k | 0 <= k < |a + b| ensures (a + b)[k].Token? || (a + b)[k].Progress? {
      if k < |a| {
        assert (a + b)[k] == a[k];
      } else {
        assert (a + b)[k] == b[k - |a|];
      }
    }
  }

  /** The token phase holds only token and progress events. */
  lemma {:induction false} PhaseEvents(words: seq<string>, i: nat)
    requires i <= |words|
    ensures OnlyTokensAndProgress(TokenPhase(words, i))
    decreases |words| - i
  {
    if i < |words| {
      PhaseEvents(words, i + 1);
      var tok: seq<StreamEvent> := [Token(words[i] + " ")];
      OnlyTokensAndProgressAppend(tok, ProgressAfter(words, i));
      OnlyTokensAndProgressAppend(tok + ProgressAfter(words, i), TokenPhase(words, i + 1));
    }
  }

  /** No event is an error event. */
  predicate NoErrors(s: seq<StreamEvent>)
  {
    forall k :: 0 <= k < |s| ==> !s[k].Error?
  }

  lemma NoErrorsAppend(a: seq<StreamEvent>, b: seq<StreamEvent>)
    requires NoErrors(a) && NoErrors(b)
    ensures NoErrors(a + b)
  {
    forall k | 0 <= k < |a + b| ensures !(a + b)[k].Error? {
      if k < |a| {
        assert (a + b)[k] == a[k];
      } else {
        assert (a + b)[k] == b[k - |a|];
      }
    }
  }

  /** The final event of a successful stream. */
  function CompleteOf(resp: ChatResponse): StreamEvent
  {
    Complete(resp.sessionId, resp.timestamp, resp.processingTime, resp.confidence, resp.response)
  }

  /** The events of a stream whose reply splits into `words`. */
  function Succeed(words: seq<string>, resp: ChatResponse): seq<StreamEvent>
  {
    [Start(PROCESSING)] + (TokenPhase(words, 0) + [CompleteOf(resp)])
  }

  /** `generate_stream`: a start event, then either the error event for the
      failure of `process_message`, or the tokens of the reply and the
      completion event. */
  function GenerateStream(outcome: Result<ChatResponse, Exception>): (r: seq<StreamEvent>)
    ensures |r| >= 2 && r[0] == Start(PROCESSING)
    ensures outcome.Err? ==> r == [Start(PROCESSING), Error(Str(outcome.error), STREAM_UNAVAILABLE)]
  {
    match outcome
    case Err(e) => [Start(PROCESSING), Error(Str(e), STREAM_UNAVAILABLE)]
    case Ok(resp) => Succeed(Words(resp.response), resp)
  }

  /** A successful stream ends with the completion event carrying the
      whole reply, and has no error event. */
  lemma SucceedEnds(words: seq<string>, resp: ChatResponse)
    ensures var r := Succeed(words, resp);
      && r[|r| - 1] == CompleteOf(resp) && r[|r| - 1].fullResponse == resp.response
      && NoErrors(r)
  {
    var phase := TokenPhase(words, 0);
    PhaseEvents(words, 0);
    var start: seq<StreamEvent> := [Start(PROCESSING)];
    var end: seq<StreamEvent> := [CompleteOf(resp)];
    NoErrorsAppend(phase, end);
    NoErrorsAppend(start, phase + end);
  }

  /** The contents of the token events, in order. */
  function Tokens(events: seq<StreamEvent>): seq<string>
    decreases |events|
  {
    if events == [] then []
    else (if events[0].Token? then [events[0].content] else []) + Tokens(events[1..])
  }

  lemma {:induction false} TokensAppend(a: seq<StreamEvent>, b: seq<StreamEvent>)
    ensures Tokens(a + b) == Tokens(a) + Tokens(b)
    decreases |a|
  {
    if a == [] {
      assert a + b == b;
    } else {
      assert (a + b)[0] == a[0];
      assert (a + b)[1..] == a[1..] + b;
      TokensAppend(a[1..], b);
    }
  }

  /** The number of progress events. */
  function ProgressCount(events: seq<StreamEvent>): nat
    decreases |events|
  {
    if events == [] then 0
    else (if events[0].Progress? then 1 else 0) + ProgressCount(events[1..])
  }

  lemma {:induction false} ProgressCountAppend(a: seq<StreamEvent>, b: seq<StreamEvent>)
    ensures ProgressCount(a + b) == ProgressCount(a) + ProgressCount(b)
    decreases |a|
  {
    if a == [] {
      assert a + b == b;
    } else {
      assert (a + b)[1..] == a[1..] + b;
      ProgressCountAppend(a[1..], b);
    }
  }

  /** Each word followed by one space. */
  function Spaced(words: seq<string>, i: nat): (r: seq<string>)
    requires i <= |words|
    ensures |r| == |words| - i
    ensures forall j :: 0 <= j < |r| ==> r[j] == words[i + j] + " "
  {
    seq(|words| - i, j requires 0 <= j < |words| - i => words[i + j] + " ")
  }

  /** The token events carry the words from `i` on, in order, each with a
      trailing space. */
  lemma {:induction false} TokensOfPhase(words: seq<string>, i: nat)
    requires i <= |words|
    ensures Tokens(TokenPhase(words, i)) == Spaced(words, i)
    decreases |words| - i
  {
    if i < |words| {
      var head := [Token(words[i] + " ")] + ProgressAfter(words, i);
      TokensAppend(head, TokenPhase(words, i + 1));
      TokensAppend([Token(words[i] + " ")], ProgressAfter(words, i));
      assert Tokens([Token(words[i] + " ")]) == [words[i] + " "] by {
        assert [Token(words[i] + " ")][1..] == [];
      }
      assert Tokens(ProgressAfter(words, i)) == [] by {
        if i % 10 == 0 {
          assert ProgressAfter(words, i)[1..] == [];
        }
      }
      TokensOfPhase(words, i + 1);
      assert Spaced(words, i) == [words[i] + " "] + Spaced(words, i + 1);
    }
  }

  /** The number of multiples of ten in `[i, j)`. */
  function TensBetween(i: nat, j: nat): nat
    decreases j - i
  {
    if i >= j then 0 else (if i % 10 == 0 then 1 else 0) + TensBetween(i + 1, j)
  }

  /** There is one multiple of ten in every ten consecutive numbers from 0. */
  lemma {:induction false} TensFromZero(n: nat)
    ensures TensBetween(0, n) == (n + 9) / 10
    decreases n
  {
    if n > 0 {
      TensFromZero(n - 1);
      TensSplit(0, n - 1, n);
      assert TensBetween(n - 1, n) == if (n - 1) % 10 == 0 then 1 else 0;
    }
  }

  lemma {:induction false} TensSplit(i: nat, j: nat, k: nat)
    requires i <= j <= k
    ensures TensBetween(i, k) == TensBetween(i, j) + TensBetween(j, k)
    decreases j - i
  {
    if i < j {
      TensSplit(i + 1, j, k);
    }
  }

  /** A progress event follows exactly the tokens whose index is a
      multiple of ten. */
  lemma {:induction false} ProgressCountOfPhase(words: seq<string>, i: nat)
    requires i <= |words|
    ensures ProgressCount(TokenPhase(words, i)) == TensBetween(i, |words|)
    decreases |words| - i
  {
    if i < |words| {
      var head := [Token(words[i] + " ")] + ProgressAfter(words, i);
      ProgressCountAppend(head, TokenPhase(words, i + 1));
      ProgressCountAppend([Token(words[i] + " ")], ProgressAfter(words, i));
      assert ProgressCount([Token(words[i] + " ")]) == 0 by {
        assert [Token(words[i] + " ")][1..] == [];
      }
      assert ProgressCount(ProgressAfter(words, i)) == if i % 10 == 0 then 1 else 0 by {
        if i % 10 == 0 {
          assert ProgressAfter(words, i)[1..] == [];
        }
      }
      ProgressCountOfPhase(words, i + 1);
    }
  }

  /** Where token `j` sits among the events for the words from `i` on:
      after the earlier tokens and their progress events. */
  function TokenPosition(i: nat, j: nat): nat
    requires i <= j
  {
    (j - i) + TensBetween(i, j)
  }

  /** Token `j` is at its position, and the next event is a progress
      event exactly when `j` is a multiple of ten (`tail` stands for
      what follows the token phase, which does not start with one). */
  lemma {:induction false} TokenAt(words: seq<string>, i: nat, j: nat, tail: seq<StreamEvent>)
    requires i <= j < |words|
    requires |tail| > 0 && !tail[0].Progress?
    ensures TokenPosition(i, j) + 1 < |TokenPhase(words, i) + tail|
    ensures (TokenPhase(words, i) + tail)[TokenPosition(i, j)] == Token(words[j] + " ")
    ensures (TokenPhase(words, i) + tail)[TokenPosition(i, j) + 1].Progress? <==> j % 10 == 0
    decreases j - i
  {
    if j == i {
      FirstToken(words, i, tail);
    } else {
      var head: seq<StreamEvent> := [Token(words[i] + " ")] + ProgressAfter(words, i);
      var mid := TokenPhase(words, i + 1);
      TokenAt(words, i + 1, j, tail);
      var q := TokenPosition(i + 1, j);
      assert TokenPosition(i, j) == |head| + q by {
        assert TensBetween(i, j) == (if i % 10 == 0 then 1 else 0) + TensBetween(i + 1, j);
      }
      assert TokenPhase(words, i) + tail == head + mid + tail by {
        assert TokenPhase(words, i) == head + mid;
      }
      IndexPast(head, mid, tail, q);
    }
  }

  /** Indexing past a prefix. */
  lemma IndexPast(head: seq<StreamEvent>, mid: seq<StreamEvent>, tail: seq<StreamEvent>, q: nat)
    requires q + 1 < |mid + tail|
    ensures |head| + q + 1 < |head + mid + tail|
    ensures (head + mid + tail)[|head| + q] == (mid + tail)[q]
    ensures (head + mid + tail)[|head| + q + 1] == (mid + tail)[q + 1]
  {
  }

  /** The events for the words from `i` on open with token `i`, followed by
      a progress event exactly when `i` is a multiple of ten. */
  lemma FirstToken(words: seq<string>, i: nat, tail: seq<StreamEvent>)
    requires i < |words|
    requires |tail| > 0 && !tail[0].Progress?
    ensures 1 < |TokenPhase(words, i) + tail|
    ensures (TokenPhase(words, i) + tail)[0] == Token(words[i] + " ")
    ensures (TokenPhase(words, i) + tail)[1].Progress? <==> i % 10 == 0
  {
    var head: seq<StreamEvent> := [Token(words[i] + " ")] + ProgressAfter(words, i);
    var mid := TokenPhase(words, i + 1);
    assert TokenPhase(words, i) + tail == head + (mid + tail) by {
      assert TokenPhase(words, i) == head + mid;
    }
    assert (head + (mid + tail))[0] == head[0];
    if i % 10 != 0 {
      assert (head + (mid + tail))[1] == (mid + tail)[0];
      if i + 1 < |words| {
        assert (mid + tail)[0] == mid[0] == Token(words[i + 1] + " ");
      } else {
        assert (mid + tail)[0] == tail[0];
      }
    } else {
      assert (head + (mid + tail))[1] == head[1];
    }
  }

  /** In the stream of a reply split into `words`, token `j` carries word
      `j` and a progress event follows it iff `j % 10 == 0`. */
  lemma SucceedShape(words: seq<string>, resp: ChatResponse, j: nat)
    requires j < |words|
    ensures var r := Succeed(words, resp);
      && 2 + TokenPosition(0, j) < |r|
      && r[1 + TokenPosition(0, j)] == Token(words[j] + " ")
      && (r[2 + TokenPosition(0, j)].Progress? <==> j % 10 == 0)
  {
    TokenAt(words, 0, j, [CompleteOf(resp)]);
  }

  /** The tokens of a successful stream spell out the words, each followed
      by a space, and one progress event accompanies every ten. */
  lemma SucceedTokens(words: seq<string>, resp: ChatResponse)
    ensures Tokens(Succeed(words, resp)) == Spaced(words, 0)
    ensures ProgressCount(Succeed(words, resp)) == (|words| + 9) / 10
  {
    var phase := TokenPhase(words, 0);
    var start: seq<StreamEvent> := [Start(PROCESSING)];
    var end: seq<StreamEvent> := [CompleteOf(resp)];
    TokensAppend(start, phase + end);
    TokensAppend(phase, end);
    ProgressCountAppend(start, phase + end);
    ProgressCountAppend(phase, end);
    assert start[1..] == [] && end[1..] == [];
    assert Tokens(start) == [] && Tokens(end) == [];
    assert ProgressCount(start) == 0 && ProgressCount(end) == 0;
    TokensOfPhase(words, 0);
    ProgressCountOfPhase(words, 0);
    TensFromZero(|words|);
  }

  /** The stream of a successful reply, in terms of the reply's words
      (`str.split()`): token `j` is word `j` plus a space, a progress
      event follows it iff `j % 10 == 0`, the tokens spell out all the
      words in order, there are ⌈n/10⌉ progress events for n words, and
      the last event is the completion with the whole reply. */
  lemma StreamOfReply(resp: ChatResponse, j: nat)
    requires j < |Words(resp.response)|
    ensures var r := GenerateStream(Ok(resp));
      var w := Words(resp.response);
      && 2 + TokenPosition(0, j) < |r|
      && r[1 + TokenPosition(0, j)] == Token(w[j] + " ")
      && (r[2 + TokenPosition(0, j)].Progress? <==> j % 10 == 0)
      && Tokens(r) == Spaced(w, 0)
      && ProgressCount(r) == (|w| + 9) / 10
      && r[|r| - 1] == CompleteOf(resp)
  {
    var w := Words(resp.response);
    assert GenerateStream(Ok(resp)) == Succeed(w, resp);
    SucceedShape(w, resp, j);
    SucceedTokens(w, resp);
    SucceedEnds(w, resp);
  }

  // ---------------------------------------------------------------
  // Server-sent-event framing
  // ---------------------------------------------------------------

  const DATA_PREFIX: string := "data: "

  /** One `data: …` frame with its blank-line terminator. */
  function Frame(payload: string): string
  {
    DATA_PREFIX + payload + "\n\n"
  }

  /** The response body: the frames one after the other. */
  function Body(payloads: seq<string>): string
    decreases |payloads|
  {
    if payloads == [] then [] else Frame(payloads[0]) + Body(payloads[1..])
  }

  /** A reader of the body: each frame's payload, in order, or `None` when
      the text is not a sequence of frames. */
  function Unframe(body: string): Option<seq<string>>
    decreases |body|
  {
    if body == [] then Some([])
    else if !StartsWith(body, DATA_PREFIX) then None
    else
      var rest := body[|DATA_PREFIX|..];
      var n := IndexOf(rest, '\n');
      if n < 0 || n + 1 >= |rest| || rest[n + 1] != '\n' then None
      else
        match Unframe(rest[n + 2..])
        case None => None
        case Some(ps) => Some([rest[..n]] + ps)
  }

  /** A payload without line breaks ends where its frame's terminator begins. */
  lemma FirstBreak(p: string, more: string)
    requires '\n' !in p
    ensures IndexOf(p + "\n\n" + more, '\n') == |p|
  {
    var t := p + "\n\n" + more;
    assert t[|p|] == '\n';
    assert forall j :: 0 <= j < |p| ==> t[j] == p[j];
  }

  /** Reading the body gives back the payloads when none holds a line
      break, which `json.dumps` never emits. */
  lemma {:induction false} UnframeBody(payloads: seq<string>)
    requires forall i :: 0 <= i < |payloads| ==> '\n' !in payloads[i]
    ensures Unframe(Body(payloads)) == Some(payloads)
    decreases |payloads|
  {
    if payloads != [] {
      UnframeBody(payloads[1..]);
      UnframeFrame(payloads[0], Body(payloads[1..]));
      assert [payloads[0]] + payloads[1..] == payloads;
    }
  }

  /** Reading a frame whose payload has no line break yields the payload,
      then whatever the rest of the body reads as. */
  lemma UnframeFrame(p: string, more: string)
    requires '\n' !in p
    ensures Unframe(Frame(p) + more) ==
      match Unframe(more)
      case None => None
      case Some(ps) => Some([p] + ps)
  {
    var body := Frame(p) + more;
    assert body == DATA_PREFIX + (p + "\n\n" + more);
    assert StartsWith(body, DATA_PREFIX);
    var rest := body[|DATA_PREFIX|..];
    assert rest == p + "\n\n" + more;
    FirstBreak(p, more);
    assert rest[..|p|] == p;
    assert rest[|p| + 2..] == more;
  }

  /** The encoded events, in order; `encode` stands for `json.dumps`. */
  function Payloads(encode: StreamEvent -> string, events: seq<StreamEvent>): (r: seq<string>)
    ensures |r| == |events|
    ensures forall i :: 0 <= i < |events| ==> r[i] == encode(events[i])
  {
    seq(|events|, i requires 0 <= i < |events| => encode(events[i]))
  }

  // ---------------------------------------------------------------
  // Endpoints
  // ---------------------------------------------------------------

  /** `POST /stream`: the Ollama guard, then the framed events of a
      message processed against an empty session store. */
  function StreamMessage(m: Manager, encode: StreamEvent -> string, msg: ChatMessage, freshId: string, now: int,
                         elapsed: real, reply: OllamaReply): (r: Result<string, Exception>)
    ensures r.Err? <==> !IsModelAvailable(m, Ollama)
    ensures r.Err? ==> r.error == Http(HTTP_503, OLLAMA_UNAVAILABLE)
  {
    match RequireOllamaService(m)
    case Err(e) => Err(e)
    case Ok(_) =>
      var resp := ProcessMessage(Empty(), msg, freshId, now, elapsed, reply).1;
      Ok(Body(Payloads(encode, GenerateStream(Ok(resp)))))
  }

  /** Past the guard, the stream carries the framed events of the very
      response `POST /message` returns for the same request; with
      `FramedStream` it reads back as those events, start first and the
      completion with that response last. */
  lemma StreamMatchesMessage(m: Manager, encode: StreamEvent -> string, msg: ChatMessage, freshId: string, now: int,
                             elapsed: real, reply: OllamaReply)
    requires IsModelAvailable(m, Ollama)
    ensures SendMessage(m, msg, freshId, now, elapsed, reply).Ok?
    ensures StreamMessage(m, encode, msg, freshId, now, elapsed, reply) ==
      Ok(Body(Payloads(encode, GenerateStream(SendMessage(m, msg, freshId, now, elapsed, reply)))))
  {
  }

  /** The framed stream of a response reads back as its encoded events:
      the start first and the completion last. */
  lemma FramedStream(encode: StreamEvent -> string, resp: ChatResponse)
    requires forall e: StreamEvent :: '\n' !in encode(e)
    ensures var ps := Payloads(encode, GenerateStream(Ok(resp)));
      && Unframe(Body(ps)) == Some(ps)
      && |ps| >= 2
      && ps[0] == encode(Start(PROCESSING))
      && ps[|ps| - 1] == encode(CompleteOf(resp))
  {
    var events := GenerateStream(Ok(resp));
    SucceedEnds(Words(resp.response), resp);
    assert events[|events| - 1] == CompleteOf(resp);
    PayloadsHaveNoBreaks(encode, events);
    UnframeBody(Payloads(encode, events));
  }

  /** The payloads of an encoder that never emits a line break have none. */
  lemma PayloadsHaveNoBreaks(encode: StreamEvent -> string, events: seq<StreamEvent>)
    requires forall e: StreamEvent :: '\n' !in encode(e)
    ensures forall i :: 0 <= i < |Payloads(encode, events)| ==> '\n' !in Payloads(encode, events)[i]
  {
    var ps := Payloads(encode, events);
    forall i | 0 <= i < |ps| ensures '\n' !in ps[i] {
      assert ps[i] == encode(events[i]);
    }
  }

  /** `POST /message`: the Ollama guard, then `process_message` against an
      empty session store. Every step of `process_message` handles its
      own failures, so past the guard the request always succeeds. */
  function SendMessage(m: Manager, msg: ChatMessage, freshId: string, now: int, elapsed: real, reply: OllamaReply)
    : (r: Result<ChatResponse, Exception>)
    ensures r.Err? <==> !IsModelAvailable(m, Ollama)
    ensures r.Err? ==> r.error.Http? && r.error.status == HTTP_503
    ensures r.Ok? ==> r.value.response == AiResponse(reply) && r.value.sessionId == SessionFor(msg, freshId)
    ensures r.Ok? ==> r.value.confidence == Some(CONFIDENCE) && ValidChatResponse(r.value)
  {
    match RequireOllamaService(m)
    case Err(e) => Err(e)
    case Ok(_) => Ok(ProcessMessage(Empty(), msg, freshId, now, elapsed, reply).1)
  }
}

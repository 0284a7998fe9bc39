/** The chat service (`app/services/chat_service.py`) and its schemas
    (`app/schemas/chat.py`): keyword intent detection, the in-memory
    session history and the shaping of a chat reply. The Ollama call is
    an input (`OllamaReply`), the clock is `now`, `uuid4` is `freshId`. */
module ChatService {
  import opened Wrappers
  import opened Strings
  import opened OrderedDicts

  // ---------------------------------------------------------------
  // Schemas
  // ---------------------------------------------------------------

  /** `ChatMessage`: the user's text and an optional session id. */
  datatype ChatMessage = ChatMessage(message: string, sessionId: Option<string>)

  const MAX_MESSAGE_LENGTH: int := 1000

  /** The request bounds pydantic enforces: 1..1000 characters. */
  predicate ValidChatMessage(m: ChatMessage)
  {
    1 <= |m.message| <= MAX_MESSAGE_LENGTH
  }

  /** `ChatResponse`; `timestamp` is the clock reading at construction. */
  datatype ChatResponse = ChatResponse(
    response: string,
    sessionId: string,
    timestamp: int,
    processingTime: Option<real>,
    confidence: Option<real>)

  /** `confidence` is optional and within [0, 1] when present. */
  predicate ValidChatResponse(r: ChatResponse)
  {
    r.confidence.Some? ==> 0.0 <= r.confidence.value <= 1.0
  }

  /** `ChatSession`, the public view of a stored session. */
  datatype ChatSession = ChatSession(
    sessionId: string,
    createdAt: int,
    lastActivity: int,
    messageCount: int,
    isActive: bool)

  /** `message_count` is never negative. */
  predicate ValidChatSession(s: ChatSession)
  {
    s.messageCount >= 0
  }

  /** A `ChatSession` built with only its id: no messages, active. */
  function DefaultChatSession(id: string, now: int): (s: ChatSession)
    ensures ValidChatSession(s) && s.isActive
    ensures s.messageCount == 0 && s.createdAt == s.lastActivity
  {
    ChatSession(id, now, now, 0, true)
  }

  // ---------------------------------------------------------------
  // Product intent
  // ---------------------------------------------------------------

  /** The keyword table, in the dictionary's insertion order. */
  const SEARCH_KEYWORDS: seq<(string, string)> := [
    ("قميص", "shirt"),
    ("بنطلون", "pants"),
    ("حذاء", "shoes"),
    ("جاكيت", "jacket"),
    ("أزرق", "blue"),
    ("أحمر", "red"),
    ("أبيض", "white"),
    ("أسود", "black")
  ]

  /** The English words that count as colours rather than items. */
  const COLOURS: seq<string> := ["blue", "red", "white", "black"]

  predicate IsColour(w: string)
  {
    w == "blue" || w == "red" || w == "white" || w == "black"
  }

  lemma ColourList(w: string)
    ensures w in COLOURS <==> IsColour(w)
  {
  }

  /** The English word of an entry whose Arabic word occurs in the message. */
  function Found(message: string, keyword: (string, string)): seq<string>
  {
    if Contains(message, keyword.0) then [keyword.1] else []
  }

  /** What one entry adds to the items: its word, if found and not a colour. */
  function ItemOf(message: string, keyword: (string, string)): seq<string>
  {
    if IsColour(keyword.1) then [] else Found(message, keyword)
  }

  /** What one entry adds to the colours: its word, if found and a colour. */
  function ColourOf(message: string, keyword: (string, string)): seq<string>
  {
    if IsColour(keyword.1) then Found(message, keyword) else []
  }

  /** `detected_items`: the non-colour words of the entries whose Arabic
      word occurs in the message, in table order. */
  function Items(message: string, keywords: seq<(string, string)>): (r: seq<string>)
    ensures |r| <= |keywords|
    decreases |keywords|
  {
    if keywords == [] then []
    else ItemOf(message, keywords[0]) + Items(message, keywords[1..])
  }

  /** `detected_colors`: the colour words of the entries whose Arabic word
      occurs in the message, in table order. */
  function Colours(message: string, keywords: seq<(string, string)>): (r: seq<string>)
    ensures |r| <= |keywords|
    decreases |keywords|
  {
    if keywords == [] then []
    else ColourOf(message, keywords[0]) + Colours(message, keywords[1..])
  }

  /** Scanning two tables one after the other is scanning their
      concatenation: detected items keep the table's order. */
  lemma {:induction false} ItemsAppend(message: string, a: seq<(string, string)>, b: seq<(string, string)>)
    ensures Items(message, a + b) == Items(message, a) + Items(message, b)
    decreases |a|
  {
    if a == [] {
      assert a + b == b;
    } else {
      assert (a + b)[1..] == a[1..] + b;
      ItemsAppend(message, a[1..], b);
    }
  }

  /** The same for colours. */
  lemma {:induction false} ColoursAppend(message: string, a: seq<(string, string)>, b: seq<(string, string)>)
    ensures Colours(message, a + b) == Colours(message, a) + Colours(message, b)
    decreases |a|
  {
    if a == [] {
      assert a + b == b;
    } else {
      assert (a + b)[1..] == a[1..] + b;
      ColoursAppend(message, a[1..], b);
    }
  }

  /** A word is a detected item exactly when some entry maps a word of
      the message to it and it is not a colour. */
  lemma {:induction false} DetectItems(message: string, keywords: seq<(string, string)>, w: string)
    ensures w in Items(message, keywords) <==>
      (exists i :: 0 <= i < |keywords| && keywords[i].1 == w && !IsColour(w) && Contains(message, keywords[i].0))
    decreases |keywords|
  {
    if keywords != [] {
      DetectItems(message, keywords[1..], w);
      var found := exists i :: 0 <= i < |keywords| && keywords[i].1 == w && !IsColour(w) && Contains(message, keywords[i].0);
      if found {
        var i :| 0 <= i < |keywords| && keywords[i].1 == w && !IsColour(w) && Contains(message, keywords[i].0);
        if i > 0 {
          assert keywords[1..][i - 1] == keywords[i];
        }
      }
      if w in Items(message, keywords[1..]) {
        var i :| 0 <= i < |keywords[1..]| && keywords[1..][i].1 == w && !IsColour(w) && Contains(message, keywords[1..][i].0);
        assert keywords[i + 1] == keywords[1..][i];
      }
    }
  }

  /** A word is a detected colour exactly when some entry maps a word of
      the message to it and it is a colour. */
  lemma {:induction false} DetectColours(message: string, keywords: seq<(string, string)>, w: string)
    ensures w in Colours(message, keywords) <==>
      (exists i :: 0 <= i < |keywords| && keywords[i].1 == w && IsColour(w) && Contains(message, keywords[i].0))
    decreases |keywords|
  {
    if keywords != [] {
      DetectColours(message, keywords[1..], w);
      var found := exists i :: 0 <= i < |keywords| && keywords[i].1 == w && IsColour(w) && Contains(message, keywords[i].0);
      if found {
        var i :| 0 <= i < |keywords| && keywords[i].1 == w && IsColour(w) && Contains(message, keywords[i].0);
        if i > 0 {
          assert keywords[1..][i - 1] == keywords[i];
        }
      }
      if w in Colours(message, keywords[1..]) {
        var i :| 0 <= i < |keywords[1..]| && keywords[1..][i].1 == w && IsColour(w) && Contains(message, keywords[1..][i].0);
        assert keywords[i + 1] == keywords[1..][i];
      }
    }
  }

  /** A one-entry table contributes that entry's word. */
  lemma Single(message: string, k: (string, string))
    ensures Items(message, [k]) == ItemOf(message, k)
    ensures Colours(message, [k]) == ColourOf(message, k)
  {
    assert [k][1..] == [];
  }

  /** A four-entry table contributes each entry's word in turn. */
  lemma Four(message: string, a: (string, string), b: (string, string), c: (string, string), d: (string, string))
    ensures Items(message, [a, b, c, d])
      == ItemOf(message, a) + ItemOf(message, b) + ItemOf(message, c) + ItemOf(message, d)
    ensures Colours(message, [a, b, c, d])
      == ColourOf(message, a) + ColourOf(message, b) + ColourOf(message, c) + ColourOf(message, d)
  {
    Single(message, a);
    Single(message, b);
    Single(message, c);
    Single(message, d);
    assert [a, b, c, d] == [a] + [b] + [c] + [d];
    ItemsAppend(message, [a], [b]);
    ItemsAppend(message, [a] + [b], [c]);
    ItemsAppend(message, [a] + [b] + [c], [d]);
    ColoursAppend(message, [a], [b]);
    ColoursAppend(message, [a] + [b], [c]);
    ColoursAppend(message, [a] + [b] + [c], [d]);
  }

  /** `_extract_product_intent`'s scan over the fixed table: the four item
      words in table order, then the four colours in table order. */
  lemma DetectKeywords(message: string)
    ensures Items(message, SEARCH_KEYWORDS) ==
      Found(message, SEARCH_KEYWORDS[0]) + Found(message, SEARCH_KEYWORDS[1])
        + Found(message, SEARCH_KEYWORDS[2]) + Found(message, SEARCH_KEYWORDS[3])
    ensures Colours(message, SEARCH_KEYWORDS) ==
      Found(message, SEARCH_KEYWORDS[4]) + Found(message, SEARCH_KEYWORDS[5])
        + Found(message, SEARCH_KEYWORDS[6]) + Found(message, SEARCH_KEYWORDS[7])
  {
    var k := SEARCH_KEYWORDS;
    var front := [k[0], k[1], k[2], k[3]];
    var back := [k[4], k[5], k[6], k[7]];
    assert k == front + back;
    ItemsAppend(message, front, back);
    ColoursAppend(message, front, back);
    Four(message, k[0], k[1], k[2], k[3]);
    Four(message, k[4], k[5], k[6], k[7]);
  }

  /** `_extract_product_intent`: `search` is the outcome of the product
      query for the detected items and colours (`None` when it raised).
      The query runs only when an item was detected. */
  function ExtractProductIntent<P>(message: string, search: Option<seq<P>>): (r: seq<P>)
    ensures Items(message, SEARCH_KEYWORDS) == [] ==> r == []
    ensures r != [] ==> search == Some(r)
  {
    if Items(message, SEARCH_KEYWORDS) != [] then
      match search
      case Some(products) => products
      case None => []
    else []
  }

  /** A message naming only colours never reaches the product query. */
  lemma ColoursAloneFindNothing<P>(message: string, search: Option<seq<P>>)
    requires forall i :: 0 <= i < 4 ==> !Contains(message, SEARCH_KEYWORDS[i].0)
    ensures Items(message, SEARCH_KEYWORDS) == []
    ensures ExtractProductIntent(message, search) == []
  {
    DetectKeywords(message);
  }

  /** A message naming an item reports exactly what the query found. */
  lemma ItemReachesSearch<P>(message: string, i: nat, products: seq<P>)
    requires i < 4 && Contains(message, SEARCH_KEYWORDS[i].0)
    ensures Items(message, SEARCH_KEYWORDS) != []
    ensures ExtractProductIntent(message, Some(products)) == products
  {
    var k := SEARCH_KEYWORDS;
    DetectKeywords(message);
    var items := Items(message, k);
    assert |Found(message, k[i])| == 1;
    assert |items| == |Found(message, k[0])| + |Found(message, k[1])| + |Found(message, k[2])| + |Found(message, k[3])|;
  }

  // ---------------------------------------------------------------
  // Ollama reply
  // ---------------------------------------------------------------

  /** The outcome of the POST to Ollama: an HTTP status with the reply's
      `response` field (if any), or an exception. */
  datatype OllamaReply = Replied(status: int, field: Option<string>) | Raised

  const NOT_UNDERSTOOD: string := "عذراً، لم أتمكن من فهم طلبك."
  const TECHNICAL_PROBLEM: string := "عذراً، هناك مشكلة تقنية. حاول مرة أخرى."
  const CANNOT_REPLY: string := "عذراً، لا أستطيع الرد حالياً. حاول مرة أخرى لاحقاً."

  /** `_generate_ai_response`: never fails; a 200 reply's text is passed
      on verbatim and every other outcome becomes a fixed apology. */
  function AiResponse(reply: OllamaReply): (r: string)
    ensures reply.Replied? && reply.status == 200 && reply.field.Some? ==> r == reply.field.value
    ensures reply.Replied? && reply.status == 200 && reply.field.None? ==> r == NOT_UNDERSTOOD
    ensures reply.Replied? && reply.status != 200 ==> r == TECHNICAL_PROBLEM
    ensures reply.Raised? ==> r == CANNOT_REPLY
  {
    match reply
    case Raised => CANNOT_REPLY
    case Replied(status, field) =>
      if status == 200 then field.GetOr(NOT_UNDERSTOOD) else TECHNICAL_PROBLEM
  }

  // ---------------------------------------------------------------
  // Sessions
  // ---------------------------------------------------------------

  /** One stored exchange. */
  datatype Interaction = Interaction(userMessage: string, aiResponse: string, timestamp: int)

  /** The dictionary `active_sessions` keeps per session id. */
  datatype SessionRecord = SessionRecord(
    sessionId: string,
    createdAt: int,
    lastActivity: int,
    messageCount: nat,
    messages: seq<Interaction>)

  type Sessions = Dict<string, SessionRecord>

  const HISTORY_LIMIT: nat := 10

  /** The trim `messages[-10:]`, applied only when the history is longer
      than 10: the last ten entries, or all of them when fewer. */
  function Trim(h: seq<Interaction>): (r: seq<Interaction>)
    ensures |r| <= HISTORY_LIMIT
    ensures |r| == if |h| <= HISTORY_LIMIT then |h| else HISTORY_LIMIT
    ensures forall i :: 0 <= i < |r| ==> r[i] == h[|h| - |r| + i]
  {
    if |h| > HISTORY_LIMIT then h[|h| - HISTORY_LIMIT..] else h
  }

  /** The stored sessions are well formed: keyed by their own id, at most
      ten exchanges kept, and never more kept than were counted. */
  predicate WellFormed(s: Sessions)
  {
    s.Valid() && forall k :: k in s.entries ==> RecordOk(k, s.entries[k])
  }

  /** A stored record is filed under its own id, keeps at most ten
      exchanges, and never more than it counted. */
  predicate RecordOk(k: string, rec: SessionRecord)
  {
    rec.sessionId == k && |rec.messages| <= HISTORY_LIMIT && |rec.messages| <= rec.messageCount
  }

  /** The record `_update_session` starts from: the stored one, or a new
      one with count 0 and no exchanges. */
  function Current(s: Sessions, id: string, now: int): (rec: SessionRecord)
    ensures id in s.entries ==> rec == s.entries[id]
    ensures id !in s.entries ==> rec.sessionId == id && rec.messageCount == 0 && rec.messages == []
    ensures id !in s.entries ==> rec.createdAt == now
  {
    if id in s.entries then s.entries[id] else SessionRecord(id, now, now, 0, [])
  }

  /** One exchange recorded on a session: counted once, appended newest
      last, and the history cut back to its last ten entries. */
  function Bump(rec: SessionRecord, message: string, response: string, now: int): (r: SessionRecord)
    ensures r.sessionId == rec.sessionId && r.createdAt == rec.createdAt && r.lastActivity == now
    ensures r.messageCount == rec.messageCount + 1
    ensures r.messages == Trim(rec.messages + [Interaction(message, response, now)])
    ensures |r.messages| > 0 && r.messages[|r.messages| - 1] == Interaction(message, response, now)
  {
    rec.(
      lastActivity := now,
      messageCount := rec.messageCount + 1,
      messages := Trim(rec.messages + [Interaction(message, response, now)]))
  }

  /** Recording an exchange keeps a record well formed. */
  lemma BumpOk(k: string, rec: SessionRecord, message: string, response: string, now: int)
    requires RecordOk(k, rec)
    ensures RecordOk(k, Bump(rec, message, response, now))
  {
  }

  /** `_update_session`: an unseen id is created with count 0 first; then
      the count goes up by one, the exchange is appended and the history
      is cut back to its last ten entries. */
  function UpdateSession(s: Sessions, id: string, message: string, response: string, now: int): (r: Sessions)
    requires s.Valid()
    ensures r.Valid() && id in r.entries
    ensures r.entries[id] == Bump(Current(s, id, now), message, response, now)
    ensures forall k :: k != id ==> r.Get(k) == s.Get(k)
    ensures id !in s.entries ==> r.entries[id].messageCount == 1 && r.entries[id].createdAt == now
    ensures id in s.entries ==> r.entries[id].messageCount == s.entries[id].messageCount + 1
    ensures id in s.entries ==> r.entries[id].createdAt == s.entries[id].createdAt
  {
    s.Put(id, Bump(Current(s, id, now), message, response, now))
  }

  /** The history after an update is the last ten of the previous
      history plus the new exchange. */
  lemma UpdateSessionHistory(s: Sessions, id: string, message: string, response: string, now: int)
    requires s.Valid()
    ensures var before := if id in s.entries then s.entries[id].messages else [];
      UpdateSession(s, id, message, response, now).entries[id].messages
        == Trim(before + [Interaction(message, response, now)])
  {
  }

  /** Updating keeps the store well formed. */
  lemma UpdateSessionWellFormed(s: Sessions, id: string, message: string, response: string, now: int)
    requires WellFormed(s)
    ensures WellFormed(UpdateSession(s, id, message, response, now))
  {
    var r := UpdateSession(s, id, message, response, now);
    UpdatedRecordOk(s, id, message, response, now);
    forall k | k in r.entries ensures RecordOk(k, r.entries[k]) {
      if k != id {
        assert r.Get(k) == s.Get(k);
      }
    }
  }

  /** The record an update writes is well formed when the one it replaces was. */
  lemma UpdatedRecordOk(s: Sessions, id: string, message: string, response: string, now: int)
    requires s.Valid()
    requires id in s.entries ==> RecordOk(id, s.entries[id])
    ensures RecordOk(id, UpdateSession(s, id, message, response, now).entries[id])
  {
    BumpOk(id, Current(s, id, now), message, response, now);
  }

  /** One turn of a conversation: what was said, the reply, and when. */
  datatype Turn = Turn(message: string, response: string, time: int)

  function AsInteraction(t: Turn): Interaction
  {
    Interaction(t.message, t.response, t.time)
  }

  /** The exchanges a sequence of turns produces. */
  function Interactions(turns: seq<Turn>): (r: seq<Interaction>)
    ensures |r| == |turns|
    ensures forall i :: 0 <= i < |turns| ==> r[i] == AsInteraction(turns[i])
  {
    seq(|turns|, i requires 0 <= i < |turns| => AsInteraction(turns[i]))
  }

  /** The store after a conversation of several turns on one session. */
  function Converse(s: Sessions, id: string, turns: seq<Turn>): (r: Sessions)
    requires s.Valid()
    ensures r.Valid()
    decreases |turns|
  {
    if turns == [] then s
    else
      var last := turns[|turns| - 1];
      UpdateSession(Converse(s, id, turns[..|turns| - 1]), id, last.message, last.response, last.time)
  }

  /** After n turns on a session unseen before, its count is n and its
      history is the last ten of the n exchanges, in order, newest last:
      trimming never lowers the count. */
  lemma {:induction false} ConverseFromScratch(s: Sessions, id: string, turns: seq<Turn>)
    requires s.Valid() && id !in s.entries && |turns| > 0
    ensures var r := Converse(s, id, turns);
      && id in r.entries
      && r.entries[id].messageCount == |turns|
      && r.entries[id].messages == Trim(Interactions(turns))
      && r.entries[id].createdAt == turns[0].time
    decreases |turns|
  {
    var init := turns[..|turns| - 1];
    var last := turns[|turns| - 1];
    var x := AsInteraction(last);
    assert Interactions(turns) == Interactions(init) + [x];
    if init == [] {
      UpdateSessionHistory(s, id, last.message, last.response, last.time);
    } else {
      ConverseFromScratch(s, id, init);
      assert init[0] == turns[0];
      var mid := Converse(s, id, init);
      UpdateSessionHistory(mid, id, last.message, last.response, last.time);
      assert mid.entries[id].messages == Trim(Interactions(init));
      TrimAppend(Interactions(init), x);
    }
  }

  /** Trimming after every append keeps the same entries as trimming
      once at the end. */
  lemma TrimAppend(h: seq<Interaction>, x: Interaction)
    ensures Trim(Trim(h) + [x]) == Trim(h + [x])
  {
  }

  /** The public view of a stored session, as listed by the service. */
  function View(rec: SessionRecord): ChatSession
  {
    ChatSession(rec.sessionId, rec.createdAt, rec.lastActivity, rec.messageCount, true)
  }

  /** `create_session`: a new record with no exchanges, created and last
      active now; the returned session mirrors what was stored. */
  function CreateSession(s: Sessions, freshId: string, now: int): (r: (Sessions, ChatSession))
    requires s.Valid()
    ensures r.0.Valid() && freshId in r.0.entries
    ensures r.0.entries[freshId].messages == [] && r.0.entries[freshId].messageCount == 0
    ensures r.1 == View(r.0.entries[freshId])
    ensures r.1 == DefaultChatSession(freshId, now)
    ensures forall k :: k != freshId ==> r.0.Get(k) == s.Get(k)
  {
    var rec := SessionRecord(freshId, now, now, 0, []);
    (s.Put(freshId, rec), View(rec))
  }

  /** Creating keeps the store well formed. */
  lemma CreateSessionWellFormed(s: Sessions, freshId: string, now: int)
    requires WellFormed(s)
    ensures WellFormed(CreateSession(s, freshId, now).0)
  {
    var r := CreateSession(s, freshId, now).0;
    forall k | k in r.entries ensures RecordOk(k, r.entries[k]) {
      if k != freshId {
        assert r.Get(k) == s.Get(k);
      }
    }
  }

  /** The views of a list of records, in order. */
  function Views(records: seq<SessionRecord>): (r: seq<ChatSession>)
    ensures |r| == |records|
    ensures forall i :: 0 <= i < |r| ==> r[i] == View(records[i])
  {
    seq(|records|, i requires 0 <= i < |records| => View(records[i]))
  }

  lemma ViewsAppend(records: seq<SessionRecord>, rec: SessionRecord)
    ensures Views(records + [rec]) == Views(records) + [View(rec)]
  {
    var a := Views(records + [rec]);
    var b := Views(records) + [View(rec)];
    assert |a| == |b|;
    forall i | 0 <= i < |a| ensures a[i] == b[i] {
    }
  }

  /** `get_active_sessions`: one active entry per stored session, in
      insertion order, with the stored count. */
  function GetActiveSessions(s: Sessions): (r: seq<ChatSession>)
    requires s.Valid()
    ensures |r| == |s.keys|
    ensures forall i :: 0 <= i < |r| ==>
      r[i].isActive && ValidChatSession(r[i])
      && r[i].messageCount == s.entries[s.keys[i]].messageCount
    ensures WellFormed(s) ==> forall i :: 0 <= i < |r| ==> r[i].sessionId == s.keys[i]
  {
    Views(s.Values())
  }

  /** A session created under a new id is listed last, as it was returned. */
  lemma CreatedSessionIsListed(s: Sessions, freshId: string, now: int)
    requires s.Valid() && freshId !in s.keys
    ensures var (t, session) := CreateSession(s, freshId, now);
      GetActiveSessions(t) == GetActiveSessions(s) + [session]
  {
    var rec := SessionRecord(freshId, now, now, 0, []);
    PutNewValues(s, freshId, rec);
    ViewsAppend(s.Values(), rec);
  }

  // ---------------------------------------------------------------
  // process_message
  // ---------------------------------------------------------------

  const CONFIDENCE: real := 0.85

  /** The session a message is filed under: its own id when it is a
      non-empty string, otherwise a fresh one. */
  function SessionFor(msg: ChatMessage, freshId: string): string
  {
    if msg.sessionId.Some? && msg.sessionId.value != "" then msg.sessionId.value else freshId
  }

  /** `process_message`: the reply is the Ollama text (or an apology), the
      exchange is recorded under the message's session, and the response
      always reports confidence 0.85. `elapsed` is the measured
      processing time. */
  function ProcessMessage(s: Sessions, msg: ChatMessage, freshId: string, now: int, elapsed: real, reply: OllamaReply)
    : (r: (Sessions, ChatResponse))
    requires s.Valid()
    ensures ValidChatResponse(r.1)
    ensures r.1.confidence == Some(CONFIDENCE)
    ensures msg.sessionId.Some? && msg.sessionId.value != "" ==> r.1.sessionId == msg.sessionId.value
    ensures msg.sessionId.None? ==> r.1.sessionId == freshId
    ensures r.1.response == AiResponse(reply)
    ensures r.0.Valid() && r.1.sessionId in r.0.entries
    ensures var h := r.0.entries[r.1.sessionId].messages;
      |h| > 0 && h[|h| - 1] == Interaction(msg.message, r.1.response, now)
    ensures forall k :: k != r.1.sessionId ==> r.0.Get(k) == s.Get(k)
  {
    var id := SessionFor(msg, freshId);
    var text := AiResponse(reply);
    (UpdateSession(s, id, msg.message, text, now), ChatResponse(text, id, now, Some(elapsed), Some(CONFIDENCE)))
  }

  /** An empty session id is falsy, so it too is replaced by a fresh one. */
  lemma EmptySessionIdIsReplaced(s: Sessions, message: string, freshId: string, now: int, elapsed: real, reply: OllamaReply)
    requires s.Valid()
    ensures ProcessMessage(s, ChatMessage(message, Some("")), freshId, now, elapsed, reply).1.sessionId == freshId
  {
  }
}

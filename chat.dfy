/**
 * The chat page: the list of chat sessions kept in order (pinned first, then
 * most recently updated), sending a message and recording the streamed
 * reply, and the session and message actions.
 */
module Chat {
  import opened Common
  import opened Text
  import opened Parts

  const TokenLimit := 1000000

  const NewChatTitle := "New Chat"
  const UntitledChat := "Untitled Chat"
  const ErrorPrefix := "Sorry, an error occurred: "
  /** The text of the model message while its stream has not finished. */
  const Placeholder := "..."

  datatype Role = User | Model

  /** A message; the attachment metadata and display timestamp are not kept. */
  datatype ChatMessage = ChatMessage(id: int, role: Role, parts: seq<Part>, text: string)

  datatype ChatSession = ChatSession(
    id: string,
    title: string,
    history: seq<ChatMessage>,
    systemInstruction: string,
    lastUpdated: int,
    isPinned: bool)

  /**
   * How the service answers: a complete stream of text chunks, or an
   * exception before or during the stream. Each carries the clock readings
   * taken after the awaits: when the model message was created
   * (`startedAt`) and when the exception was caught (`failedAt`).
   */
  datatype StreamReply =
    | Streamed(chunks: seq<string>, startedAt: Millis)
    | FailedToStart(message: string, failedAt: Millis)
    | FailedMidStream(message: string, startedAt: Millis, failedAt: Millis)

  datatype ChatNotice = AiUnavailable | ChatFailed(message: string)

  // ---------------------------------------------------------------------------
  // The order of the session list

  /**
   * `a` may stand before `b` under the comparator of `sortAndSaveChatHistory`
   * (`(b.isPinned - a.isPinned) || (b.lastUpdated - a.lastUpdated)` is not positive).
   */
  predicate Precedes(a: ChatSession, b: ChatSession) {
    (a.isPinned && !b.isPinned) || (a.isPinned == b.isPinned && a.lastUpdated >= b.lastUpdated)
  }

  predicate SessionsSorted(s: seq<ChatSession>) {
    forall i, j :: 0 <= i < j < |s| ==> Precedes(s[i], s[j])
  }

  /** `x` may stand before every session of `s`. */
  predicate PrecedesAll(x: ChatSession, s: seq<ChatSession>) {
    forall y :: y in s ==> Precedes(x, y)
  }

  lemma SortedCons(x: ChatSession, s: seq<ChatSession>)
    requires SessionsSorted(s) && PrecedesAll(x, s)
    ensures SessionsSorted([x] + s)
  {
    var r := [x] + s;
    forall i, j | 0 <= i < j < |r| ensures Precedes(r[i], r[j]) {
      if i > 0 {
        assert r[i] == s[i - 1] && r[j] == s[j - 1];
      } else {
        assert r[j] in s;
      }
    }
  }

  /** In a sorted list the first session may precede the rest, and the rest is sorted. */
  lemma SortedSplit(s: seq<ChatSession>)
    requires SessionsSorted(s) && s != []
    ensures PrecedesAll(s[0], s[1..]) && SessionsSorted(s[1..])
  {
    forall y | y in s[1..] ensures Precedes(s[0], y) {
      var j :| 0 <= j < |s[1..]| && s[1..][j] == y;
      assert s[j + 1] == y;
    }
    forall i, j | 0 <= i < j < |s[1..]| ensures Precedes(s[1..][i], s[1..][j]) {
      assert s[1..][i] == s[i + 1] && s[1..][j] == s[j + 1];
    }
  }

  /** A session that may precede the first of a sorted list may precede all of it. */
  lemma BeforeHead(x: ChatSession, s: seq<ChatSession>)
    requires SessionsSorted(s) && (s != [] ==> Precedes(x, s[0]))
    ensures PrecedesAll(x, s)
  {
    forall y | y in s ensures Precedes(x, y) {
      var j :| 0 <= j < |s| && s[j] == y;
      assert Precedes(s[0], s[j]) || j == 0;
    }
  }

  /** What may be preceded by `x` stays so in any list holding the same sessions and one more it precedes. */
  lemma PrecedesKept(x: ChatSession, s: seq<ChatSession>, y: ChatSession, r: seq<ChatSession>)
    requires PrecedesAll(x, s) && Precedes(x, y)
    requires multiset(r) == multiset(s) + multiset{y}
    ensures PrecedesAll(x, r)
  {
    forall z | z in r ensures Precedes(x, z) {
      assert z in multiset(r);
      if z != y {
        assert z in multiset(s);
      }
    }
  }

  /** One step of the stable sort: `x` goes before the first session it may precede. */
  function InsertSession(x: ChatSession, s: seq<ChatSession>): (r: seq<ChatSession>)
    requires SessionsSorted(s)
    ensures SessionsSorted(r)
    ensures multiset(r) == multiset(s) + multiset{x}
  {
    if s == [] || Precedes(x, s[0]) then
      BeforeHead(x, s);
      SortedCons(x, s);
      [x] + s
    else
      SortedSplit(s);
      var rest := InsertSession(x, s[1..]);
      PrecedesKept(s[0], s[1..], x, rest);
      SortedCons(s[0], rest);
      assert multiset(s) == multiset([s[0]] + s[1..]) by { assert s == [s[0]] + s[1..]; }
      [s[0]] + rest
  }

  /**
   * `chatSessions.sort(...)`: a stable sort that puts pinned sessions first
   * and, within each group, the most recently updated first.
   */
  function SortSessions(s: seq<ChatSession>): (r: seq<ChatSession>)
    ensures SessionsSorted(r)
    ensures multiset(r) == multiset(s)
    ensures forall i, j :: 0 <= i < j < |r| && r[j].isPinned ==> r[i].isPinned
  {
    if s == [] then []
    else
      assert s == [s[0]] + s[1..];
      InsertSession(s[0], SortSessions(s[1..]))
  }

  /** Sorting a list that is already in order leaves it as it is (the sort is stable). */
  lemma {:induction false} SortSortedIdentity(s: seq<ChatSession>)
    requires SessionsSorted(s)
    ensures SortSessions(s) == s
  {
    if s != [] {
      SortedSplit(s);
      SortSortedIdentity(s[1..]);
      assert s == [s[0]] + s[1..];
    }
  }

  lemma SortIdempotent(s: seq<ChatSession>)
    ensures SortSessions(SortSessions(s)) == SortSessions(s)
  {
    SortSortedIdentity(SortSessions(s));
  }

  /** `chatSessions.filter(s => s.id !== id)`. */
  function WithoutSession(s: seq<ChatSession>, id: string): (r: seq<ChatSession>)
    ensures forall x :: x in r <==> x in s && x.id != id
    ensures |r| <= |s|
    ensures SessionsSorted(s) ==> SessionsSorted(r)
  {
    if s == [] then []
    else
      var rest := WithoutSession(s[1..], id);
      assert forall x :: x in s[1..] ==> x in s;
      if s[0].id == id then rest
      else
        assert forall x :: x in rest ==> x in s[1..];
        assert SessionsSorted(s) ==> SessionsSorted([s[0]] + rest) by {
          if SessionsSorted(s) {
            SortedSplit(s);
            SortedCons(s[0], rest);
          }
        }
        [s[0]] + rest
  }

  /** Filtering distributes over concatenation: the survivors keep their order and their number. */
  lemma {:induction false} WithoutSessionAppend(a: seq<ChatSession>, b: seq<ChatSession>, id: string)
    ensures WithoutSession(a + b, id) == WithoutSession(a, id) + WithoutSession(b, id)
  {
    if a == [] {
      assert a + b == b;
    } else {
      assert (a + b)[1..] == a[1..] + b;
      WithoutSessionAppend(a[1..], b, id);
    }
  }

  /** Filtering out an id no session has changes nothing. */
  lemma {:induction false} WithoutAbsentSession(s: seq<ChatSession>, id: string)
    requires FindSession(s, id) == -1
    ensures WithoutSession(s, id) == s
  {
    if s != [] {
      assert forall k :: 0 <= k < |s[1..]| ==> s[1..][k] == s[k + 1];
      WithoutAbsentSession(s[1..], id);
    }
  }

  /** The index of the first session with this id (`chatSessions.find`), or -1. */
  function FindSession(s: seq<ChatSession>, id: string): (r: int)
    ensures -1 <= r < |s|
    ensures r == -1 <==> forall k :: 0 <= k < |s| ==> s[k].id != id
    ensures r >= 0 ==> s[r].id == id && forall k :: 0 <= k < r ==> s[k].id != id
  {
    if s == [] then -1
    else if s[0].id == id then 0
    else
      var r := FindSession(s[1..], id);
      assert forall k :: 1 <= k < |s| ==> s[k] == s[1..][k - 1];
      if r == -1 then -1 else r + 1
  }

  lemma FoundAt(s: seq<ChatSession>, k: nat, id: string)
    requires k < |s| && s[k].id == id
    ensures FindSession(s, id) >= 0
  {
  }

  /** Replacing a session by one with the same id keeps every id findable. */
  lemma ReplaceKeepsFind(s: seq<ChatSession>, i: nat, x: ChatSession, id: string)
    requires i < |s| && x.id == s[i].id && FindSession(s, id) >= 0
    ensures FindSession(s[i := x], id) >= 0
  {
    FoundAt(s[i := x], FindSession(s, id), id);
  }

  /** Removing the sessions with one id keeps every other id findable. */
  lemma RemovalKeepsFind(s: seq<ChatSession>, gone: string, id: string)
    requires FindSession(s, id) >= 0 && id != gone
    ensures FindSession(WithoutSession(s, gone), id) >= 0
  {
    var r := WithoutSession(s, gone);
    var x := s[FindSession(s, id)];
    assert x in r;
    var k :| 0 <= k < |r| && r[k] == x;
    FoundAt(r, k, id);
  }

  /** A session whose history changes keeps its place in the order. */
  lemma HistoryKeepsSorted(s: seq<ChatSession>, i: nat, h: seq<ChatMessage>)
    requires SessionsSorted(s) && i < |s|
    ensures SessionsSorted(s[i := s[i].(history := h)])
  {
    var r := s[i := s[i].(history := h)];
    forall a, b | 0 <= a < b < |r| ensures Precedes(r[a], r[b]) {
      assert Precedes(s[a], s[b]);
    }
  }

  /** Sorting keeps every id findable. */
  lemma SortKeepsFind(s: seq<ChatSession>, id: string)
    requires FindSession(s, id) >= 0
    ensures FindSession(SortSessions(s), id) >= 0
  {
    var x := s[FindSession(s, id)];
    assert x in multiset(SortSessions(s));
    var k :| 0 <= k < |SortSessions(s)| && SortSessions(s)[k] == x;
    FoundAt(SortSessions(s), k, id);
  }

  /** Session `i` with its `k`-th message removed (`history.splice(k, 1)`); the rest untouched. */
  function DropMessage(s: seq<ChatSession>, i: nat, k: nat): (r: seq<ChatSession>)
    requires i < |s| && k < |s[i].history|
    ensures |r| == |s| && r[i].id == s[i].id && |r[i].history| == |s[i].history| - 1
    ensures r[i].history[..k] == s[i].history[..k] && r[i].history[k..] == s[i].history[k + 1..]
    ensures r[i] == s[i].(history := r[i].history)
    ensures forall j :: 0 <= j < |s| && j != i ==> r[j] == s[j]
  {
    var h := s[i].history;
    s[i := s[i].(history := h[..k] + h[k + 1..])]
  }

  /** The index of the first message with this id (`history.findIndex`), or -1. */
  function FindMessage(h: seq<ChatMessage>, id: int): (r: int)
    ensures -1 <= r < |h|
    ensures r == -1 <==> forall k :: 0 <= k < |h| ==> h[k].id != id
    ensures r >= 0 ==> h[r].id == id && forall k :: 0 <= k < r ==> h[k].id != id
  {
    if h == [] then -1
    else if h[0].id == id then 0
    else
      var r := FindMessage(h[1..], id);
      assert forall k :: 1 <= k < |h| ==> h[k] == h[1..][k - 1];
      if r == -1 then -1 else r + 1
  }

  // ---------------------------------------------------------------------------
  // Titles, ids and the reply

  /** `text.substring(0, 30) || "New Chat"`. */
  function SessionTitle(text: string): (r: string)
    ensures text == "" ==> r == NewChatTitle
    ensures text != "" ==> 0 < |r| <= 30 && |r| <= |text| && r == text[..|r|]
    ensures |r| < 30 && text != "" ==> r == text
  {
    if text == "" then NewChatTitle else if |text| <= 30 then text else text[..30]
  }

  /** `input.value.trim() || 'Untitled Chat'`. */
  function RenamedTitle(raw: string): (r: string)
    ensures r != ""
    ensures AllSpace(raw) ==> r == UntitledChat
    ensures !AllSpace(raw) ==> r == Trim(raw)
  {
    TrimBlank(raw);
    var t := Trim(raw);
    if t == "" then UntitledChat else t
  }

  /** `` `chat-${Date.now()}` `` */
  function NewSessionId(now: Millis): (r: string)
    ensures |r| > 5 && r[..5] == "chat-"
  {
    "chat-" + Decimal(now)
  }

  /** Sessions created at different moments get different ids. */
  lemma NewSessionIdInjective(a: Millis, b: Millis)
    requires a != b
    ensures NewSessionId(a) != NewSessionId(b)
  {
    if NewSessionId(a) == NewSessionId(b) {
      assert NewSessionId(a)[5..] == Decimal(a) && NewSessionId(b)[5..] == Decimal(b);
      DecimalInjective(a, b);
    }
  }

  /** `responseText += chunk.text` over the whole stream. */
  function Concat(chunks: seq<string>): string {
    if chunks == [] then "" else Concat(chunks[..|chunks| - 1]) + chunks[|chunks| - 1]
  }

  /** The text shown while streaming only grows: what the first `n` chunks give is a prefix of the whole reply. */
  lemma {:induction false} ConcatPrefix(chunks: seq<string>, n: nat)
    requires n <= |chunks|
    ensures Concat(chunks[..n]) <= Concat(chunks)
    decreases |chunks|
  {
    if n < |chunks| {
      var init := chunks[..|chunks| - 1];
      assert chunks[..n] == init[..n];
      ConcatPrefix(init, n);
    } else {
      assert chunks[..n] == chunks;
    }
  }

  /** The text accumulated so far extends by each new chunk. */
  lemma {:induction false} ConcatAppend(a: seq<string>, b: seq<string>)
    ensures Concat(a + b) == Concat(a) + Concat(b)
    decreases |b|
  {
    if b == [] {
      assert a + b == a;
    } else {
      var b', c := b[..|b| - 1], b[|b| - 1];
      assert b == b' + [c];
      assert a + b == (a + b') + [c];
      ConcatSnoc(a + b', c);
      ConcatSnoc(b', c);
      ConcatAppend(a, b');
    }
  }

  lemma ConcatSnoc(x: seq<string>, c: string)
    ensures Concat(x + [c]) == Concat(x) + c
  {
    assert (x + [c])[..|x|] == x;
  }

  /** The model messages a send appends after the user message, each with the clock reading it was made at, plus one. */
  function ReplyMessages(reply: StreamReply): (r: seq<ChatMessage>)
    ensures 1 <= |r| <= 2 && forall k :: 0 <= k < |r| ==> r[k].role == Model
    ensures reply.Streamed? ==>
      r == [ChatMessage(reply.startedAt + 1, Model, [TextPart(Concat(reply.chunks))], Concat(reply.chunks))]
    ensures !reply.Streamed? ==>
      r[|r| - 1] == ChatMessage(reply.failedAt + 1, Model, [], ErrorPrefix + reply.message)
    ensures reply.FailedMidStream? ==> |r| == 2 && r[0] == ChatMessage(reply.startedAt + 1, Model, [], Placeholder)
    ensures reply.FailedToStart? ==> |r| == 1
  {
    match reply
    case Streamed(chunks, startedAt) =>
      var text := Concat(chunks);
      [ChatMessage(startedAt + 1, Model, [TextPart(text)], text)]
    case FailedToStart(message, failedAt) => [ChatMessage(failedAt + 1, Model, [], ErrorPrefix + message)]
    case FailedMidStream(message, startedAt, failedAt) =>
      [ChatMessage(startedAt + 1, Model, [], Placeholder), ChatMessage(failedAt + 1, Model, [], ErrorPrefix + message)]
  }

  /**
   * The session list after a send, before it is sorted: a new session in
   * front when none is active, otherwise the exchange appended to the active
   * one. Either way the session that is active afterwards is in the list.
   */
  function Conversation(sessions: seq<ChatSession>, activeId: Option<string>, attachments: seq<Part>,
                        text: string, instruction: string, pkbParts: seq<Part>,
                        generatedTitle: Option<string>, reply: StreamReply, now: Millis): (r: seq<ChatSession>)
    requires activeId.Some? ==> FindSession(sessions, activeId.value) >= 0
    ensures |r| == |sessions| + (if activeId.None? then 1 else 0)
    ensures FindSession(r, if activeId.None? then NewSessionId(now) else activeId.value) >= 0
    // a new session goes in front of the others
    ensures activeId.None? ==>
      r[1..] == sessions && r[0].id == NewSessionId(now) && !r[0].isPinned && r[0].lastUpdated == now &&
      r[0].systemInstruction == instruction && r[0].history == Exchange(attachments, text, pkbParts, reply, now) &&
      r[0].title == (if generatedTitle.Some? && text != "" then generatedTitle.value else SessionTitle(text))
    // or the exchange is appended to the active one, and no other session changes
    ensures activeId.Some? ==>
      var i := FindSession(sessions, activeId.value);
      r[i] == sessions[i].(history := sessions[i].history + Exchange(attachments, text, pkbParts, reply, now),
                           lastUpdated := now, systemInstruction := instruction) &&
      forall j :: 0 <= j < |r| && j != i ==> r[j] == sessions[j]
  {
    var messages := Exchange(attachments, text, pkbParts, reply, now);
    if activeId.None? then
      var title := if generatedTitle.Some? && text != "" then generatedTitle.value else SessionTitle(text);
      var r := [ChatSession(NewSessionId(now), title, messages, instruction, now, false)] + sessions;
      FoundAt(r, 0, NewSessionId(now));
      r
    else
      var i := FindSession(sessions, activeId.value);
      var x := sessions[i].(history := sessions[i].history + messages, lastUpdated := now, systemInstruction := instruction);
      ReplaceKeepsFind(sessions, i, x, activeId.value);
      sessions[i := x]
  }

  /** The user's message (knowledge-base parts, the text, the attachments) followed by what the reply adds. */
  function Exchange(attachments: seq<Part>, text: string, pkbParts: seq<Part>, reply: StreamReply, now: Millis): (r: seq<ChatMessage>)
    ensures |r| >= 2 && r[0].role == User && r[0].text == text && r[0].id == now && r[1..] == ReplyMessages(reply)
    ensures |r[0].parts| == |pkbParts| + |attachments| + (if text == "" then 0 else 1)
    ensures r[0].parts[..|pkbParts|] == pkbParts && r[0].parts[|r[0].parts| - |attachments|..] == attachments
    ensures text != "" ==> r[0].parts[|pkbParts|] == TextPart(text)
  {
    var parts := pkbParts + (if text != "" then [TextPart(text)] else []) + attachments;
    assert parts[..|pkbParts|] == pkbParts && parts[|parts| - |attachments|..] == attachments;
    [ChatMessage(now, User, parts, text)] + ReplyMessages(reply)
  }

  class ChatStore {
    var sessions: seq<ChatSession>
    /** localStorage `chatHistory` */
    var saved: seq<ChatSession>
    var activeId: Option<string>
    /** The attached files, already turned into inline parts. */
    var attachments: seq<Part>
    var tokenWarning: bool
    var notice: Option<ChatNotice>

    ghost predicate Valid()
      reads this
    {
      SessionsSorted(sessions) &&
      (activeId.Some? ==> FindSession(sessions, activeId.value) >= 0)
    }

    /** Page load: the stored list is sorted and saved back. */
    constructor(stored: seq<ChatSession>)
      ensures Valid()
      ensures sessions == SortSessions(stored) && saved == sessions
      ensures activeId == None && attachments == [] && !tokenWarning && notice == None
    {
      sessions := SortSessions(stored);
      saved := SortSessions(stored);
      activeId := None;
      attachments := [];
      tokenWarning := false;
      notice := None;
    }

    /** `sortAndSaveChatHistory`. */
    method SortAndSave()
      modifies this`sessions, this`saved
      ensures sessions == SortSessions(old(sessions)) && saved == sessions
      ensures old(activeId).Some? && FindSession(old(sessions), old(activeId).value) >= 0 ==>
        FindSession(sessions, activeId.value) >= 0
    {
      if activeId.Some? && FindSession(sessions, activeId.value) >= 0 {
        SortKeepsFind(sessions, activeId.value);
      }
      sessions := SortSessions(sessions);
      saved := sessions;
    }

    /** `startNewChat`: no session is active and the attachments are dropped. */
    method StartNewChat()
      requires Valid()
      modifies this`activeId, this`attachments
      ensures Valid()
      ensures activeId == None && attachments == []
    {
      activeId := None;
      attachments := [];
    }

    /** `loadChat`: make an existing session active; an unknown id does nothing. */
    method LoadChat(sessionId: string)
      requires Valid()
      modifies this`activeId
      ensures Valid()
      ensures activeId == if FindSession(sessions, sessionId) >= 0 then Some(sessionId) else old(activeId)
    {
      if FindSession(sessions, sessionId) >= 0 {
        activeId := Some(sessionId);
      }
    }

    /**
     * `sendMessage`. `partsRead` says whether the active knowledge-base
     * documents and every attached file could be read (either read rejecting
     * rejects the whole send), `pkbParts` is what `getActivePKBContent` gave,
     * `tokens` is what `estimateTokens` gives for the outgoing
     * parts, `generatedTitle` the service's title for a new chat when automatic
     * titles are on, and `reply` how the streamed answer ends.
     */
    method SendMessage(rawText: string, rawInstruction: string, aiAvailable: bool,
                       partsRead: bool, pkbParts: seq<Part>, tokens: nat, generatedTitle: Option<string>, reply: StreamReply, now: Millis)
      requires Valid()
      modifies this`sessions, this`saved, this`activeId, this`attachments, this`tokenWarning, this`notice
      ensures Valid()
      // nothing to send
      ensures AllSpace(rawText) && old(attachments) == [] ==>
        sessions == old(sessions) && saved == old(saved) && activeId == old(activeId) &&
        attachments == old(attachments) && tokenWarning == old(tokenWarning) && notice == old(notice)
      ensures !(AllSpace(rawText) && old(attachments) == []) && !aiAvailable ==>
        notice == Some(AiUnavailable) && sessions == old(sessions) && saved == old(saved) && activeId == old(activeId) &&
        attachments == old(attachments) && tokenWarning == old(tokenWarning)
      // a document or file that cannot be read rejects the send once the warning is hidden
      ensures !(AllSpace(rawText) && old(attachments) == []) && aiAvailable && !partsRead ==>
        !tokenWarning && sessions == old(sessions) && saved == old(saved) && activeId == old(activeId) &&
        attachments == old(attachments) && notice == old(notice)
      // over the token limit: a warning, and no session is created or changed
      ensures !(AllSpace(rawText) && old(attachments) == []) && aiAvailable && partsRead && tokens > TokenLimit ==>
        tokenWarning && sessions == old(sessions) && saved == old(saved) && activeId == old(activeId) &&
        attachments == old(attachments) && notice == old(notice)
      // sent: the user message and the reply are recorded, the list re-sorted and saved
      ensures !(AllSpace(rawText) && old(attachments) == []) && aiAvailable && partsRead && tokens <= TokenLimit ==>
        !tokenWarning && attachments == [] && saved == sessions &&
        activeId == (if old(activeId).None? then Some(NewSessionId(now)) else old(activeId)) &&
        sessions == SortSessions(Conversation(old(sessions), old(activeId), old(attachments),
                                              Trim(rawText), Trim(rawInstruction), pkbParts, generatedTitle, reply, now)) &&
        notice == (if reply.Streamed? then old(notice) else Some(ChatFailed(reply.message)))
    {
      TrimBlank(rawText);
      var text := Trim(rawText);
      if text == "" && attachments == [] {
        return;
      }
      if !aiAvailable {
        notice := Some(AiUnavailable);
        return;
      }
      tokenWarning := false;
      if !partsRead {
        return;
      }
      if tokens > TokenLimit {
        tokenWarning := true;
        return;
      }
      Deliver(text, Trim(rawInstruction), pkbParts, generatedTitle, reply, now);
    }

    /** The part of `sendMessage` after its checks: record the exchange, then sort and save. */
    method Deliver(text: string, instruction: string, pkbParts: seq<Part>,
                   generatedTitle: Option<string>, reply: StreamReply, now: Millis)
      requires Valid()
      modifies this`sessions, this`saved, this`activeId, this`attachments, this`notice
      ensures Valid()
      ensures attachments == [] && saved == sessions
      ensures activeId == if old(activeId).None? then Some(NewSessionId(now)) else old(activeId)
      ensures sessions == SortSessions(Conversation(old(sessions), old(activeId), old(attachments),
                                                    text, instruction, pkbParts, generatedTitle, reply, now))
      ensures notice == if reply.Streamed? then old(notice) else Some(ChatFailed(reply.message))
    {
      var updated := Conversation(sessions, activeId, attachments, text, instruction, pkbParts, generatedTitle, reply, now);
      Settle(reply, now);
      Install(updated);
    }

    /** What `sendMessage` does besides the list: the new session becomes active, the input is cleared, a failure is shown. */
    method Settle(reply: StreamReply, now: Millis)
      modifies this`activeId, this`attachments, this`notice
      ensures activeId == if old(activeId).None? then Some(NewSessionId(now)) else old(activeId)
      ensures attachments == []
      ensures notice == if reply.Streamed? then old(notice) else Some(ChatFailed(reply.message))
    {
      if activeId.None? {
        activeId := Some(NewSessionId(now));
      }
      attachments := [];
      if !reply.Streamed? {
        notice := Some(ChatFailed(reply.message));
      }
    }

    /** Make `s` the list, then `sortAndSaveChatHistory`. */
    method Install(s: seq<ChatSession>)
      requires activeId.Some? ==> FindSession(s, activeId.value) >= 0
      modifies this`sessions, this`saved
      ensures Valid()
      ensures sessions == SortSessions(s) && saved == sessions
    {
      sessions := s;
      SortAndSave();
    }

    /** The pin action: flip `isPinned` of the session, then re-sort and save. */
    method TogglePin(sessionId: string)
      requires Valid()
      modifies this`sessions, this`saved
      ensures Valid()
      ensures var i := FindSession(old(sessions), sessionId);
        i == -1 ==> sessions == old(sessions) && saved == old(saved)
      ensures var i := FindSession(old(sessions), sessionId);
        i >= 0 ==> (saved == sessions &&
          sessions == SortSessions(old(sessions)[i := old(sessions)[i].(isPinned := !old(sessions)[i].isPinned)]))
    {
      var i := FindSession(sessions, sessionId);
      if i == -1 {
        return;
      }
      if activeId.Some? {
        ReplaceKeepsFind(sessions, i, sessions[i].(isPinned := !sessions[i].isPinned), activeId.value);
      }
      sessions := sessions[i := sessions[i].(isPinned := !sessions[i].isPinned)];
      SortAndSave();
    }

    /** The rename action, when the title input loses focus. */
    method Rename(sessionId: string, rawTitle: string)
      requires Valid()
      modifies this`sessions, this`saved
      ensures Valid()
      ensures var i := FindSession(old(sessions), sessionId);
        i == -1 ==> sessions == old(sessions) && saved == old(saved)
      ensures var i := FindSession(old(sessions), sessionId);
        i >= 0 ==> (saved == sessions &&
          sessions == SortSessions(old(sessions)[i := old(sessions)[i].(title := RenamedTitle(rawTitle))]))
    {
      var i := FindSession(sessions, sessionId);
      if i == -1 {
        return;
      }
      if activeId.Some? {
        ReplaceKeepsFind(sessions, i, sessions[i].(title := RenamedTitle(rawTitle)), activeId.value);
      }
      sessions := sessions[i := sessions[i].(title := RenamedTitle(rawTitle))];
      SortAndSave();
    }

    /**
     * `handleDeleteChat`, reached only for a listed session: once confirmed,
     * every session with this id goes; the rest keep their order. An id no
     * session has is ignored before any question is asked.
     */
    method DeleteChat(sessionId: string, confirmed: bool)
      requires Valid()
      modifies this`sessions, this`saved, this`activeId, this`attachments
      ensures Valid()
      ensures FindSession(old(sessions), sessionId) == -1 ==>
        sessions == old(sessions) && saved == old(saved) && activeId == old(activeId) && attachments == old(attachments)
      ensures !confirmed ==>
        sessions == old(sessions) && saved == old(saved) && activeId == old(activeId) && attachments == old(attachments)
      ensures confirmed ==> sessions == WithoutSession(old(sessions), sessionId)
      ensures confirmed && FindSession(old(sessions), sessionId) >= 0 ==> saved == sessions
      ensures confirmed ==> forall s :: s in sessions ==> s.id != sessionId
      ensures confirmed && old(activeId) == Some(sessionId) ==> activeId == None && attachments == []
      ensures confirmed && old(activeId) != Some(sessionId) ==> activeId == old(activeId) && attachments == old(attachments)
    {
      if FindSession(sessions, sessionId) == -1 {
        WithoutAbsentSession(sessions, sessionId);
        return;
      }
      if !confirmed {
        return;
      }
      var before := sessions;
      sessions := WithoutSession(sessions, sessionId);
      if activeId == Some(sessionId) {
        activeId := None;
        attachments := [];
      } else if activeId.Some? {
        RemovalKeepsFind(before, sessionId, activeId.value);
      }
      SortSortedIdentity(sessions);
      SortAndSave();
    }

    /** The delete action of a message of the active session: exactly that message goes. */
    method DeleteMessage(messageId: int)
      requires Valid()
      modifies this`sessions, this`saved
      ensures Valid()
      ensures var i := if old(activeId).Some? then FindSession(old(sessions), old(activeId).value) else -1;
        var k := if i >= 0 then FindMessage(old(sessions)[i].history, messageId) else -1;
        messageId != 0 && k >= 0 ==>
          saved == sessions && sessions == SortSessions(DropMessage(old(sessions), i, k))
      ensures var i := if old(activeId).Some? then FindSession(old(sessions), old(activeId).value) else -1;
        var k := if i >= 0 then FindMessage(old(sessions)[i].history, messageId) else -1;
        messageId == 0 || k < 0 ==> sessions == old(sessions) && saved == old(saved)
    {
      if messageId == 0 || activeId.None? {
        return;
      }
      var i := FindSession(sessions, activeId.value);
      var h := sessions[i].history;
      var k := FindMessage(h, messageId);
      if k == -1 {
        return;
      }
      var r := DropMessage(sessions, i, k);
      ReplaceKeepsFind(sessions, i, r[i], activeId.value);
      assert sessions[i := r[i]] == r;
      Install(r);
    }

    /**
     * The regenerate action: when the message follows a user message, the
     * history is cut back to end with that user message, whose text is
     * returned to be sent again (`sendMessage` with it in the input box).
     * Nothing is saved here.
     */
    method Regenerate(messageId: int) returns (resend: Option<string>)
      requires Valid()
      modifies this`sessions
      ensures Valid()
      ensures var i := if old(activeId).Some? then FindSession(old(sessions), old(activeId).value) else -1;
        var k := if i >= 0 then FindMessage(old(sessions)[i].history, messageId) else -1;
        if messageId != 0 && k > 0 && old(sessions)[i].history[k - 1].role == User then
          var h := old(sessions)[i].history;
          sessions == old(sessions)[i := old(sessions)[i].(history := h[..k])] && resend == Some(h[k - 1].text)
        else
          sessions == old(sessions) && resend == None
    {
      resend := None;
      if messageId == 0 || activeId.None? {
        return;
      }
      var i := FindSession(sessions, activeId.value);
      var h := sessions[i].history;
      var k := FindMessage(h, messageId);
      if k > 0 && h[k - 1].role == User {
        SetHistory(i, h[..k]);
        resend := Some(h[k - 1].text);
      }
    }

    /** Give session `i` the history `h`, leaving the order alone (the sort key is not the history). */
    method SetHistory(i: nat, h: seq<ChatMessage>)
      requires Valid() && i < |sessions|
      modifies this`sessions
      ensures Valid()
      ensures sessions == old(sessions)[i := old(sessions)[i].(history := h)]
    {
      if activeId.Some? {
        ReplaceKeepsFind(sessions, i, sessions[i].(history := h), activeId.value);
      }
      HistoryKeepsSorted(sessions, i, h);
      sessions := sessions[i := sessions[i].(history := h)];
    }
  }
}

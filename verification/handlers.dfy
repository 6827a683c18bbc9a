/**
 * The request handlers of the chat service, each a function from the store
 * (and the request) to the store afterwards and the response.
 */
module Handlers {
  import opened Optional
  import opened Text
  import opened ObjectIds
  import opened Store
  import Reply
  import Sorting

  /** A handler's answer: a value, or an HTTP error status with its detail. */
  datatype Response<T> = Ok(value: T) | Fail(status: nat, detail: string)

  /** What a request leaves behind: the store afterwards and the response. */
  datatype Outcome<T> = Outcome(store: Store, response: Response<T>)

  datatype ConversationOut = ConversationOut(id: string, title: string)

  datatype MessageOut = MessageOut(
    id: string,
    conversationId: string,
    role: string,
    content: string,
    createdAt: Option<string>)

  datatype ChatOut = ChatOut(conversationId: string, reply: MessageOut)

  datatype ChatRequest = ChatRequest(message: string, conversationId: Option<string>)

  const BadRequest := 400
  /** An exception escaping a handler, or a result its response model rejects. */
  const ServerError := 500
  const EmptyMessage := "Message cannot be empty"
  const InvalidConversation := "Invalid conversation_id"
  const InternalError := "Internal Server Error"

  const DefaultTitle := "New Chat"
  const UntitledTitle := "Chat"
  /** How many characters of the first message a new conversation's title keeps. */
  const TitleLength := 40

  const IdKey := "id"
  const ConversationKey := "conversation_id"

  /**
   * `to_str_id(doc)`: the document's fields with `_id` replaced by `id`, its
   * string form, and an ObjectId `conversation_id` replaced by its string form.
   */
  function ToStrId(d: Doc): (r: Fields)
    ensures r.Keys == d.fields.Keys - {"_id"} + {IdKey}
    ensures r[IdKey] == Str(d.id) && Parse(r[IdKey].text) == Some(d.id)
    ensures ConversationKey in d.fields ==>
      r[ConversationKey] == (if d.fields[ConversationKey].Oid? then Str(d.fields[ConversationKey].id) else d.fields[ConversationKey])
    ensures forall k :: k in r && k != IdKey && k != ConversationKey ==> r[k] == d.fields[k]
  {
    ParseFormat(d.id);
    var base := (d.fields - {"_id"})[IdKey := Str(d.id)];
    if ConversationKey in base && base[ConversationKey].Oid? then
      base[ConversationKey := Str(base[ConversationKey].id)]
    else base
  }

  // ---------------------------------------------------------------------
  // POST /conversations

  /** `create_conversation`: stores a conversation, titled "New Chat" when no title is given. */
  function CreateConversation(s: Store, title: Option<string>): (r: Outcome<ConversationOut>)
    ensures r.response.Ok?
    ensures r.response.value.title == (if title == None || title == Some("") then DefaultTitle else title.value)
    ensures r.store.messages == s.messages
    ensures |r.store.conversations| == |s.conversations| + 1
    ensures r.store.conversations[..|s.conversations|] == s.conversations
    ensures var d := r.store.conversations[|s.conversations|];
      d.id == r.response.value.id && "title" in d.fields && d.fields["title"] == Str(r.response.value.title)
  {
    var t := if title.None? || title.value == "" then DefaultTitle else title.value;
    var ins := Insert(s, Conversations, map["title" := Str(t)]);
    Outcome(ins.store, Ok(ConversationOut(ins.id, t)))
  }

  // ---------------------------------------------------------------------
  // GET /conversations

  /** The title a listed conversation shows: its stored title, or "Chat" when it has none. */
  function ShownTitle(d: Doc): Value {
    if "title" in d.fields then d.fields["title"] else Str(UntitledTitle)
  }

  /** One entry of the conversation list, checked against the response model. */
  function ConversationEntry(d: Doc): Response<ConversationOut> {
    var r := ToStrId(d);
    var id := r[IdKey];
    var title := if "title" in r then r["title"] else Str(UntitledTitle);
    if id.Str? && title.Str? then Ok(ConversationOut(id.text, title.text))
    else Fail(ServerError, InternalError)
  }

  function ConversationEntries(docs: seq<Doc>): (r: Response<seq<ConversationOut>>)
    ensures r.Ok? <==> forall i :: 0 <= i < |docs| ==> ConversationEntry(docs[i]).Ok?
    ensures r.Ok? ==> |r.value| == |docs| && forall i :: 0 <= i < |docs| ==> ConversationEntry(docs[i]) == Ok(r.value[i])
    ensures r.Fail? ==> r == Fail(ServerError, InternalError)
  {
    if docs == [] then Ok([])
    else
      var init := docs[..|docs| - 1];
      match ConversationEntries(init)
      case Fail(status, detail) => Fail(status, detail)
      case Ok(entries) =>
        match ConversationEntry(docs[|docs| - 1])
        case Fail(status, detail) => Fail(status, detail)
        case Ok(entry) =>
          ConversationEntriesAppend(docs, entries, entry);
          Ok(entries + [entry])
  }

  lemma ConversationEntriesAppend(docs: seq<Doc>, entries: seq<ConversationOut>, entry: ConversationOut)
    requires docs != [] && |entries| == |docs| - 1
    requires forall i :: 0 <= i < |docs| - 1 ==> ConversationEntry(docs[..|docs| - 1][i]) == Ok(entries[i])
    requires ConversationEntry(docs[|docs| - 1]) == Ok(entry)
    ensures forall i :: 0 <= i < |docs| ==> ConversationEntry(docs[i]) == Ok((entries + [entry])[i])
  {
    forall i | 0 <= i < |docs|
      ensures ConversationEntry(docs[i]) == Ok((entries + [entry])[i])
    {
      if i < |docs| - 1 {
        assert docs[..|docs| - 1][i] == docs[i];
      }
    }
  }

  /**
   * The sort key of a list entry, `x.get("created_at", "")`: the entries
   * hold only `id` and `title`, so every entry gets the same key.
   */
  function EntryCreatedAt(e: ConversationOut): int {
    0
  }

  /** `list_conversations`: every conversation, sorted on `EntryCreatedAt`. */
  function ListConversations(s: Store): Response<seq<ConversationOut>> {
    match ConversationEntries(s.conversations)
    case Fail(status, detail) => Fail(status, detail)
    case Ok(entries) => Ok(Sorting.SortByKey(entries, EntryCreatedAt))
  }

  /**
   * The list comes out in store order, not newest first: the sort key is the
   * same for every entry and Python's sort is stable. It fails only when a
   * stored title is not a string.
   */
  lemma ListConversationsInStoreOrder(s: Store)
    ensures var r := ListConversations(s);
      && (r.Ok? <==> forall i :: 0 <= i < |s.conversations| ==> ShownTitle(s.conversations[i]).Str?)
      && (r.Ok? ==> |r.value| == |s.conversations|)
      && (r.Ok? ==> forall i :: 0 <= i < |s.conversations| ==>
            r.value[i] == ConversationOut(s.conversations[i].id, ShownTitle(s.conversations[i]).text))
  {
    forall i | 0 <= i < |s.conversations| {
      EntryShown(s.conversations[i]);
    }
    if ConversationEntries(s.conversations).Ok? {
      Sorting.SortByKeyOfSorted(ConversationEntries(s.conversations).value, EntryCreatedAt);
    }
  }

  lemma EntryShown(d: Doc)
    ensures ConversationEntry(d).Ok? <==> ShownTitle(d).Str?
    ensures ConversationEntry(d).Ok? ==> ConversationEntry(d) == Ok(ConversationOut(d.id, ShownTitle(d).text))
  {
    assert "title" in ToStrId(d) <==> "title" in d.fields;
  }

  /** A conversation created by `create_conversation` is listed last, with its id and title. */
  lemma CreateThenList(s: Store, title: Option<string>)
    requires ListConversations(s).Ok?
    ensures var c := CreateConversation(s, title);
      ListConversations(c.store) == Ok(ListConversations(s).value + [c.response.value])
  {
    var c := CreateConversation(s, title);
    var d := Doc(c.response.value.id, map["title" := Str(c.response.value.title), CreatedAt := Time(s.serial)]);
    assert c.store.conversations == s.conversations + [d];
    EntryShown(d);
    EntriesSnoc(s.conversations, d);
    Sorting.SortByKeyOfSorted(ConversationEntries(s.conversations).value, EntryCreatedAt);
    Sorting.SortByKeyOfSorted(ConversationEntries(s.conversations).value + [c.response.value], EntryCreatedAt);
  }

  /** Listing one more conversation adds its entry at the end. */
  lemma EntriesSnoc(docs: seq<Doc>, d: Doc)
    requires ConversationEntries(docs).Ok? && ConversationEntry(d).Ok?
    ensures ConversationEntries(docs + [d]) == Ok(ConversationEntries(docs).value + [ConversationEntry(d).value])
  {
    assert (docs + [d])[..|docs|] == docs;
  }

  // ---------------------------------------------------------------------
  // GET /messages

  /** The documents filed under conversation `c`: `get_documents("message", {"conversation_id": c})`. */
  function MessagesOf(s: Store, c: ObjectId): seq<Doc> {
    Find(s.messages, ConversationKey, Oid(c))
  }

  /**
   * The model's condition for sorting the documents on `created_at`: there is
   * at most one document, so no keys are compared, or every key is a datetime.
   * A missing or `None` key makes Python's comparison raise `TypeError`, and so
   * do two keys of different types. Python also sorts keys that are all
   * strings or all ObjectIds; this condition rejects those, which a store
   * written through `Insert` never holds (`StoredMessagesSortable`).
   */
  predicate Sortable(docs: seq<Doc>) {
    |docs| <= 1 || forall i :: 0 <= i < |docs| ==> HasTimestamp(docs[i])
  }

  predicate FiledUnder(d: Doc, c: ObjectId) {
    ConversationKey in d.fields && d.fields[ConversationKey] == Oid(c)
  }

  /** One entry of the message list; `iso` is `datetime.isoformat`. */
  function MessageEntry(d: Doc, c: ObjectId, iso: Timestamp -> string): (r: Response<MessageOut>)
    requires FiledUnder(d, c)
    ensures r.Ok? ==> r.value.id == d.id && r.value.conversationId == c
  {
    var r := ToStrId(d);
    var createdAt := if CreatedAt in r && r[CreatedAt].Time? then Some(iso(r[CreatedAt].at)) else None;
    var id := r[IdKey];
    var role := if "role" in r then r["role"] else Str("user");
    var content := if "content" in r then r["content"] else Str("");
    if id.Str? && role.Str? && content.Str? then
      Ok(MessageOut(id.text, r[ConversationKey].text, role.text, content.text, createdAt))
    else Fail(ServerError, InternalError)
  }

  function MessageEntries(docs: seq<Doc>, c: ObjectId, iso: Timestamp -> string): (r: Response<seq<MessageOut>>)
    requires forall i :: 0 <= i < |docs| ==> FiledUnder(docs[i], c)
    ensures r.Ok? <==> forall i :: 0 <= i < |docs| ==> MessageEntry(docs[i], c, iso).Ok?
    ensures r.Ok? ==> |r.value| == |docs| && forall i :: 0 <= i < |docs| ==> MessageEntry(docs[i], c, iso) == Ok(r.value[i])
    ensures r.Ok? ==> forall i :: 0 <= i < |r.value| ==> r.value[i].conversationId == c
    ensures r.Fail? ==> r == Fail(ServerError, InternalError)
  {
    if docs == [] then Ok([])
    else
      var init := docs[..|docs| - 1];
      match MessageEntries(init, c, iso)
      case Fail(status, detail) => Fail(status, detail)
      case Ok(entries) =>
        match MessageEntry(docs[|docs| - 1], c, iso)
        case Fail(status, detail) => Fail(status, detail)
        case Ok(entry) =>
          EntriesAppend(docs, c, iso, entries, entry);
          Ok(entries + [entry])
  }

  /** Entries for all but the last document, followed by the last one's entry, are entries for all. */
  lemma EntriesAppend(docs: seq<Doc>, c: ObjectId, iso: Timestamp -> string, entries: seq<MessageOut>, entry: MessageOut)
    requires docs != [] && forall i :: 0 <= i < |docs| ==> FiledUnder(docs[i], c)
    requires |entries| == |docs| - 1
    requires forall i :: 0 <= i < |docs| - 1 ==> MessageEntry(docs[..|docs| - 1][i], c, iso) == Ok(entries[i])
    requires MessageEntry(docs[|docs| - 1], c, iso) == Ok(entry)
    ensures forall i :: 0 <= i < |docs| ==> MessageEntry(docs[i], c, iso) == Ok((entries + [entry])[i])
  {
    forall i | 0 <= i < |docs|
      ensures MessageEntry(docs[i], c, iso) == Ok((entries + [entry])[i])
    {
      if i < |docs| - 1 {
        assert docs[..|docs| - 1][i] == docs[i];
      }
    }
  }

  lemma SortedFiledUnder(s: Store, c: ObjectId, sorted: seq<Doc>)
    requires multiset(sorted) == multiset(MessagesOf(s, c))
    ensures forall i :: 0 <= i < |sorted| ==> FiledUnder(sorted[i], c)
  {
    FindMembers(s.messages, ConversationKey, Oid(c));
    forall i | 0 <= i < |sorted|
      ensures FiledUnder(sorted[i], c)
    {
      assert sorted[i] in multiset(MessagesOf(s, c));
    }
  }

  /** `list_messages(conversation_id)`; `iso` is `datetime.isoformat`. */
  function ListMessages(s: Store, conversationId: string, iso: Timestamp -> string): (r: Response<seq<MessageOut>>)
    ensures r == Fail(BadRequest, InvalidConversation) <==> !IsIdText(conversationId)
    ensures r.Ok? ==> forall i :: 0 <= i < |r.value| ==> r.value[i].conversationId == Lower(conversationId)
  {
    match Parse(conversationId)
    case None => Fail(BadRequest, InvalidConversation)
    case Some(c) =>
      var docs := MessagesOf(s, c);
      if !Sortable(docs) then Fail(ServerError, InternalError)
      else
        var sorted := Sorting.SortByKey(docs, StampOf);
        SortedFiledUnder(s, c, sorted);
        MessageEntries(sorted, c, iso)
  }

  /** The role a listed message shows: its stored role, or "user" when it has none. */
  function ShownRole(d: Doc): Value {
    if "role" in d.fields then d.fields["role"] else Str("user")
  }

  /** The content a listed message shows: its stored content, or "" when it has none. */
  function ShownContent(d: Doc): Value {
    if "content" in d.fields then d.fields["content"] else Str("")
  }

  /** `created_at` as listed: the ISO text of a timestamp, and nothing for any other value. */
  function ShownCreatedAt(d: Doc, iso: Timestamp -> string): Option<string> {
    if HasTimestamp(d) then Some(iso(d.fields[CreatedAt].at)) else None
  }

  /** A message document whose role and content the response model accepts. */
  predicate Listable(d: Doc) {
    ShownRole(d).Str? && ShownContent(d).Str?
  }

  /** How a listable message document of conversation `c` is listed. */
  function Listed(d: Doc, c: ObjectId, iso: Timestamp -> string): MessageOut
    requires Listable(d)
  {
    MessageOut(d.id, c, ShownRole(d).text, ShownContent(d).text, ShownCreatedAt(d, iso))
  }

  /** `entries` lists `docs`, one entry per document in the same order, under conversation `c`. */
  ghost predicate ListedAs(entries: seq<MessageOut>, docs: seq<Doc>, c: ObjectId, iso: Timestamp -> string) {
    && |entries| == |docs|
    && forall i :: 0 <= i < |docs| ==> Listable(docs[i]) && entries[i] == Listed(docs[i], c, iso)
  }

  /** `sorted` holds the documents of `docs` by creation time, equal times in their order in `docs`. */
  ghost predicate StableOrder(sorted: seq<Doc>, docs: seq<Doc>) {
    && multiset(sorted) == multiset(docs)
    && Sorting.SortedBy(sorted, StampOf)
    && forall k :: Sorting.WithKey(sorted, StampOf, k) == Sorting.WithKey(docs, StampOf, k)
  }

  lemma MessageEntryShape(d: Doc, c: ObjectId, iso: Timestamp -> string)
    requires FiledUnder(d, c)
    ensures MessageEntry(d, c, iso).Ok? <==> Listable(d)
    ensures Listable(d) ==> MessageEntry(d, c, iso) == Ok(Listed(d, c, iso))
  {
    var r := ToStrId(d);
    assert "role" in r <==> "role" in d.fields;
    assert "content" in r <==> "content" in d.fields;
    assert CreatedAt in r <==> CreatedAt in d.fields;
  }

  lemma EntriesListed(docs: seq<Doc>, c: ObjectId, iso: Timestamp -> string)
    requires forall i :: 0 <= i < |docs| ==> FiledUnder(docs[i], c)
    ensures MessageEntries(docs, c, iso).Ok? <==> forall i :: 0 <= i < |docs| ==> Listable(docs[i])
    ensures MessageEntries(docs, c, iso).Ok? ==> ListedAs(MessageEntries(docs, c, iso).value, docs, c, iso)
  {
    forall i | 0 <= i < |docs| {
      MessageEntryShape(docs[i], c, iso);
    }
  }

  /**
   * For a well-formed id, the list holds exactly the messages filed under that
   * conversation, by creation time with ties in store order. It fails only
   * when two or more of them lack a timestamp, or a role or content is not text.
   */
  lemma ListMessagesContents(s: Store, conversationId: string, iso: Timestamp -> string)
    requires IsIdText(conversationId)
    ensures var c := Parse(conversationId).value;
      var docs := MessagesOf(s, c);
      var r := ListMessages(s, conversationId, iso);
      && (r.Ok? <==> Sortable(docs) && forall i :: 0 <= i < |docs| ==> Listable(docs[i]))
      && (r.Fail? ==> r == Fail(ServerError, InternalError))
      && (r.Ok? ==> exists sorted :: StableOrder(sorted, docs) && ListedAs(r.value, sorted, c, iso))
  {
    var c := Parse(conversationId).value;
    var docs := MessagesOf(s, c);
    if Sortable(docs) {
      var sorted := Sorting.SortByKey(docs, StampOf);
      SortedFiledUnder(s, c, sorted);
      EntriesListed(sorted, c, iso);
      SortStable(docs);
      ListableAlike(sorted, docs);
      var r := MessageEntries(sorted, c, iso);
      if r.Ok? {
        assert StableOrder(sorted, docs) && ListedAs(r.value, sorted, c, iso);
      }
    }
  }

  lemma SortStable(docs: seq<Doc>)
    ensures StableOrder(Sorting.SortByKey(docs, StampOf), docs)
  {
    forall k
      ensures Sorting.WithKey(Sorting.SortByKey(docs, StampOf), StampOf, k) == Sorting.WithKey(docs, StampOf, k)
    {
      Sorting.SortByKeyStable(docs, StampOf, k);
    }
  }

  /** Two arrangements of the same documents are listable alike. */
  lemma ListableAlike(a: seq<Doc>, b: seq<Doc>)
    requires multiset(a) == multiset(b)
    ensures (forall i :: 0 <= i < |a| ==> Listable(a[i])) <==> (forall i :: 0 <= i < |b| ==> Listable(b[i]))
  {
    assert forall i :: 0 <= i < |a| ==> a[i] in multiset(b);
    assert forall i :: 0 <= i < |b| ==> b[i] in multiset(a);
  }

  lemma AscendingSorted(docs: seq<Doc>)
    requires Ascending(docs)
    ensures Sorting.SortedBy(docs, StampOf)
  {
    var key: Doc -> int := StampOf;
    forall i, j | 0 <= i < j < |docs|
      ensures key(docs[i]) <= key(docs[j])
    {
      assert StampOf(docs[i]) < StampOf(docs[j]);
    }
  }

  /**
   * In a store the handlers wrote, timestamps follow store order, so the list
   * is the conversation's messages in the order they were stored.
   */
  lemma ListMessagesInStoreOrder(s: Store, conversationId: string, iso: Timestamp -> string)
    requires Valid(s) && IsIdText(conversationId)
    ensures var c := Parse(conversationId).value;
      var docs := MessagesOf(s, c);
      var r := ListMessages(s, conversationId, iso);
      && (r.Ok? <==> forall i :: 0 <= i < |docs| ==> Listable(docs[i]))
      && (r.Ok? ==> ListedAs(r.value, docs, c, iso))
  {
    var c := Parse(conversationId).value;
    var docs := MessagesOf(s, c);
    FindAscending(s.messages, ConversationKey, Oid(c));
    FindMembers(s.messages, ConversationKey, Oid(c));
    assert Sortable(docs) by {
      forall i | 0 <= i < |docs|
        ensures HasTimestamp(docs[i])
      {
        assert docs[i] in s.messages;
      }
    }
    AscendingSorted(docs);
    Sorting.SortByKeyOfSorted(docs, StampOf);
    EntriesListed(docs, c, iso);
  }

  /** Every message of a store the handlers wrote carries a datetime `created_at`, so the sort succeeds. */
  lemma StoredMessagesSortable(s: Store, c: ObjectId)
    requires Valid(s)
    ensures Sortable(MessagesOf(s, c))
  {
    FindMembers(s.messages, ConversationKey, Oid(c));
    forall i | 0 <= i < |MessagesOf(s, c)|
      ensures HasTimestamp(MessagesOf(s, c)[i])
    {
      assert MessagesOf(s, c)[i] in s.messages;
    }
  }

  // ---------------------------------------------------------------------
  // POST /chat

  /** `not conv_id`: the request names no conversation, or an empty one. */
  predicate StartsConversation(req: ChatRequest) {
    req.conversationId.None? || req.conversationId.value == ""
  }

  /** The title of a conversation a chat message starts: the text's first 40 characters. */
  function ChatTitle(t: string): string {
    if Take(t, TitleLength) == [] then DefaultTitle else Take(t, TitleLength)
  }

  /** The fields of a stored chat message. */
  function MessageFields(c: ObjectId, role: string, content: string): Fields {
    map[ConversationKey := Oid(c), "role" := Str(role), "content" := Str(content)]
  }

  /** The store after the conversation step, and the id text the request goes on with. */
  datatype Opened = Opened(store: Store, convId: string)

  /** The conversation step of `chat`: starts a conversation when the request names none. */
  function OpenConversation(s: Store, req: ChatRequest, t: string): (r: Opened)
    ensures StartsConversation(req) ==> Parse(r.convId) == Some(MintId(s.serial))
    ensures r.convId == if StartsConversation(req) then MintId(s.serial) else req.conversationId.value
    ensures r.store.messages == s.messages
    ensures r.store.serial == s.serial + if StartsConversation(req) then 1 else 0
  {
    if StartsConversation(req) then
      var started := Insert(s, Conversations, map["title" := Str(ChatTitle(t))]);
      ParseFormat(started.id);
      Opened(started.store, started.id)
    else Opened(s, req.conversationId.value)
  }

  /**
   * `chat(req)`, with `generate` in the place of `generate_assistant_reply`:
   * stores the user's message and the reply, and answers with the reply.
   * A rejected request stores nothing, not even a conversation.
   */
  function ChatWith(s: Store, req: ChatRequest, generate: string -> string): (r: Outcome<ChatOut>)
    ensures r.response.Ok? <==> !AllSpace(req.message) && (StartsConversation(req) || IsIdText(req.conversationId.value))
    ensures r.response.Fail? ==>
      r.response == Fail(BadRequest, if AllSpace(req.message) then EmptyMessage else InvalidConversation)
    ensures r.response.Fail? ==> r.store == s
  {
    var t := Strip(req.message);
    if t == [] then Outcome(s, Fail(BadRequest, EmptyMessage))
    else ChatSteps(s, req, t, generate)
  }

  /** The steps of `chat` after the blank check, for the stripped text `t`. */
  function ChatSteps(s: Store, req: ChatRequest, t: string, generate: string -> string): (r: Outcome<ChatOut>)
    ensures r.response.Ok? <==> StartsConversation(req) || IsIdText(req.conversationId.value)
    ensures r.response.Fail? ==> r.response == Fail(BadRequest, InvalidConversation) && r.store == s
  {
    var step := OpenConversation(s, req, t);
    match Parse(step.convId)
    case None => Outcome(step.store, Fail(BadRequest, InvalidConversation))
    case Some(c) =>
      var user := Insert(step.store, Messages, MessageFields(c, "user", t));
      var reply := generate(t);
      var assistant := Insert(user.store, Messages, MessageFields(c, "assistant", reply));
      var convId := step.convId;
      Outcome(assistant.store, Ok(ChatOut(convId, MessageOut(assistant.id, convId, "assistant", reply, None))))
  }

  /** `chat(req)` with the built-in assistant. */
  function Chat(s: Store, req: ChatRequest): Outcome<ChatOut> {
    ChatWith(s, req, Reply.GenerateAssistantReply)
  }

  /** The serial number the user's message gets: one later when the chat starts a conversation. */
  function TurnSerial(s: Store, req: ChatRequest): nat {
    s.serial + if StartsConversation(req) then 1 else 0
  }

  /** A stored message of conversation `c`, as `create_document` stores it at serial `n`. */
  function StoredMessage(c: ObjectId, role: string, content: string, n: nat): Doc {
    Doc(MintId(n), MessageFields(c, role, content)[CreatedAt := Time(n)])
  }

  /**
   * A chat that names no conversation starts one, titled with the first 40
   * characters of the stripped message (never the "New Chat" fallback, as the
   * message is not blank), and answers with its id.
   */
  lemma ChatStartsConversation(s: Store, req: ChatRequest, generate: string -> string)
    requires !AllSpace(req.message) && StartsConversation(req)
    ensures var r := ChatWith(s, req, generate);
      && r.response.Ok?
      && r.store.conversations == s.conversations +
           [Doc(MintId(s.serial), map["title" := Str(Take(Strip(req.message), TitleLength)), CreatedAt := Time(s.serial)])]
      && r.response.value.conversationId == MintId(s.serial)
  {
    var t := Strip(req.message);
    assert Take(t, TitleLength) != [];
    assert map["title" := Str(Take(t, TitleLength))][CreatedAt := Time(s.serial)]
        == map["title" := Str(Take(t, TitleLength)), CreatedAt := Time(s.serial)];
  }

  /** A chat that names a conversation leaves the conversations alone. */
  lemma ChatKeepsConversations(s: Store, req: ChatRequest, generate: string -> string)
    requires !StartsConversation(req)
    ensures ChatWith(s, req, generate).store.conversations == s.conversations
  {
  }

  /**
   * An accepted chat appends exactly two messages, the stripped user text and
   * the reply to it, both filed under the parsed conversation id; the answer
   * carries the reply, its id, and the conversation id as the client sent it.
   */
  lemma ChatAppendsTurn(s: Store, req: ChatRequest, generate: string -> string)
    requires ChatWith(s, req, generate).response.Ok?
    ensures var r := ChatWith(s, req, generate);
      var convId := r.response.value.conversationId;
      && convId == (if StartsConversation(req) then MintId(s.serial) else req.conversationId.value)
      && Parse(convId).Some?
      && var c := Parse(convId).value;
         var n := TurnSerial(s, req);
         var reply := generate(Strip(req.message));
         && r.store.messages == s.messages +
              [StoredMessage(c, "user", Strip(req.message), n), StoredMessage(c, "assistant", reply, n + 1)]
         && r.response.value.reply == MessageOut(MintId(n + 1), convId, "assistant", reply, None)
         && r.store.serial == n + 2
  {
    StepsAppendTurn(s, req, Strip(req.message), generate);
  }

  lemma StepsAppendTurn(s: Store, req: ChatRequest, t: string, generate: string -> string)
    requires ChatSteps(s, req, t, generate).response.Ok?
    ensures var r := ChatSteps(s, req, t, generate);
      var convId := if StartsConversation(req) then MintId(s.serial) else req.conversationId.value;
      var c := Parse(convId).value;
      var n := TurnSerial(s, req);
      && r.response.value.conversationId == convId
      && r.store.messages == s.messages +
           [StoredMessage(c, "user", t, n), StoredMessage(c, "assistant", generate(t), n + 1)]
      && r.response.value.reply == MessageOut(MintId(n + 1), convId, "assistant", generate(t), None)
      && r.store.serial == n + 2
  {
    assert OpenConversation(s, req, t).store.serial == TurnSerial(s, req);
    InsertMessage(OpenConversation(s, req, t).store, Parse(OpenConversation(s, req, t).convId).value, "user", t);
    InsertMessage(Insert(OpenConversation(s, req, t).store, Messages,
                         MessageFields(Parse(OpenConversation(s, req, t).convId).value, "user", t)).store,
                  Parse(OpenConversation(s, req, t).convId).value, "assistant", generate(t));
  }

  /** Storing a chat message appends it, stamped with the store's serial number. */
  lemma InsertMessage(st: Store, c: ObjectId, role: string, content: string)
    ensures Insert(st, Messages, MessageFields(c, role, content))
         == Inserted(st.(messages := st.messages + [StoredMessage(c, role, content, st.serial)], serial := st.serial + 1),
                     MintId(st.serial))
  {
  }

  /** The chat's reply is the built-in rules applied to the message as the client sent it. */
  lemma ChatReplyFollowsRules(s: Store, req: ChatRequest)
    requires Chat(s, req).response.Ok?
    ensures Chat(s, req).response.value.reply.content == Reply.GenerateAssistantReply(req.message)
  {
    ChatAppendsTurn(s, req, Reply.GenerateAssistantReply);
    Reply.ReplyOfStripped(req.message);
  }

  /**
   * The handler never checks that a named conversation exists: a well-formed
   * id that no conversation has is accepted, and its messages are stored
   * under a conversation the store does not hold.
   */
  lemma ChatAcceptsUnknownConversation(s: Store, req: ChatRequest, generate: string -> string)
    requires !AllSpace(req.message) && !StartsConversation(req) && IsIdText(req.conversationId.value)
    requires forall i :: 0 <= i < |s.conversations| ==> s.conversations[i].id != Parse(req.conversationId.value).value
    ensures var r := ChatWith(s, req, generate);
      && r.response.Ok?
      && |r.store.messages| == |s.messages| + 2
      && FiledUnder(r.store.messages[|s.messages|], Parse(req.conversationId.value).value)
      && forall i :: 0 <= i < |r.store.conversations| ==>
           r.store.conversations[i].id != Parse(req.conversationId.value).value
  {
  }

  /** While serial numbers last, a chat keeps the store valid. */
  lemma ChatKeepsValid(s: Store, req: ChatRequest, generate: string -> string)
    requires Valid(s) && s.serial + 3 <= IdSpace
    ensures Valid(ChatWith(s, req, generate).store)
  {
    var t := Strip(req.message);
    if t != [] {
      var step := OpenConversation(s, req, t);
      if StartsConversation(req) {
        InsertFresh(s, Conversations, map["title" := Str(ChatTitle(t))]);
      }
      match Parse(step.convId)
      case None =>
      case Some(c) =>
        InsertFresh(step.store, Messages, MessageFields(c, "user", t));
        var user := Insert(step.store, Messages, MessageFields(c, "user", t));
        InsertFresh(user.store, Messages, MessageFields(c, "assistant", generate(t)));
    }
  }

  /**
   * Listing a conversation after a chat in it shows what it showed before,
   * followed by the user's message and the reply; the listed reply is the
   * one the chat answered with, with the conversation id in canonical form
   * and its creation time added.
   */
  lemma ChatThenListMessages(s: Store, req: ChatRequest, generate: string -> string, iso: Timestamp -> string)
    requires Valid(s) && s.serial + 3 <= IdSpace
    requires ChatWith(s, req, generate).response.Ok?
    requires ListMessages(s, ChatWith(s, req, generate).response.value.conversationId, iso).Ok?
    ensures var r := ChatWith(s, req, generate);
      var convId := r.response.value.conversationId;
      var c := Parse(convId).value;
      var n := TurnSerial(s, req);
      var answer := r.response.value.reply;
      ListMessages(r.store, convId, iso) == Ok(ListMessages(s, convId, iso).value + [
        MessageOut(MintId(n), c, "user", Strip(req.message), Some(iso(n))),
        answer.(conversationId := c, createdAt := Some(iso(n + 1)))])
  {
    ChatAppendsTurn(s, req, generate);
    ChatKeepsValid(s, req, generate);
    TurnThenList(s, ChatWith(s, req, generate).store, ChatWith(s, req, generate).response.value.conversationId,
                 Strip(req.message), generate(Strip(req.message)), TurnSerial(s, req), iso);
    ListedReply(s, req, generate, iso);
  }

  /** The reply as the listing shows it: the chat's answer with the canonical id and its creation time. */
  lemma ListedReply(s: Store, req: ChatRequest, generate: string -> string, iso: Timestamp -> string)
    requires ChatWith(s, req, generate).response.Ok?
    ensures ChatWith(s, req, generate).response.value.reply.(
              conversationId := Parse(ChatWith(s, req, generate).response.value.conversationId).value,
              createdAt := Some(iso(TurnSerial(s, req) + 1)))
         == MessageOut(MintId(TurnSerial(s, req) + 1), Parse(ChatWith(s, req, generate).response.value.conversationId).value,
                       "assistant", generate(Strip(req.message)), Some(iso(TurnSerial(s, req) + 1)))
  {
    ChatAppendsTurn(s, req, generate);
  }

  /** A turn stored under a conversation is listed after what the conversation listed before. */
  lemma TurnThenList(s: Store, s': Store, convId: string, t: string, reply: string, n: nat, iso: Timestamp -> string)
    requires Valid(s) && Valid(s') && IsIdText(convId)
    requires var c := Parse(convId).value;
      s'.messages == s.messages + [StoredMessage(c, "user", t, n), StoredMessage(c, "assistant", reply, n + 1)]
    requires ListMessages(s, convId, iso).Ok?
    ensures var c := Parse(convId).value;
      ListMessages(s', convId, iso) == Ok(ListMessages(s, convId, iso).value + [
        MessageOut(MintId(n), c, "user", t, Some(iso(n))),
        MessageOut(MintId(n + 1), c, "assistant", reply, Some(iso(n + 1)))])
  {
    var c := Parse(convId).value;
    StoredMessageListed(c, "user", t, n, iso);
    StoredMessageListed(c, "assistant", reply, n + 1, iso);
    ListAfterTurn(s, s', convId, StoredMessage(c, "user", t, n), StoredMessage(c, "assistant", reply, n + 1), iso);
  }

  /** A message the chat stores is listed with its role, content and creation time. */
  lemma StoredMessageListed(c: ObjectId, role: string, content: string, n: nat, iso: Timestamp -> string)
    ensures var d := StoredMessage(c, role, content, n);
      && FiledUnder(d, c) && Listable(d)
      && Listed(d, c, iso) == MessageOut(MintId(n), c, role, content, Some(iso(n)))
  {
  }

  /** Two messages appended under a conversation are listed after what it listed before. */
  lemma ListAfterTurn(s: Store, s': Store, convId: string, u: Doc, a: Doc, iso: Timestamp -> string)
    requires Valid(s) && Valid(s') && IsIdText(convId)
    requires s'.messages == s.messages + [u, a]
    requires FiledUnder(u, Parse(convId).value) && FiledUnder(a, Parse(convId).value)
    requires Listable(u) && Listable(a)
    requires ListMessages(s, convId, iso).Ok?
    ensures var c := Parse(convId).value;
      ListMessages(s', convId, iso) == Ok(ListMessages(s, convId, iso).value + [Listed(u, c, iso), Listed(a, c, iso)])
  {
    var c := Parse(convId).value;
    var docs := MessagesOf(s, c);
    FindTurn(s.messages, u, a, c);
    ListMessagesInStoreOrder(s, convId, iso);
    ListMessagesInStoreOrder(s', convId, iso);
    ListableAppend(docs, u, a);
    ListedAppend(ListMessages(s, convId, iso).value, ListMessages(s', convId, iso).value, docs, u, a, c, iso);
  }

  lemma FindTurn(docs: seq<Doc>, u: Doc, a: Doc, c: ObjectId)
    requires FiledUnder(u, c) && FiledUnder(a, c)
    ensures Find(docs + [u, a], ConversationKey, Oid(c)) == Find(docs, ConversationKey, Oid(c)) + [u, a]
  {
    FindAppend(docs, [u, a], ConversationKey, Oid(c));
    assert Find([u, a], ConversationKey, Oid(c)) == [u, a] by {
      assert [u, a][..1] == [u];
      assert [u][..0] == [];
    }
  }

  lemma ListableAppend(docs: seq<Doc>, u: Doc, a: Doc)
    requires forall i :: 0 <= i < |docs| ==> Listable(docs[i])
    requires Listable(u) && Listable(a)
    ensures forall i :: 0 <= i < |docs + [u, a]| ==> Listable((docs + [u, a])[i])
  {
  }

  lemma ListedAppend(before: seq<MessageOut>, after: seq<MessageOut>, docs: seq<Doc>, u: Doc, a: Doc,
                     c: ObjectId, iso: Timestamp -> string)
    requires Listable(u) && Listable(a)
    requires ListedAs(before, docs, c, iso) && ListedAs(after, docs + [u, a], c, iso)
    ensures after == before + [Listed(u, c, iso), Listed(a, c, iso)]
  {
    var all := docs + [u, a];
    assert all[|docs|] == u && all[|docs| + 1] == a;
    forall i | 0 <= i < |docs|
      ensures after[i] == before[i]
    {
      assert all[i] == docs[i];
    }
  }
}

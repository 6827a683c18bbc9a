/**
 * Two handlers corrected where the code does otherwise: `list_conversations`
 * newest first by creation time, as the comment at main.py:141 says, and
 * `chat` refusing a conversation the store does not hold, so every message
 * belongs to a stored conversation. Each sits next to a lemma about the
 * handler as written that shows the difference.
 */
module Intended {
  import opened Optional
  import opened Text
  import opened ObjectIds
  import opened Store
  import opened Handlers
  import Sorting

  // ---------------------------------------------------------------------
  // GET /conversations, newest first

  /** A list entry with the creation time of its conversation, as the intended sort sees it. */
  datatype Dated = Dated(entry: ConversationOut, at: int)

  /** The sort key `created_at` with `reverse=True`: later entries first. */
  function NewestFirstKey(x: Dated): int {
    -x.at
  }

  /** Each entry paired with the timestamp of the conversation it lists; one without a timestamp counts as the earliest. */
  function DatedEntries(entries: seq<ConversationOut>, docs: seq<Doc>): (r: seq<Dated>)
    requires |entries| == |docs|
    ensures |r| == |docs|
    ensures forall i :: 0 <= i < |r| ==> r[i].entry == entries[i] && r[i].at == StampOf(docs[i])
  {
    seq(|docs|, i requires 0 <= i < |docs| => Dated(entries[i], StampOf(docs[i])))
  }

  /**
   * `list_conversations` as its comment describes it: the same entries,
   * each carrying its conversation's `created_at`, sorted newest first.
   */
  function ListConversationsNewestFirst(s: Store): Response<seq<ConversationOut>> {
    match ConversationEntries(s.conversations)
    case Fail(status, detail) => Fail(status, detail)
    case Ok(entries) =>
      Ok(Undated(Sorting.SortByKey(DatedEntries(entries, s.conversations), NewestFirstKey)))
  }

  /** The entries without their timestamps. */
  function Undated(xs: seq<Dated>): (r: seq<ConversationOut>)
    ensures |r| == |xs|
    ensures forall i :: 0 <= i < |r| ==> r[i] == xs[i].entry
  {
    seq(|xs|, i requires 0 <= i < |xs| => xs[i].entry)
  }

  /** Reversing the dated entries reverses the entries. */
  lemma UndatedReversed(entries: seq<ConversationOut>, docs: seq<Doc>)
    requires |entries| == |docs|
    ensures Undated(Sorting.Reverse(DatedEntries(entries, docs))) == Sorting.Reverse(entries)
  {
    var dated := DatedEntries(entries, docs);
    Sorting.ReverseAgrees(dated, entries, Undated(Sorting.Reverse(dated)), (x: Dated) => x.entry);
  }

  /** In creation order, the dated entries' keys strictly decrease. */
  lemma DatedDescending(entries: seq<ConversationOut>, docs: seq<Doc>)
    requires |entries| == |docs| && Ascending(docs)
    ensures var dated := DatedEntries(entries, docs);
      forall i, j :: 0 <= i < j < |dated| ==> NewestFirstKey(dated[j]) < NewestFirstKey(dated[i])
  {
  }

  /**
   * In a store the handlers wrote, the intended list is the list the code
   * answers, reversed: the most recently created conversation comes first.
   */
  lemma NewestFirstReversesStoreOrder(s: Store)
    requires Valid(s)
    ensures var r := ListConversationsNewestFirst(s);
      && (r.Ok? <==> ListConversations(s).Ok?)
      && (r.Ok? ==> r.value == Sorting.Reverse(ListConversations(s).value))
  {
    if ConversationEntries(s.conversations).Ok? {
      var entries := ConversationEntries(s.conversations).value;
      Sorting.SortByKeyOfSorted(entries, EntryCreatedAt);
      DatedDescending(entries, s.conversations);
      Sorting.SortByKeyOfDescending(DatedEntries(entries, s.conversations), NewestFirstKey);
      UndatedReversed(entries, s.conversations);
    }
  }

  /**
   * The code as written lists the oldest conversation first, and the
   * intended list ends with it.
   */
  lemma OldestListedFirst(s: Store)
    requires Valid(s) && |s.conversations| >= 2 && ListConversations(s).Ok?
    ensures var listed := ListConversations(s).value;
      var n := |s.conversations|;
      var intended := ListConversationsNewestFirst(s);
      && |listed| == n && listed[0].id == s.conversations[0].id
      && (forall j :: 0 < j < n ==> StampOf(s.conversations[0]) < StampOf(s.conversations[j]))
      && intended.Ok? && |intended.value| == n && intended.value[n - 1] == listed[0]
  {
    ListConversationsInStoreOrder(s);
    NewestFirstReversesStoreOrder(s);
    Sorting.ReverseAt(ListConversations(s).value, |s.conversations| - 1);
  }

  // ---------------------------------------------------------------------
  // POST /chat, refusing unknown conversations

  const NotFound := 404
  const UnknownConversation := "Conversation not found"

  /** The store holds a conversation with identifier `c`. */
  predicate Known(s: Store, c: ObjectId) {
    exists i :: 0 <= i < |s.conversations| && s.conversations[i].id == c
  }

  /** Every stored message is filed under a conversation the store holds. */
  ghost predicate Referenced(s: Store) {
    forall i :: 0 <= i < |s.messages| ==>
      exists j :: 0 <= j < |s.conversations| && FiledUnder(s.messages[i], s.conversations[j].id)
  }

  /**
   * `chat(req)` refusing a conversation the store does not hold: a
   * well-formed conversation id that no stored conversation has is refused
   * with 404, storing nothing; every other request is handled as the code
   * handles it. The status and its detail text are this model's choice.
   */
  function ChatChecked(s: Store, req: ChatRequest, generate: string -> string): (r: Outcome<ChatOut>)
    ensures r.response.Ok? <==>
      !AllSpace(req.message) &&
      (StartsConversation(req) || (IsIdText(req.conversationId.value) && Known(s, Parse(req.conversationId.value).value)))
    ensures r.response.Fail? ==> r.store == s
    ensures r.response.Fail? ==> r.response == Fail(
      if AllSpace(req.message) || !IsIdText(req.conversationId.value) then BadRequest else NotFound,
      if AllSpace(req.message) then EmptyMessage
      else if !IsIdText(req.conversationId.value) then InvalidConversation
      else UnknownConversation)
    ensures r.response.Ok? ==> r == ChatWith(s, req, generate)
  {
    if !AllSpace(req.message) && !StartsConversation(req) && IsIdText(req.conversationId.value)
       && !Known(s, Parse(req.conversationId.value).value)
    then Outcome(s, Fail(NotFound, UnknownConversation))
    else ChatWith(s, req, generate)
  }

  /** The intended chat keeps every message filed under a stored conversation. */
  lemma ChatCheckedKeepsReferenced(s: Store, req: ChatRequest, generate: string -> string)
    requires Referenced(s)
    ensures Referenced(ChatChecked(s, req, generate).store)
  {
    if ChatChecked(s, req, generate).response.Ok? {
      if StartsConversation(req) {
        StartedChatReferenced(s, req, generate);
      } else {
        NamedChatReferenced(s, req, generate);
      }
    }
  }

  lemma StartedChatReferenced(s: Store, req: ChatRequest, generate: string -> string)
    requires Referenced(s) && StartsConversation(req) && !AllSpace(req.message)
    ensures Referenced(ChatWith(s, req, generate).store)
  {
    var r := ChatWith(s, req, generate);
    var t := Strip(req.message);
    ChatAppendsTurn(s, req, generate);
    ChatStartsConversation(s, req, generate);
    ParseFormat(MintId(s.serial));
    assert r.store.conversations[|s.conversations|].id == MintId(s.serial);
    TurnKeepsReferenced(s, r.store, StoredMessage(MintId(s.serial), "user", t, s.serial + 1),
                        StoredMessage(MintId(s.serial), "assistant", generate(t), s.serial + 2), MintId(s.serial));
  }

  lemma NamedChatReferenced(s: Store, req: ChatRequest, generate: string -> string)
    requires Referenced(s) && !StartsConversation(req) && !AllSpace(req.message)
    requires IsIdText(req.conversationId.value) && Known(s, Parse(req.conversationId.value).value)
    ensures Referenced(ChatWith(s, req, generate).store)
  {
    var r := ChatWith(s, req, generate);
    var t := Strip(req.message);
    var c := Parse(req.conversationId.value).value;
    ChatAppendsTurn(s, req, generate);
    ChatKeepsConversations(s, req, generate);
    TurnKeepsReferenced(s, r.store, StoredMessage(c, "user", t, s.serial),
                        StoredMessage(c, "assistant", generate(t), s.serial + 1), c);
  }

  /** Two messages filed under a stored conversation keep the invariant, as long as no conversation goes away. */
  lemma TurnKeepsReferenced(s: Store, s': Store, u: Doc, a: Doc, c: ObjectId)
    requires Referenced(s)
    requires s'.messages == s.messages + [u, a]
    requires |s.conversations| <= |s'.conversations|
    requires forall k :: 0 <= k < |s.conversations| ==> s'.conversations[k] == s.conversations[k]
    requires FiledUnder(u, c) && FiledUnder(a, c) && Known(s', c)
    ensures Referenced(s')
  {
    var j :| 0 <= j < |s'.conversations| && s'.conversations[j].id == c;
    forall i | 0 <= i < |s'.messages|
      ensures exists k :: 0 <= k < |s'.conversations| && FiledUnder(s'.messages[i], s'.conversations[k].id)
    {
      if i < |s.messages| {
        var k :| 0 <= k < |s.conversations| && FiledUnder(s.messages[i], s.conversations[k].id);
        assert s'.messages[i] == s.messages[i];
        assert s'.conversations[k] == s.conversations[k];
      } else {
        assert FiledUnder(s'.messages[i], s'.conversations[j].id);
      }
    }
  }

  /**
   * The code as written breaks that invariant: a chat naming a well-formed
   * id of no stored conversation files its messages under it.
   */
  lemma ChatBreaksReferences(s: Store, req: ChatRequest, generate: string -> string)
    requires !AllSpace(req.message) && !StartsConversation(req) && IsIdText(req.conversationId.value)
    requires !Known(s, Parse(req.conversationId.value).value)
    ensures !Referenced(ChatWith(s, req, generate).store)
    ensures ChatChecked(s, req, generate).response == Fail(NotFound, UnknownConversation)
  {
    var r := ChatWith(s, req, generate);
    var c := Parse(req.conversationId.value).value;
    ChatAcceptsUnknownConversation(s, req, generate);
    var i := |s.messages|;
    assert forall k :: 0 <= k < |r.store.conversations| ==> !FiledUnder(r.store.messages[i], r.store.conversations[k].id);
  }
}

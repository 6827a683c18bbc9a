/**
 * Whole conversations: a client sending several messages, one chat request
 * after another, to the same conversation, and then listing it.
 */
module Transcripts {
  import opened Optional
  import opened Text
  import opened ObjectIds
  import opened Store
  import opened Handlers

  /** The store after sending each of `texts`, in order, to conversation `convId`. */
  function Converse(s: Store, convId: string, texts: seq<string>, generate: string -> string): Store
    decreases |texts|
  {
    if texts == [] then s
    else Converse(ChatWith(s, ChatRequest(texts[0], Some(convId)), generate).store, convId, texts[1..], generate)
  }

  /** What the service keeps of each text: the text stripped of surrounding whitespace. */
  function Said(texts: seq<string>): (r: seq<string>)
    ensures |r| == |texts|
  {
    if texts == [] then [] else [Strip(texts[0])] + Said(texts[1..])
  }

  /** The `k`-th kept text is the `k`-th text, stripped. */
  lemma {:induction false} SaidAt(texts: seq<string>, k: nat)
    requires k < |texts|
    ensures Said(texts)[k] == Strip(texts[k])
  {
    if k > 0 {
      SaidAt(texts[1..], k - 1);
    }
  }

  /**
   * The two entries one chat request adds to the listing of conversation `c`
   * when it is stored at serial number `n`: the user's stripped text `t`,
   * then the reply to it.
   */
  function Turn(c: ObjectId, t: string, n: nat, generate: string -> string, iso: Timestamp -> string)
    : seq<MessageOut>
  {
    [MessageOut(MintId(n), c, "user", t, Some(iso(n))),
     MessageOut(MintId(n + 1), c, "assistant", generate(t), Some(iso(n + 1)))]
  }

  /** The entries the stripped texts add to the listing of `c`, the first stored at serial number `n`. */
  function Exchange(c: ObjectId, said: seq<string>, n: nat, generate: string -> string, iso: Timestamp -> string)
    : seq<MessageOut>
    decreases |said|
  {
    if said == [] then []
    else Turn(c, said[0], n, generate, iso) + Exchange(c, said[1..], n + 2, generate, iso)
  }

  /** Every entry of `r` is filed under conversation `c`. */
  ghost predicate AllIn(r: seq<MessageOut>, c: string) {
    forall i :: 0 <= i < |r| ==> r[i].conversationId == c
  }

  /** Every entry of the exchange belongs to conversation `c`. */
  lemma {:induction false} ExchangeInConversation(c: ObjectId, said: seq<string>, n: nat,
                                                  generate: string -> string, iso: Timestamp -> string)
    ensures AllIn(Exchange(c, said, n, generate, iso), c)
    decreases |said|
  {
    if said != [] {
      var turn := Turn(c, said[0], n, generate, iso);
      ExchangeInConversation(c, said[1..], n + 2, generate, iso);
      assert AllIn(turn, c);
      AllInAppend(turn, Exchange(c, said[1..], n + 2, generate, iso), c);
    }
  }

  lemma AllInAppend(turn: seq<MessageOut>, rest: seq<MessageOut>, c: string)
    requires AllIn(turn, c) && AllIn(rest, c)
    ensures AllIn(turn + rest, c)
  {
  }

  /** Entries `2k` and `2k + 1` of `r` are the user's text `t` and the reply to it. */
  ghost predicate PairAt(r: seq<MessageOut>, k: int, t: string, generate: string -> string) {
    && 0 <= 2 * k && 2 * k + 1 < |r|
    && r[2 * k].role == "user" && r[2 * k].content == t
    && r[2 * k + 1].role == "assistant" && r[2 * k + 1].content == generate(t)
  }

  /** `r` holds one user entry and one reply per text, in the order the texts were sent. */
  ghost predicate Paired(r: seq<MessageOut>, said: seq<string>, generate: string -> string) {
    && |r| == 2 * |said|
    && forall k :: 0 <= k < |said| ==> PairAt(r, k, said[k], generate)
  }

  /** The exchange pairs each text with the reply to it, in the order sent. */
  lemma {:induction false} ExchangeTurns(c: ObjectId, said: seq<string>, n: nat,
                                         generate: string -> string, iso: Timestamp -> string)
    ensures Paired(Exchange(c, said, n, generate, iso), said, generate)
    decreases |said|
  {
    if said != [] {
      var turn := Turn(c, said[0], n, generate, iso);
      ExchangeTurns(c, said[1..], n + 2, generate, iso);
      assert PairAt(turn, 0, said[0], generate);
      PairedAppend(turn, Exchange(c, said[1..], n + 2, generate, iso), said, generate);
    }
  }

  lemma PairedAppend(turn: seq<MessageOut>, rest: seq<MessageOut>, said: seq<string>, generate: string -> string)
    requires |turn| == 2 && said != []
    requires PairAt(turn, 0, said[0], generate)
    requires Paired(rest, said[1..], generate)
    ensures Paired(turn + rest, said, generate)
  {
    forall k | 0 <= k < |said|
      ensures PairAt(turn + rest, k, said[k], generate)
    {
      if k == 0 {
        PairHead(turn, rest, said[0], generate);
      } else {
        assert said[k] == said[1..][k - 1];
        PairShift(turn, rest, k, said[k], generate);
      }
    }
  }

  lemma PairHead(turn: seq<MessageOut>, rest: seq<MessageOut>, t: string, generate: string -> string)
    requires PairAt(turn, 0, t, generate)
    ensures PairAt(turn + rest, 0, t, generate)
  {
    assert (turn + rest)[0] == turn[0] && (turn + rest)[1] == turn[1];
  }

  lemma PairShift(turn: seq<MessageOut>, rest: seq<MessageOut>, k: int, t: string, generate: string -> string)
    requires |turn| == 2 && k >= 1
    requires PairAt(rest, k - 1, t, generate)
    ensures PairAt(turn + rest, k, t, generate)
  {
    assert (turn + rest)[2 * k] == rest[2 * (k - 1)];
    assert (turn + rest)[2 * k + 1] == rest[2 * (k - 1) + 1];
  }

  /** No text is blank. */
  predicate AllSaid(texts: seq<string>) {
    forall k :: 0 <= k < |texts| ==> !AllSpace(texts[k])
  }

  /**
   * Sending non-blank texts to a conversation with a well-formed id makes its
   * listing grow by exactly one user entry and one assistant entry per text,
   * in the order sent.
   */
  lemma ConverseLists(s: Store, convId: string, texts: seq<string>,
                      generate: string -> string, iso: Timestamp -> string, before: seq<MessageOut>)
    requires Valid(s) && s.serial + 2 * |texts| + 1 <= IdSpace
    requires IsIdText(convId) && AllSaid(texts)
    requires ListMessages(s, convId, iso) == Ok(before)
    ensures ListMessages(Converse(s, convId, texts, generate), convId, iso)
         == Ok(before + Exchange(Parse(convId).value, Said(texts), s.serial, generate, iso))
  {
    var lm := (x: Store) => ListMessages(x, convId, iso);
    ChatsExtendListing(convId, generate, iso);
    ConverseExtends(s, convId, texts, generate, iso, lm);
  }

  /**
   * Each chat request to conversation `convId` keeps the store valid, uses two
   * serial numbers and extends the listing `lm` by the turn of its text.
   */
  ghost predicate TurnExtends(lm: Store -> Response<seq<MessageOut>>, convId: string,
                              generate: string -> string, iso: Timestamp -> string) {
    forall x: Store, t: string ::
      Valid(x) && x.serial + 3 <= IdSpace && !AllSpace(t) && lm(x).Ok? ==>
        var next := ChatWith(x, ChatRequest(t, Some(convId)), generate).store;
        && Valid(next) && next.serial == x.serial + 2
        && lm(next) == Ok(lm(x).value + Turn(Parse(convId).value, Strip(t), x.serial, generate, iso))
  }

  /** The listing of a conversation with a well-formed id is extended that way. */
  lemma ChatsExtendListing(convId: string, generate: string -> string, iso: Timestamp -> string)
    requires IsIdText(convId)
    ensures TurnExtends((x: Store) => ListMessages(x, convId, iso), convId, generate, iso)
  {
    var lm := (x: Store) => ListMessages(x, convId, iso);
    forall x: Store, t: string | Valid(x) && x.serial + 3 <= IdSpace && !AllSpace(t) && lm(x).Ok?
      ensures var next := ChatWith(x, ChatRequest(t, Some(convId)), generate).store;
        && Valid(next) && next.serial == x.serial + 2
        && lm(next) == Ok(lm(x).value + Turn(Parse(convId).value, Strip(t), x.serial, generate, iso))
    {
      ChatExtends(x, t, convId, generate, iso, lm);
    }
  }

  /** One chat request extends the listing of conversation `convId` by the turn of its text. */
  lemma ChatExtends(x: Store, t: string, convId: string, generate: string -> string, iso: Timestamp -> string,
                    lm: Store -> Response<seq<MessageOut>>)
    requires IsIdText(convId) && forall y :: lm(y) == ListMessages(y, convId, iso)
    requires Valid(x) && x.serial + 3 <= IdSpace && !AllSpace(t) && lm(x).Ok?
    ensures var next := ChatWith(x, ChatRequest(t, Some(convId)), generate).store;
      && Valid(next) && next.serial == x.serial + 2
      && lm(next) == Ok(lm(x).value + Turn(Parse(convId).value, Strip(t), x.serial, generate, iso))
  {
    ChatTurn(x, ChatRequest(t, Some(convId)), generate, iso, lm(x).value);
  }

  /**
   * The induction behind `ConverseLists`, for any listing `lm` that each chat
   * request extends by the turn of its text. With the listing a parameter,
   * the proof never unfolds `ListMessages`.
   */
  lemma {:induction false} ConverseExtends(s: Store, convId: string, texts: seq<string>, generate: string -> string,
                                           iso: Timestamp -> string, lm: Store -> Response<seq<MessageOut>>)
    requires Valid(s) && s.serial + 2 * |texts| + 1 <= IdSpace
    requires IsIdText(convId) && AllSaid(texts) && lm(s).Ok? && TurnExtends(lm, convId, generate, iso)
    ensures lm(Converse(s, convId, texts, generate))
         == Ok(lm(s).value + Exchange(Parse(convId).value, Said(texts), s.serial, generate, iso))
    decreases |texts|
  {
    var c := Parse(convId).value;
    if texts == [] {
      assert lm(s).value + [] == lm(s).value;
    } else {
      var next := ChatWith(s, ChatRequest(texts[0], Some(convId)), generate).store;
      var turn := Turn(c, Strip(texts[0]), s.serial, generate, iso);
      assert Valid(next) && next.serial == s.serial + 2 && lm(next) == Ok(lm(s).value + turn);
      assert AllSaid(texts[1..]);
      ConverseExtends(next, convId, texts[1..], generate, iso, lm);
      assert Converse(s, convId, texts, generate) == Converse(next, convId, texts[1..], generate);
      ExchangeStep(c, texts, s.serial, next.serial, generate, iso);
      AppendAssociates(lm(s).value, turn, Exchange(c, Said(texts[1..]), next.serial, generate, iso));
    }
  }

  lemma AppendAssociates<T>(a: seq<T>, b: seq<T>, c: seq<T>)
    ensures a + b + c == a + (b + c)
  {
  }

  /** The exchange of several texts is the turn of the first followed by the exchange of the rest. */
  lemma ExchangeStep(c: ObjectId, texts: seq<string>, n: nat, m: nat, generate: string -> string, iso: Timestamp -> string)
    requires texts != [] && m == n + 2
    ensures Exchange(c, Said(texts), n, generate, iso)
         == Turn(c, Strip(texts[0]), n, generate, iso) + Exchange(c, Said(texts[1..]), m, generate, iso)
  {
    SaidStep(texts);
    ExchangeUnfold(c, Said(texts), n, m, generate, iso);
  }

  lemma ExchangeUnfold(c: ObjectId, said: seq<string>, n: nat, m: nat, generate: string -> string, iso: Timestamp -> string)
    requires said != [] && m == n + 2
    ensures Exchange(c, said, n, generate, iso) == Turn(c, said[0], n, generate, iso) + Exchange(c, said[1..], m, generate, iso)
  {
  }

  /** The kept texts are the first text stripped, followed by the kept texts of the rest. */
  lemma SaidStep(texts: seq<string>)
    requires texts != []
    ensures Said(texts)[0] == Strip(texts[0]) && Said(texts)[1..] == Said(texts[1..])
  {
    assert Said(texts) == [Strip(texts[0])] + Said(texts[1..]);
  }

  /** One chat request to a named conversation, in the terms `ConverseLists` needs. */
  lemma ChatTurn(s: Store, req: ChatRequest, generate: string -> string, iso: Timestamp -> string, before: seq<MessageOut>)
    requires Valid(s) && s.serial + 3 <= IdSpace
    requires req.conversationId.Some? && IsIdText(req.conversationId.value) && !AllSpace(req.message)
    requires ListMessages(s, req.conversationId.value, iso) == Ok(before)
    ensures Valid(ChatWith(s, req, generate).store) && ChatWith(s, req, generate).store.serial == s.serial + 2
    ensures ListMessages(ChatWith(s, req, generate).store, req.conversationId.value, iso)
         == Ok(before + Turn(Parse(req.conversationId.value).value, Strip(req.message), s.serial, generate, iso))
  {
    ChatNamedConversation(s, req, generate);
    ChatTurnEntries(s, req, generate, iso);
    ChatKeepsValid(s, req, generate);
    ChatThenListMessages(s, req, generate, iso);
  }

  /** A non-blank text sent to a well-formed conversation id is answered and stored at the current serial. */
  lemma ChatNamedConversation(s: Store, req: ChatRequest, generate: string -> string)
    requires req.conversationId.Some? && IsIdText(req.conversationId.value) && !AllSpace(req.message)
    ensures ChatWith(s, req, generate).response.Ok?
    ensures ChatWith(s, req, generate).response.value.conversationId == req.conversationId.value
    ensures TurnSerial(s, req) == s.serial
    ensures ChatWith(s, req, generate).store.serial == s.serial + 2
  {
    assert !StartsConversation(req);
    ChatAppendsTurn(s, req, generate);
  }

  /** The two entries `ChatThenListMessages` lists are the turn of the stripped text. */
  lemma ChatTurnEntries(s: Store, req: ChatRequest, generate: string -> string, iso: Timestamp -> string)
    requires req.conversationId.Some? && IsIdText(req.conversationId.value)
    requires ChatWith(s, req, generate).response.Ok?
    requires ChatWith(s, req, generate).response.value.conversationId == req.conversationId.value
    requires TurnSerial(s, req) == s.serial
    ensures Turn(Parse(req.conversationId.value).value, Strip(req.message), s.serial, generate, iso) == [
        MessageOut(MintId(TurnSerial(s, req)), Parse(ChatWith(s, req, generate).response.value.conversationId).value,
                   "user", Strip(req.message), Some(iso(TurnSerial(s, req)))),
        ChatWith(s, req, generate).response.value.reply.(
          conversationId := Parse(ChatWith(s, req, generate).response.value.conversationId).value,
          createdAt := Some(iso(TurnSerial(s, req) + 1)))]
  {
    ListedReply(s, req, generate, iso);
  }

  /**
   * A conversation nobody has written to yet lists, after the texts are
   * sent, exactly one user entry and one reply per text, in the order sent,
   * all filed under that conversation.
   */
  lemma FreshConversationTranscript(s: Store, convId: string, texts: seq<string>,
                                    generate: string -> string, iso: Timestamp -> string)
    requires Valid(s) && s.serial + 2 * |texts| + 1 <= IdSpace
    requires IsIdText(convId) && AllSaid(texts)
    requires MessagesOf(s, Parse(convId).value) == []
    ensures var r := ListMessages(Converse(s, convId, texts, generate), convId, iso);
      && r.Ok? && Paired(r.value, Said(texts), generate)
      && AllIn(r.value, Parse(convId).value)
  {
    var c := Parse(convId).value;
    ListMessagesInStoreOrder(s, convId, iso);
    assert ListMessages(s, convId, iso) == Ok([]);
    ConverseLists(s, convId, texts, generate, iso, []);
    var e := Exchange(c, Said(texts), s.serial, generate, iso);
    ExchangeInConversation(c, Said(texts), s.serial, generate, iso);
    ExchangeTurns(c, Said(texts), s.serial, generate, iso);
    assert [] + e == e;
  }
}

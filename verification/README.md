# Chat service core, modelled in Dafny

This project models the request handlers of a small FastAPI chat service
(`main.py`) and the rule-based assistant they call. Conversations and
messages live in a document store. The client starts a conversation, sends
chat messages and lists the messages of a conversation. Each chat request
stores the user's text and the assistant's reply.

The model is functional. The store is an immutable value holding two
collections, conversations and messages, in insertion order, plus a serial
number. Queries answer in insertion order; that is an assumption about the
database, recorded under "Left out" (`Store.Find`). Each handler is a function from the store and the request to the
store afterwards and the response: a value, or an HTTP status with its
detail.

| file | module | what it holds |
|---|---|---|
| `optional.dfy` | `Optional` | `Option`, for Python's `Optional[...]` |
| `text.dfy` | `Text` | `str.strip()`, ASCII `str.lower()`, `s[:n]`, `part in s` |
| `object_id.dfy` | `ObjectIds` | identifier parsing (24 hex digits) and minting |
| `sorting.dfy` | `Sorting` | Python's stable `list.sort(key=...)`, and `reversed` |
| `store.dfy` | `Store` | `create_document` / `get_documents` over an in-memory store |
| `reply.dfy` | `Reply` | `generate_assistant_reply` |
| `handlers.dfy` | `Handlers` | `to_str_id` and the four handlers |
| `transcripts.dfy` | `Transcripts` | several chat requests to one conversation, then a listing |
| `intended.dfy` | `Intended` | two handlers corrected: the conversation list newest first, as the comment at main.py:141 says, and chat refusing a conversation the store does not hold (see Findings) |

## Model

| member | source | states |
|---|---|---|
| Reply.BlankGetsPrompt | main.py:59-61 | the fixed prompt is the reply exactly when the text is all whitespace, in both directions |
| Reply.JokeWins | main.py:62-64 | a text whose lower-cased, stripped form contains "joke" gets the joke, whatever else it contains |
| Reply.GreetingBeforeHelp | main.py:65-66 | without "joke", a text containing "hello" or "hi" gets the greeting |
| Reply.HiShadowsHelp | main.py:65-68 | a text containing "hi" never gets the help reply, only the joke or the greeting |
| Reply.HelpRule | main.py:67-68 | "help" with no earlier keyword gets the help reply |
| Reply.ShortTextEchoed | main.py:69-70 | a keyword-free stripped text shorter than 12 characters is echoed inside the fixed template |
| Reply.LongTextQuoted | main.py:71-75 | a longer keyword-free text gets the fixed frame around its first 300 stripped characters |
| Reply.ReplyLengthBound | main.py:59-75 | no reply is longer than the answer frame plus 300 characters |
| Reply.ReplyOfStripped | main.py:59 | surrounding whitespace never changes the reply |
| Reply.HelpMeWithThis | main.py:65-68 | "help me with this" gets the greeting, because "this" contains "hi" |
| Text.ContainsIffSubstring | main.py:63 | the scanning substring test agrees with "some position holds the part", both directions |
| Text.Strip | main.py:59 | stripping yields nothing exactly for all-whitespace text, and otherwise keeps no whitespace at either end |
| Text.StripCut | main.py:59 | what stripping keeps is a contiguous piece of the text with only whitespace on each side |
| Text.StripUnique | main.py:59 | any such cut with no whitespace at its ends is the stripped text |
| Text.StripIdempotent | main.py:59 | stripping twice is stripping once |
| Text.Take | main.py:73 | `t[:n]` has length min(n, len t) and agrees with `t` position by position |
| ObjectIds.Parse | main.py:149-151 | an id text parses exactly when it is 24 hex digits, to the same digits up to letter case |
| ObjectIds.ParseIgnoresCase | main.py:149-151 | an id text and its lower-cased form parse to the same identifier, or both fail to parse |
| ObjectIds.ParseFormat | main.py:48 | the string form of an identifier parses back to that identifier |
| Store.FindMembers | main.py:153 | a query answers exactly the stored documents whose field holds the value |
| Store.FindAscending | main.py:153 | a query keeps store order, so its answer is in creation order too |
| Store.InsertFresh | main.py:130 | an insert keeps the store valid and hands out an identifier no stored document has |
| Sorting.SortByKey | main.py:155 | the sort yields a permutation in key order |
| Sorting.SortByKeyStable | main.py:155 | for every key, the elements with that key keep their order |
| Sorting.SortByKeyOfSorted | main.py:142 | a sequence already in key order is left as it is |
| Handlers.ToStrId | main.py:45-51 | `_id` becomes `id` (its string form, which parses back to it), an ObjectId `conversation_id` becomes its string form, and every other field is unchanged |
| Handlers.CreateConversation | main.py:126-131 | the title is "New Chat" when absent or empty; one conversation is appended holding the answered id and title; messages are untouched |
| Handlers.CreateThenList | main.py:126-143 | a new conversation is listed last, with the id and title the create answered |
| Handlers.ListConversationsInStoreOrder | main.py:134-143 | the list is every conversation in store order (not newest first), titled "Chat" when untitled; it fails exactly when a title is not text |
| Handlers.ListMessages | main.py:146-151 | a malformed id, and only a malformed id, gets 400 "Invalid conversation_id"; every listed entry carries the canonical conversation id |
| Handlers.ListMessagesContents | main.py:153-175 | for a well-formed id the list holds exactly that conversation's messages, sorted by creation time with ties in store order; role, content and created_at fall back to "user", "" and null |
| Handlers.ListMessagesInStoreOrder | main.py:153-175 | in a store the handlers wrote, the list is the conversation's messages in the order they were stored |
| Handlers.StoredMessagesSortable | main.py:155 | in a store the handlers wrote, every message of a conversation has a datetime `created_at`, so the sort cannot fail |
| Handlers.ChatWith | main.py:178-194 | a request succeeds exactly when the text is not blank and the conversation is new or its id is well formed; a rejection is 400 with the matching detail and stores nothing |
| Handlers.ChatStartsConversation | main.py:185-188 | a chat naming no conversation appends one conversation titled with the first 40 stripped characters, and answers with its id |
| Handlers.ChatKeepsConversations | main.py:185-188 | a chat naming a conversation creates none |
| Handlers.ChatAppendsTurn | main.py:196-221 | an accepted chat appends exactly the stripped user message and then the reply, both filed under the parsed id, and answers with the reply, its id and the conversation id as sent |
| Handlers.ChatReplyFollowsRules | main.py:205 | the answered reply is the built-in rules applied to the message as sent |
| Handlers.ChatAcceptsUnknownConversation | main.py:190-202 | a well-formed id of no stored conversation is accepted, and its messages are filed under it |
| Handlers.ChatKeepsValid | main.py:178-221 | while serial numbers last, a chat keeps the store valid |
| Handlers.ChatThenListMessages | main.py:146-221 | listing after a chat shows the earlier list, then the user's message, then the reply as answered, with the canonical id and creation times added |
| Transcripts.ConverseLists | main.py:146-221 | after several chats to one conversation, its list is the earlier list followed by each stripped text and its reply, in order |
| Transcripts.ExchangeTurns | main.py:196-213 | those entries pair each stripped text, as a user entry, with the reply to it |
| Transcripts.ExchangeInConversation | main.py:197-213 | all those entries are filed under the conversation |
| Transcripts.FreshConversationTranscript | main.py:146-221 | a conversation with no messages lists, after N texts, exactly 2N entries pairing each stripped text with its reply, in the order sent |
| Intended.NewestFirstReversesStoreOrder | main.py:141-142 | in a store the handlers wrote, the newest-first list is the code's list reversed, and it fails exactly when the code's list fails |
| Intended.OldestListedFirst | main.py:138-143 | the code's list starts with the oldest conversation, which the newest-first list puts last |
| Intended.ChatChecked | main.py:185-194 | the corrected chat additionally refuses a well-formed id of no stored conversation with 404, storing nothing, and otherwise behaves as the code |
| Intended.ChatCheckedKeepsReferenced | main.py:185-213 | the corrected chat keeps every stored message filed under a stored conversation |
| Intended.ChatBreaksReferences | main.py:190-202 | the code as written breaks that invariant for a well-formed id of no stored conversation |

## Left out

- `Text.Lower`: lower-cases ASCII letters only. Python's `str.lower()` maps every cased letter: "Hİ" lower-cases to "hi" plus a combining dot, and "JO\u212aE" (with the Kelvin sign) to "joke". Python answers those with the greeting and the joke, and the model does not.
- `ObjectIds.Parse`: stands in for `bson.ObjectId(text)` as "exactly 24 hex digits". The bson library is not part of this model, and the other argument types it accepts are not modelled.
- `Store.Find`: a query, and so the conversation list and the messages a listing sorts, answers in insertion order. The real `get_documents` (main.py:136, 153) is a MongoDB `find` without a sort, which promises only the collection's natural order. Ties between timestamps are ignored too: every insert gets its own serial-number stamp, while BSON dates have millisecond precision, so the user and assistant messages of one chat can share a `created_at` and then fall back to that natural order. `Store.FindAscending`, `Handlers.CreateThenList`, `Handlers.ListConversationsInStoreOrder`, `Handlers.ListMessagesInStoreOrder`, `Handlers.ChatThenListMessages`, `Transcripts.ConverseLists`, `Transcripts.FreshConversationTranscript`, `Intended.OldestListedFirst` and `Intended.NewestFirstReversesStoreOrder` rely on insertion order.
- `Store.Insert`: stamps `created_at` with the store's serial number. `Valid`'s ascending timestamps therefore assume a clock that never goes backwards and one request at a time. Concurrent chats to one conversation can interleave in the real service. `Handlers.ListMessagesInStoreOrder`, `Handlers.ChatThenListMessages` and `Transcripts.ConverseLists` rely on this assumption.
- `Store.Insert`: database failures in `create_document` and `get_documents` are not modelled. That includes a chat that stores its new conversation and then fails on the message insert, and one that stores the user's message and then fails before storing the reply. The `database` module is not part of this model.
- `Handlers.ListMessagesContents` (and `Handlers.ListMessages`): answers 500 when two or more messages have `created_at` values that are all strings or all ObjectIds. Python would sort those and list them with a null `created_at`. A store written through `Insert` never holds such values (`Handlers.StoredMessagesSortable`).
- `Handlers.ChatWith`: the `ConversationSchema` and `MessageSchema` validations (main.py:129, 187, 197) are not modelled, since the `schemas` module is not part of this model. Pydantic's request validation and its 422 responses are not modelled either; requests are taken as already well typed.
- `Handlers.ChatWith`: the reply generator is a parameter `generate`, and `Handlers.Chat` instantiates it with `Reply.GenerateAssistantReply`. `datetime.isoformat` is a parameter `iso` of the listing.
- FastAPI routing, the CORS middleware, the response classes and the uvicorn start-up (main.py:1-43, 224-227) are framework plumbing.
- The `/`, `/api/hello` and `/test` endpoints (main.py:78-123) return constants, or report on the database and environment, which is I/O.
- Strings are sequences of Unicode scalar values; lone surrogates are left out.
- The store's identifier space is finite (16^24 serial numbers). Lemmas about inserts require a serial number left to mint, where the real ObjectId mixes time, machine and counter.

## Findings

| source | as written | input that shows it | evidently intended | confidence | as-written member | corrected member |
|---|---|---|---|---|---|---|
| main.py:141-142 | sorts on `created_at`, which the result dicts built at main.py:140 never hold, so every key is "" and the stable sort keeps store order | two conversations created one after the other: the list is in the store's natural order, which for an insert-only collection is in practice insertion order, so the first-created is listed first | newest first by `created_at`, as the comment at main.py:141 says | high; not executed | Intended.OldestListedFirst | Intended.NewestFirstReversesStoreOrder |
| main.py:185-202 | checks only that a supplied `conversation_id` is well formed, never that the conversation exists | a chat naming "0123456789abcdef01234567" on an empty store: 200, with two messages filed under a conversation that does not exist | an unknown id is refused, so every message belongs to a stored conversation | medium; not executed | Intended.ChatBreaksReferences | Intended.ChatCheckedKeepsReferenced |

The handlers module models the code as written. The `Intended` module holds
the corrected listing (`Intended.ListConversationsNewestFirst`) and the
corrected chat (`Intended.ChatChecked`), each with its proved property. The
source has no status or text for an unknown conversation: the 404 status and
the detail "Conversation not found" are the model's choice. A
conversation without a timestamp sorts as the earliest in the corrected
listing.

/**
 * The document store the handlers talk to (`create_document` and
 * `get_documents`), as an in-memory value: two collections of documents in
 * insertion order. Every insert gets a fresh identifier and a creation
 * timestamp from a serial number the store keeps.
 */
module Store {
  import opened ObjectIds

  /** A point in time; only the order of timestamps matters here. */
  type Timestamp = nat

  /** A field value of a stored document. */
  datatype Value =
    | Str(text: string)
    | Oid(id: ObjectId)
    | Time(at: Timestamp)
    | Null

  type Fields = map<string, Value>

  /** A stored document: its `_id` and its other fields. */
  datatype Doc = Doc(id: ObjectId, fields: Fields)

  datatype Collection = Conversations | Messages

  datatype Store = Store(conversations: seq<Doc>, messages: seq<Doc>, serial: nat)

  const CreatedAt := "created_at"

  datatype Inserted = Inserted(store: Store, id: ObjectId)

  /** `create_document(collection, fields)`: stores the fields with a new `_id` and `created_at`. */
  function Insert(s: Store, c: Collection, fields: Fields): Inserted {
    var doc := Doc(MintId(s.serial), fields[CreatedAt := Time(s.serial)]);
    match c
    case Conversations =>
      Inserted(s.(conversations := s.conversations + [doc], serial := s.serial + 1), doc.id)
    case Messages =>
      Inserted(s.(messages := s.messages + [doc], serial := s.serial + 1), doc.id)
  }

  /** `get_documents(collection, {key: v})`: the documents whose field `key` equals `v`, in store order. */
  function Find(docs: seq<Doc>, key: string, v: Value): (r: seq<Doc>)
    ensures |r| <= |docs|
  {
    if docs == [] then []
    else
      var last := docs[|docs| - 1];
      Find(docs[..|docs| - 1], key, v) + (if key in last.fields && last.fields[key] == v then [last] else [])
  }

  /** The query answers exactly the stored documents whose field `key` holds `v`. */
  lemma {:induction false} FindMembers(docs: seq<Doc>, key: string, v: Value)
    ensures forall d :: d in Find(docs, key, v) <==> d in docs && key in d.fields && d.fields[key] == v
    decreases |docs|
  {
    if docs != [] {
      var init := docs[..|docs| - 1];
      FindMembers(init, key, v);
      assert docs == init + [docs[|docs| - 1]];
    }
  }

  lemma {:induction false} FindAppend(a: seq<Doc>, b: seq<Doc>, key: string, v: Value)
    ensures Find(a + b, key, v) == Find(a, key, v) + Find(b, key, v)
    decreases |b|
  {
    if b == [] {
      assert a + b == a;
    } else {
      var init := b[..|b| - 1];
      var last := b[|b| - 1];
      assert b == init + [last];
      assert a + b == (a + init) + [last];
      FindSnoc(a + init, last, key, v);
      FindSnoc(init, last, key, v);
      FindAppend(a, init, key, v);
      SeqAssociates(Find(a, key, v), Find(init, key, v),
                    if key in last.fields && last.fields[key] == v then [last] else []);
    }
  }

  /** The answer for `docs + [d]`: the answer for `docs`, then `d` if it matches. */
  lemma FindSnoc(docs: seq<Doc>, d: Doc, key: string, v: Value)
    ensures Find(docs + [d], key, v) == Find(docs, key, v) + (if key in d.fields && d.fields[key] == v then [d] else [])
  {
    assert (docs + [d])[..|docs|] == docs;
  }

  lemma SeqAssociates<T>(a: seq<T>, b: seq<T>, c: seq<T>)
    ensures a + b + c == a + (b + c)
  {
  }

  /** The document carries a creation timestamp. */
  predicate HasTimestamp(d: Doc) {
    CreatedAt in d.fields && d.fields[CreatedAt].Time?
  }

  /** The creation timestamp, where the document has one. */
  function StampOf(d: Doc): int {
    if HasTimestamp(d) then d.fields[CreatedAt].at else 0
  }

  /** Timestamps strictly increase along the sequence. */
  ghost predicate Ascending(docs: seq<Doc>) {
    forall i, j :: 0 <= i < j < |docs| ==> StampOf(docs[i]) < StampOf(docs[j])
  }

  /** A query keeps the store's order, so its answer is in creation order too. */
  lemma {:induction false} FindAscending(docs: seq<Doc>, key: string, v: Value)
    requires Ascending(docs)
    ensures Ascending(Find(docs, key, v))
  {
    if docs != [] {
      var init := docs[..|docs| - 1];
      var last := docs[|docs| - 1];
      assert docs == init + [last];
      FindSnoc(init, last, key, v);
      FindAscending(init, key, v);
      if key in last.fields && last.fields[key] == v {
        forall j | 0 <= j < |init|
          ensures StampOf(init[j]) < StampOf(last)
        {
          assert docs[j] == init[j];
        }
        FoundBefore(init, key, v, StampOf(last));
        AscendingSnoc(Find(init, key, v), last);
      } else {
        assert Find(docs, key, v) == Find(init, key, v) + [];
      }
    }
  }

  /** A query answers only stored documents, so it keeps any bound on their timestamps. */
  lemma FoundBefore(docs: seq<Doc>, key: string, v: Value, bound: int)
    requires forall j :: 0 <= j < |docs| ==> StampOf(docs[j]) < bound
    ensures forall i :: 0 <= i < |Find(docs, key, v)| ==> StampOf(Find(docs, key, v)[i]) < bound
  {
    FindMembers(docs, key, v);
    forall i | 0 <= i < |Find(docs, key, v)|
      ensures StampOf(Find(docs, key, v)[i]) < bound
    {
      assert Find(docs, key, v)[i] in docs;
    }
  }

  /** A document stamped later than every document of an ascending sequence extends it. */
  lemma AscendingSnoc(docs: seq<Doc>, d: Doc)
    requires Ascending(docs)
    requires forall i :: 0 <= i < |docs| ==> StampOf(docs[i]) < StampOf(d)
    ensures Ascending(docs + [d])
  {
    forall i, j | 0 <= i < j < |docs + [d]|
      ensures StampOf((docs + [d])[i]) < StampOf((docs + [d])[j])
    {
      assert (docs + [d])[i] == docs[i];
    }
  }

  /** The serial number an identifier was minted from. */
  function SerialOf(id: ObjectId): nat {
    HexValue(id)
  }

  ghost predicate MintedBefore(docs: seq<Doc>, serial: nat) {
    forall i :: 0 <= i < |docs| ==> SerialOf(docs[i].id) < serial
  }

  /** Every document carries a timestamp taken before `serial`. */
  ghost predicate StampedBefore(docs: seq<Doc>, serial: nat) {
    forall i :: 0 <= i < |docs| ==> HasTimestamp(docs[i]) && docs[i].fields[CreatedAt].at < serial
  }

  /**
   * What the store itself guarantees: every identifier was minted from, and
   * every timestamp taken at, a serial number the store has already used.
   */
  ghost predicate Valid(s: Store) {
    && s.serial <= IdSpace
    && MintedBefore(s.conversations, s.serial) && MintedBefore(s.messages, s.serial)
    && StampedBefore(s.conversations, s.serial) && StampedBefore(s.messages, s.serial)
    && Ascending(s.conversations) && Ascending(s.messages)
  }

  /**
   * While serial numbers last, an insert keeps the store valid and hands
   * out an identifier no stored document has.
   */
  lemma InsertFresh(s: Store, c: Collection, fields: Fields)
    requires Valid(s) && s.serial < IdSpace
    ensures var r := Insert(s, c, fields);
      && Valid(r.store)
      && (forall i :: 0 <= i < |s.conversations| ==> s.conversations[i].id != r.id)
      && (forall i :: 0 <= i < |s.messages| ==> s.messages[i].id != r.id)
  {
    MintedSerial(s.serial);
    AppendKeepsOrder(s.conversations, Doc(MintId(s.serial), fields[CreatedAt := Time(s.serial)]), s.serial);
    AppendKeepsOrder(s.messages, Doc(MintId(s.serial), fields[CreatedAt := Time(s.serial)]), s.serial);
  }

  /** An identifier the store mints carries its serial number back. */
  lemma MintedSerial(n: nat)
    requires n < IdSpace
    ensures SerialOf(MintId(n)) == n
  {
    HexRoundTrip(n, IdDigits);
  }

  /** Appending a document minted and stamped at `serial` keeps a collection in order and fresh. */
  lemma AppendKeepsOrder(docs: seq<Doc>, doc: Doc, serial: nat)
    requires MintedBefore(docs, serial) && StampedBefore(docs, serial) && Ascending(docs)
    requires SerialOf(doc.id) == serial && HasTimestamp(doc) && doc.fields[CreatedAt].at == serial
    ensures MintedBefore(docs, serial + 1) && StampedBefore(docs, serial + 1)
    ensures MintedBefore(docs + [doc], serial + 1) && StampedBefore(docs + [doc], serial + 1)
    ensures Ascending(docs + [doc])
    ensures forall i :: 0 <= i < |docs| ==> docs[i].id != doc.id
  {
    var r := docs + [doc];
    forall i, j | 0 <= i < j < |r|
      ensures StampOf(r[i]) < StampOf(r[j])
    {
      if j < |docs| {
        assert r[i] == docs[i] && r[j] == docs[j];
      } else {
        assert r[i] == docs[i] && r[j] == doc;
      }
    }
  }
}

/** Book conversations: everything the write path stores is accepted by the read path. */
module Conversations {
  import opened Results
  import opened Text
  import opened CitationScan
  import opened Messages

  const MAX_BOOK_HISTORY_MESSAGES: nat := 4_096
  const MAX_BOOK_HISTORY_CONTENT_BYTES: nat := 64 * 1024 * 1024
  const MAX_BOOK_HISTORY_CITATIONS_BYTES: nat := 16 * 1024 * 1024

  /** Where a persistence call can be made to fail. */
  datatype Checkpoint = ConversationInsert | ConversationLock | UserMessageInsert | AssistantMessageInsert
    | ConversationUpdate | CommitStep

  /**
   * What surrounds one call: the clock, the ids it draws, the failing checkpoint, the authorizer, and the citation
   * store.
   */
  datatype Surroundings = Surroundings(
    now: int, conversationId: Id, userMessageId: Id, assistantMessageId: Id,
    failAt: Option<Checkpoint>, authorized: bool, revalidates: Citation -> bool)

  datatype Conversation = Conversation(bookId: Id, createdAt: int, updatedAt: int)

  datatype History = History(id: Id, bookId: Id, messages: seq<Message>, createdAt: int, updatedAt: int)

  datatype HistorySize = HistorySize(messages: nat, contentBytes: nat, citationsBytes: nat)

  function CitationsBytes(row: Row): nat {
    if row.citations.Some? then Utf8Len(row.citations.value) else 0
  }

  /** The aggregate query over one conversation's rows. */
  function SizeOf(rows: seq<Row>): HistorySize {
    if rows == [] then HistorySize(0, 0, 0)
    else
      var init, last := SizeOf(rows[..|rows| - 1]), rows[|rows| - 1];
      HistorySize(init.messages + 1, init.contentBytes + Utf8Len(last.content),
                  init.citationsBytes + CitationsBytes(last))
  }

  predicate Bounded(size: HistorySize) {
    && 2 <= size.messages <= MAX_BOOK_HISTORY_MESSAGES && size.messages % 2 == 0
    && size.contentBytes <= MAX_BOOK_HISTORY_CONTENT_BYTES
    && size.citationsBytes <= MAX_BOOK_HISTORY_CITATIONS_BYTES
  }

  predicate FollowupFits(size: HistorySize, question: string, answer: string, json: string) {
    && size.messages + 2 <= MAX_BOOK_HISTORY_MESSAGES
    && size.contentBytes + (Utf8Len(question) + Utf8Len(answer)) <= MAX_BOOK_HISTORY_CONTENT_BYTES
    && size.citationsBytes + Utf8Len(json) <= MAX_BOOK_HISTORY_CITATIONS_BYTES
  }

  function ExpectedAction(index: nat): Action {
    if index < 2 then Ask else Continue
  }

  predicate ActionsOk(messages: seq<Message>) {
    |messages| >= 2 && |messages| % 2 == 0 && forall i | 0 <= i < |messages| :: messages[i].action == ExpectedAction(i)
  }

  predicate TimesOk(messages: seq<Message>, createdAt: int, updatedAt: int) {
    && messages != [] && createdAt <= messages[0].createdAt && messages[|messages| - 1].createdAt <= updatedAt
    && forall i | 0 <= i < |messages| - 1 :: messages[i].createdAt <= messages[i + 1].createdAt
  }

  method ValidateBookMessageHistory(messages: seq<Message>, createdAt: int, updatedAt: int) returns (ok: bool)
    ensures ok <==> ActionsOk(messages) && TimesOk(messages, createdAt, updatedAt)
  {
    if |messages| < 2 || |messages| % 2 != 0 { return false; }
    for index := 0 to |messages|
      invariant forall i | 0 <= i < index :: messages[i].action == ExpectedAction(i)
    {
      var expected := if index < 2 then Ask else Continue;
      if messages[index].action != expected { return false; }
    }
    if messages[0].createdAt < createdAt || messages[|messages| - 1].createdAt > updatedAt { return false; }
    ok := !exists i | 0 <= i < |messages| - 1 :: messages[i].createdAt > messages[i + 1].createdAt;
  }

  // ----- the rows a conversation holds

  predicate RowActionsOk(rows: seq<Row>) {
    forall i | 0 <= i < |rows| :: rows[i].action == ExpectedAction(i)
  }

  predicate RowTimesOk(rows: seq<Row>, c: Conversation) {
    && rows != [] && c.createdAt <= rows[0].createdAt && rows[|rows| - 1].createdAt <= c.updatedAt
    && forall i | 0 <= i < |rows| - 1 :: rows[i].createdAt <= rows[i + 1].createdAt
  }

  /** What keeps a stored conversation readable. */
  predicate Stored(rows: seq<Row>, c: Conversation, codec: Codec) {
    Readable(rows, c.bookId, codec) && Bounded(SizeOf(rows)) && RowActionsOk(rows) && RowTimesOk(rows, c)
  }

  lemma StoredMeansValidHistory(rows: seq<Row>, messages: seq<Message>, c: Conversation, codec: Codec)
    requires Stored(rows, c, codec)
    requires |messages| == |rows| && forall i | 0 <= i < |rows| :: Reads(messages[i], rows[i], codec)
    ensures ActionsOk(messages) && TimesOk(messages, c.createdAt, c.updatedAt) && c.createdAt <= c.updatedAt
  {
    TimesRise(rows, |rows| - 1);
  }

  lemma {:induction false} TimesRise(rows: seq<Row>, i: nat)
    requires i < |rows| && forall k | 0 <= k < |rows| - 1 :: rows[k].createdAt <= rows[k + 1].createdAt
    ensures rows[0].createdAt <= rows[i].createdAt
  {
    if i > 0 { TimesRise(rows, i - 1); }
  }

  lemma {:induction false} SizeCounts(rows: seq<Row>)
    ensures SizeOf(rows).messages == |rows|
  {
    if rows != [] { SizeCounts(rows[..|rows| - 1]); }
  }

  function Exchange(s: Surroundings, ordinal: nat, action: Action, question: string, a: AssistantMessage,
                    json: string): seq<Row>
  {
    [Row(s.userMessageId, ordinal, User, action, question, None, None, None, s.now),
     Row(s.assistantMessageId, ordinal + 1, Assistant, action, a.answer, Some(a.profileId), Some(a.modelId), Some(json),
         s.now)]
  }

  lemma SizeGrows(rows: seq<Row>, user: Row, answer: Row)
    requires user.citations.None? && answer.citations.Some?
    ensures var size := SizeOf(rows);
            SizeOf(rows + [user, answer])
            == HistorySize(size.messages + 2, size.contentBytes + Utf8Len(user.content) + Utf8Len(answer.content),
                           size.citationsBytes + Utf8Len(answer.citations.value))
  {
    var both := rows + [user, answer];
    assert both[..|both| - 1] == rows + [user];
    assert (rows + [user])[..|rows|] == rows;
  }

  ghost predicate WritesUsed(json: string, a: AssistantMessage, bookId: Id, s: Surroundings, codec: Codec) {
    && Offerable(a.available, bookId, s.revalidates) && CitedIds(a.answer).Ok?
    && Utf8Len(json) <= MAX_CITATIONS_JSON_BYTES
    && exists used :: UsedBy(used, CitedIds(a.answer).value, a.available) && json == codec.encode(used)
  }

  /** Each answer has its question's action. */
  predicate PairedActions(rows: seq<Row>) {
    forall i | 0 <= i < |rows| && i % 2 == 1 :: rows[i - 1].action == rows[i].action
  }

  lemma PairActions(rows: seq<Row>, pair: seq<Row>)
    requires |rows| % 2 == 0 && PairedActions(rows) && |pair| == 2 && pair[0].action == pair[1].action
    ensures PairedActions(rows + pair)
  {
  }

  lemma PairHolds<T>(rows: seq<T>, pair: seq<T>, ok: (T, nat) -> bool)
    requires forall i | 0 <= i < |rows| :: ok(rows[i], i)
    requires |pair| == 2 && ok(pair[0], |rows|) && ok(pair[1], |rows| + 1)
    ensures forall i | 0 <= i < |rows + pair| :: ok((rows + pair)[i], i)
  {
  }

  lemma PairReadable(rows: seq<Row>, pair: seq<Row>, bookId: Id, codec: Codec)
    requires rows == [] || Readable(rows, bookId, codec)
    requires |pair| == 2 && pair[0].action == pair[1].action
    requires RowReadable(pair[0], |rows|, bookId, codec) && RowReadable(pair[1], |rows| + 1, bookId, codec)
    ensures Readable(rows + pair, bookId, codec)
  {
    PairActions(rows, pair);
    PairHolds(rows, pair, (row: Row, i: nat) => RowReadable(row, i, bookId, codec));
  }

  /** Appending one accepted exchange keeps every row readable. */
  lemma ExchangeReadable(rows: seq<Row>, bookId: Id, s: Surroundings, action: Action, question: string,
                         a: AssistantMessage, json: string, codec: Codec)
    requires Faithful(codec) && ValidQuestion(question) && ValidAssistant(a) && WritesUsed(json, a, bookId, s, codec)
    requires rows == [] || Readable(rows, bookId, codec)
    ensures Readable(rows + Exchange(s, |rows|, action, question, a, json), bookId, codec)
  {
    var pair := Exchange(s, |rows|, action, question, a, json);
    var used :| UsedBy(used, CitedIds(a.answer).value, a.available) && json == codec.encode(used);
    WrittenAnswerReadable(pair[1], a, bookId, used, codec, s.revalidates);
    PairReadable(rows, pair, bookId, codec);
  }

  /**
   * An accepted follow-up leaves the conversation storable: this is where the clock check and the size check are
   * needed.
   */
  lemma FollowupStored(rows: seq<Row>, c: Conversation, s: Surroundings, question: string, a: AssistantMessage,
                       json: string, codec: Codec)
    requires Faithful(codec) && Stored(rows, c, codec)
    requires ValidQuestion(question) && ValidAssistant(a) && WritesUsed(json, a, c.bookId, s, codec)
    requires c.updatedAt <= s.now && FollowupFits(SizeOf(rows), question, a.answer, json)
    ensures Stored(rows + Exchange(s, |rows|, Continue, question, a, json), c.(updatedAt := s.now), codec)
  {
    var pair := Exchange(s, |rows|, Continue, question, a, json);
    ExchangeReadable(rows, c.bookId, s, Continue, question, a, json, codec);
    SizeGrows(rows, pair[0], pair[1]);
    ExchangeInOrder(rows, c, s.now, pair);
  }

  /** Two rows stamped no earlier than the last update continue the order of times and actions. */
  lemma ExchangeInOrder(rows: seq<Row>, c: Conversation, now: int, pair: seq<Row>)
    requires RowTimesOk(rows, c) && RowActionsOk(rows) && |rows| >= 2 && c.updatedAt <= now
    requires |pair| == 2 && pair[0].createdAt == now && pair[1].createdAt == now
    requires pair[0].action == Continue && pair[1].action == Continue
    ensures RowTimesOk(rows + pair, c.(updatedAt := now)) && RowActionsOk(rows + pair)
  {
  }

  lemma NewStored(bookId: Id, s: Surroundings, question: string, a: AssistantMessage, json: string, codec: Codec)
    requires Faithful(codec) && ValidQuestion(question) && ValidAssistant(a) && WritesUsed(json, a, bookId, s, codec)
    ensures Stored(Exchange(s, 0, Ask, question, a, json), Conversation(bookId, s.now, s.now), codec)
  {
    var pair := Exchange(s, 0, Ask, question, a, json);
    ExchangeReadable([], bookId, s, Ask, question, a, json, codec);
    assert [] + pair == pair;
    SizeGrows([], pair[0], pair[1]);
  }

  /** None of these checkpoints fails and the commit is authorized. */
  predicate Undisturbed(s: Surroundings, passed: set<Checkpoint>) {
    (s.failAt.Some? ==> s.failAt.value !in passed) && s.authorized
  }

  /** The follow-up fits beside the stored history, whatever citations its answer uses. */
  ghost predicate RoomFor(rows: seq<Row>, question: string, a: AssistantMessage, codec: Codec)
    requires CitedIds(a.answer).Ok?
  {
    forall used | UsedBy(used, CitedIds(a.answer).value, a.available) ::
      FollowupFits(SizeOf(rows), question, a.answer, codec.encode(used))
  }

  /** A follow-up fits exactly when the history with it is within the bounds of a stored one. */
  lemma FitsExactly(rows: seq<Row>, user: Row, answer: Row)
    requires user.citations.None? && answer.citations.Some? && Bounded(SizeOf(rows))
    ensures FollowupFits(SizeOf(rows), user.content, answer.content, answer.citations.value)
            <==> Bounded(SizeOf(rows + [user, answer]))
  {
    SizeGrows(rows, user, answer);
  }

  /** What is stored of an exchange reads back as it was asked and answered, with the citations the answer uses. */
  lemma ExchangeReadsBack(bookId: Id, s: Surroundings, question: string, a: AssistantMessage, used: seq<Citation>,
                          rows: seq<Row>, messages: seq<Message>, action: Action, codec: Codec)
    requires Faithful(codec) && |messages| == |rows| >= 2 && forall i | 0 <= i < |rows| ::
               Reads(messages[i], rows[i], codec)
    requires var n := |rows| - 2;
             rows[n..] == [Row(s.userMessageId, n, User, action, question, None, None, None, s.now),
                           Row(s.assistantMessageId, n + 1, Assistant, action, a.answer, Some(a.profileId),
                               Some(a.modelId), Some(codec.encode(used)), s.now)]
    ensures var n := |rows| - 2;
            && messages[n] == Message(s.userMessageId, n, User, action, question, None, None, [], s.now)
            && messages[n + 1] == Message(s.assistantMessageId, n + 1, Assistant, action, a.answer, Some(a.profileId),
                                          Some(a.modelId), used, s.now)
  {
    var n := |rows| - 2;
    assert rows[n] == rows[n..][0] && rows[n + 1] == rows[n..][1];
    assert Reads(messages[n], rows[n], codec) && Reads(messages[n + 1], rows[n + 1], codec);
    assert codec.decode(codec.encode(used)) == Some(used);
  }

  ghost predicate ExchangeAcceptable(bookId: Id, question: string, a: AssistantMessage, s: Surroundings, codec: Codec) {
    ValidQuestion(question) && ValidAssistant(a)
      && CitationsAcceptable(bookId, a.answer, a.available, s.revalidates, codec)
  }

  ghost predicate AllStored(conversations: map<Id, Conversation>, messages: map<Id, seq<Row>>, codec: Codec) {
    && messages.Keys == conversations.Keys
    && forall id {:trigger Stored(messages[id], conversations[id], codec)} | id in conversations ::
         Stored(messages[id], conversations[id], codec)
  }

  lemma WriteKeepsStored(conversations: map<Id, Conversation>, messages: map<Id, seq<Row>>, codec: Codec, id: Id,
                         c: Conversation, rows: seq<Row>)
    requires AllStored(conversations, messages, codec) && Stored(rows, c, codec)
    ensures AllStored(conversations[id := c], messages[id := rows], codec)
  {
    var cs, ms := conversations[id := c], messages[id := rows];
    forall k | k in cs ensures Stored(ms[k], cs[k], codec) {
      if k != id {
        assert ms[k] == messages[k] && cs[k] == conversations[k];
        assert Stored(messages[k], conversations[k], codec);
      }
    }
  }

  lemma RemoveKeepsStored(conversations: map<Id, Conversation>, messages: map<Id, seq<Row>>, codec: Codec, id: Id)
    requires AllStored(conversations, messages, codec)
    ensures AllStored(conversations - {id}, messages - {id}, codec)
  {
    var cs, ms := conversations - {id}, messages - {id};
    forall k | k in cs ensures Stored(ms[k], cs[k], codec) {
      assert ms[k] == messages[k] && cs[k] == conversations[k];
      assert Stored(messages[k], conversations[k], codec);
    }
  }

  class LearningRepository {
    const codec: Codec
    var books: map<Id, bool>
    var conversations: map<Id, Conversation>
    var messages: map<Id, seq<Row>>

    ghost predicate Valid()
      reads this
    {
      Faithful(codec) && AllStored(conversations, messages, codec)
    }

    constructor (codec: Codec, books: map<Id, bool>)
      requires Faithful(codec)
      ensures Valid() && conversations == map[] && this.books == books
    {
      this.codec, this.books, conversations, messages := codec, books, map[], map[];
    }

    method RequireReadyBook(bookId: Id) returns (error: Option<ErrorCode>)
      ensures error.None? <==> bookId in books && books[bookId]
      ensures error == Some(NotFound) <==> bookId !in books
      ensures error == Some(BookNotReady) <==> bookId in books && !books[bookId]
    {
      if bookId !in books { return Some(NotFound); }
      error := if books[bookId] then None else Some(BookNotReady);
    }

    /** The two inserts of an exchange, each of which may be made to fail. */
    method StageExchange(s: Surroundings, rows: seq<Row>, action: Action, question: string, a: AssistantMessage,
                         json: string) returns (r: Result<seq<Row>>)
      ensures r.Ok? <==> s.failAt != Some(UserMessageInsert) && s.failAt != Some(AssistantMessageInsert)
      ensures r.Err? ==> r.error == DatabaseError
      ensures r.Ok? ==> r.value == rows + Exchange(s, |rows|, action, question, a, json)
    {
      if s.failAt == Some(UserMessageInsert) { return Err(DatabaseError); }
      var staged := rows + [Row(s.userMessageId, |rows|, User, action, question, None, None, None, s.now)];
      if s.failAt == Some(AssistantMessageInsert) { return Err(DatabaseError); }
      staged := staged
        + [Row(s.assistantMessageId, |rows| + 1, Assistant, action, a.answer, Some(a.profileId), Some(a.modelId),
               Some(json), s.now)];
      r := Ok(staged);
    }

    /** The question and its answer become a conversation of two rows, or nothing is stored. */
    method PersistNewBookQuestion(s: Surroundings, bookId: Id, question: string, a: AssistantMessage)
      returns (r: Result<Id>)
      requires Valid() && s.conversationId !in conversations
      modifies this
      ensures Valid() && books == old(books)
      ensures r.Ok? <==>
                && Undisturbed(s, {ConversationInsert, UserMessageInsert, AssistantMessageInsert, CommitStep})
                && bookId in books && books[bookId] && ExchangeAcceptable(bookId, question, a, s, codec)
      ensures r.Err? ==> conversations == old(conversations) && messages == old(messages)
      ensures !ValidQuestion(question) || !ValidAssistant(a) ==> r == Err(InvalidInput)
      ensures ValidQuestion(question) && ValidAssistant(a) ==>
                && (r == Err(NotFound) <==> bookId !in books)
                && (r == Err(BookNotReady) <==> bookId in books && !books[bookId])
      ensures r.Ok? ==>
                && r.value == s.conversationId
                && conversations == old(conversations)[s.conversationId := Conversation(bookId, s.now, s.now)]
                && exists used ::
                    && UsedBy(used, CitedIds(a.answer).value, a.available)
                    && messages == old(messages)[s.conversationId := [
                         Row(s.userMessageId, 0, User, Ask, question, None, None, None, s.now),
                         Row(s.assistantMessageId, 1, Assistant, Ask, a.answer, Some(a.profileId), Some(a.modelId),
                             Some(codec.encode(used)), s.now)]]
    {
      if !ValidQuestion(question) || !ValidAssistant(a) { return Err(InvalidInput); }
      var ready := RequireReadyBook(bookId);
      if ready.Some? { return Err(ready.value); }
      if s.failAt == Some(ConversationInsert) { return Err(DatabaseError); }
      var staged := conversations[s.conversationId := Conversation(bookId, s.now, s.now)];
      var json, used := ValidatedUsedCitationsJson(bookId, a.answer, a.available, s.revalidates, codec);
      if json.Err? { return Err(json.error); }
      var rows := StageExchange(s, [], Ask, question, a, json.value);
      if rows.Err? { return Err(rows.error); }
      if s.failAt == Some(CommitStep) { return Err(DatabaseError); }
      if !s.authorized { return Err(RequestConflict); }
      assert WritesUsed(json.value, a, bookId, s, codec);
      NewStored(bookId, s, question, a, json.value, codec);
      assert [] + Exchange(s, 0, Ask, question, a, json.value) == Exchange(s, 0, Ask, question, a, json.value);
      WriteKeepsStored(conversations, messages, codec, s.conversationId, Conversation(bookId, s.now, s.now),
                       rows.value);
      conversations, messages := staged, messages[s.conversationId := rows.value];
      r := Ok(s.conversationId);
    }

    /** What a follow-up is refused for before the stored history is read. */
    method CheckFollowup(s: Surroundings, bookId: Id, conversationId: Id, expectedNextOrdinal: nat, question: string,
                         a: AssistantMessage)
      returns (error: Option<ErrorCode>)
      requires Valid()
      ensures error.None? <==>
                && ValidQuestion(question) && ValidAssistant(a) && expectedNextOrdinal >= 2
                && expectedNextOrdinal % 2 == 0
                && s.failAt != Some(ConversationLock) && conversationId in conversations
                && conversations[conversationId].bookId == bookId
                && bookId in books && books[bookId]
      ensures error != Some(ContextTooLarge)
      ensures error.Some? && ValidQuestion(question) && ValidAssistant(a) && expectedNextOrdinal >= 2
              && expectedNextOrdinal % 2 == 0 && s.failAt != Some(ConversationLock) ==>
                error == Some(if conversationId !in conversations || conversations[conversationId].bookId != bookId
                                 || bookId !in books then NotFound else BookNotReady)
    {
      if !ValidQuestion(question) || !ValidAssistant(a) { return Some(InvalidInput); }
      if expectedNextOrdinal < 2 || expectedNextOrdinal % 2 != 0 { return Some(InvalidInput); }
      if s.failAt == Some(ConversationLock) { return Some(DatabaseError); }
      if conversationId !in conversations || conversations[conversationId].bookId != bookId { return Some(NotFound); }
      error := RequireReadyBook(bookId);
    }

    /** Reads the stored history back and appends the exchange to it, on a copy. */
    method StageFollowup(s: Surroundings, rows: seq<Row>, c: Conversation, expectedNextOrdinal: nat, question: string,
                         a: AssistantMessage)
      returns (r: Result<seq<Row>>)
      requires Faithful(codec) && Stored(rows, c, codec) && ValidQuestion(question) && ValidAssistant(a)
      ensures r.Ok? <==>
                && Undisturbed(s, {UserMessageInsert, AssistantMessageInsert, ConversationUpdate, CommitStep})
                && ExchangeAcceptable(c.bookId, question, a, s, codec)
                && c.updatedAt <= s.now && expectedNextOrdinal == |rows| && RoomFor(rows, question, a, codec)
      ensures r == Err(ContextTooLarge) <==>
                && ExchangeAcceptable(c.bookId, question, a, s, codec)
                && c.updatedAt <= s.now && expectedNextOrdinal == |rows| && !RoomFor(rows, question, a, codec)
      ensures r.Err? ==> r.error !in {NotFound, BookNotReady}
      ensures r.Ok? ==>
                && Stored(r.value, c.(updatedAt := s.now), codec)
                && exists used ::
                    && UsedBy(used, CitedIds(a.answer).value, a.available)
                    && r.value == rows + Exchange(s, |rows|, Continue, question, a, codec.encode(used))
    {
      var size := SizeOf(rows);
      var loaded := LoadValidated(rows, c);
      if loaded.Err? { return Err(DatabaseError); }
      if s.now < c.updatedAt { return Err(RequestConflict); }
      var nextOrdinal := |loaded.value|;
      if nextOrdinal != expectedNextOrdinal { return Err(RequestConflict); }
      var json, used := ValidatedUsedCitationsJson(c.bookId, a.answer, a.available, s.revalidates, codec);
      if json.Err? { return Err(json.error); }
      UsesUnique(used, CitedIds(a.answer).value, a.available, c.bookId, s.revalidates);
      assert RoomFor(rows, question, a, codec) <==> FollowupFits(size, question, a.answer, json.value);
      if !FollowupFits(size, question, a.answer, json.value) { return Err(ContextTooLarge); }
      r := StageExchange(s, rows, Continue, question, a, json.value);
      if r.Err? { return; }
      if s.failAt == Some(ConversationUpdate) || s.failAt == Some(CommitStep) { return Err(DatabaseError); }
      if !s.authorized { return Err(RequestConflict); }
      assert WritesUsed(json.value, a, c.bookId, s, codec);
      FollowupStored(rows, c, s, question, a, json.value, codec);
    }

    /** The exchange is appended to the rows as they are, or nothing is stored. */
    method PersistBookFollowup(s: Surroundings, bookId: Id, conversationId: Id, expectedNextOrdinal: nat,
                               question: string, a: AssistantMessage)
      returns (error: Option<ErrorCode>)
      requires Valid()
      modifies this
      ensures Valid() && books == old(books)
      ensures error.None? <==>
                && Undisturbed(s, {ConversationLock, UserMessageInsert, AssistantMessageInsert, ConversationUpdate,
                                   CommitStep})
                && bookId in books && books[bookId] && ExchangeAcceptable(bookId, question, a, s, codec)
                && conversationId in old(conversations)
                && var rows, c := old(messages)[conversationId], old(conversations)[conversationId];
                && c.bookId == bookId && c.updatedAt <= s.now && expectedNextOrdinal == |rows|
                && RoomFor(rows, question, a, codec)
      ensures error.Some? ==> conversations == old(conversations) && messages == old(messages)
      ensures error == Some(ContextTooLarge) <==>
                && s.failAt != Some(ConversationLock)
                && bookId in books && books[bookId] && ExchangeAcceptable(bookId, question, a, s, codec)
                && conversationId in old(conversations)
                && var rows, c := old(messages)[conversationId], old(conversations)[conversationId];
                && c.bookId == bookId && c.updatedAt <= s.now && expectedNextOrdinal == |rows|
                && !RoomFor(rows, question, a, codec)
      ensures error.None? ==>
                var rows, c := old(messages)[conversationId], old(conversations)[conversationId];
                && conversations == old(conversations)[conversationId := Conversation(bookId, c.createdAt, s.now)]
                && exists used ::
                    && UsedBy(used, CitedIds(a.answer).value, a.available)
                    && messages == old(messages)[conversationId := rows + [
                         Row(s.userMessageId, |rows|, User, Continue, question, None, None, None, s.now),
                         Row(s.assistantMessageId, |rows| + 1, Assistant, Continue, a.answer, Some(a.profileId),
                             Some(a.modelId), Some(codec.encode(used)), s.now)]]
    {
      assert conversationId in conversations ==> Stored(messages[conversationId], conversations[conversationId], codec);
      error := CheckFollowup(s, bookId, conversationId, expectedNextOrdinal, question, a);
      if error.Some? { return; }
      var rows, c := messages[conversationId], conversations[conversationId];
      var staged := StageFollowup(s, rows, c, expectedNextOrdinal, question, a);
      if staged.Err? { return Some(staged.error); }
      WriteKeepsStored(conversations, messages, codec, conversationId, c.(updatedAt := s.now), staged.value);
      conversations, messages :=
        conversations[conversationId := c.(updatedAt := s.now)], messages[conversationId := staged.value];
      error := None;
    }

    /** The checks both the reader and the follow-up writer make of a stored history. */
    method LoadValidated(rows: seq<Row>, c: Conversation) returns (r: Result<seq<Message>>)
      ensures Stored(rows, c, codec) ==> r.Ok?
      ensures r.Ok? ==>
                && Readable(rows, c.bookId, codec) && Bounded(SizeOf(rows)) && c.createdAt <= c.updatedAt
                && |r.value| == |rows| && (forall i | 0 <= i < |rows| :: Reads(r.value[i], rows[i], codec))
                && ActionsOk(r.value) && TimesOk(r.value, c.createdAt, c.updatedAt)
    {
      if !Bounded(SizeOf(rows)) || c.updatedAt < c.createdAt {
        if Stored(rows, c, codec) { TimesRise(rows, |rows| - 1); }
        return Err(DatabaseError);
      }
      r := ParseConversationMessageRows(rows, c.bookId, codec);
      if r.Err? { return; }
      if Stored(rows, c, codec) { StoredMeansValidHistory(rows, r.value, c, codec); }
      var valid := ValidateBookMessageHistory(r.value, c.createdAt, c.updatedAt);
      if !valid { return Err(DatabaseError); }
    }

    /** Loading never fails on what this repository stored: for a ready book it returns exactly the messages written. */
    method LoadBookConversation(bookId: Id, conversationId: Id) returns (r: Result<History>)
      requires Valid()
      ensures r.Ok? <==> conversationId in conversations && conversations[conversationId].bookId == bookId
                         && bookId in books && books[bookId]
      ensures r.Err? ==> r.error == NotFound
      ensures r.Ok? ==>
                var rows, c := messages[conversationId], conversations[conversationId];
                && r.value.id == conversationId && r.value.bookId == bookId
                && r.value.createdAt == c.createdAt && r.value.updatedAt == c.updatedAt
                && |r.value.messages| == |rows| && forall i | 0 <= i < |rows| ::
                     Reads(r.value.messages[i], rows[i], codec)
    {
      if conversationId !in conversations || conversations[conversationId].bookId != bookId || bookId !in books
        || !books[bookId] {
        return Err(NotFound);
      }
      var c := conversations[conversationId];
      var loaded := LoadValidated(messages[conversationId], c);
      assert Stored(messages[conversationId], c, codec);
      r := if loaded.Err? then Err(DatabaseError)
        else Ok(History(conversationId, bookId, loaded.value, c.createdAt, c.updatedAt));
    }

    method DeleteBookConversation(bookId: Id, conversationId: Id, failAt: bool) returns (error: Option<ErrorCode>)
      requires Valid()
      modifies this
      ensures Valid() && books == old(books)
      ensures error.None? <==>
                !failAt && conversationId in old(conversations) && old(conversations)[conversationId].bookId == bookId
                               && bookId in books && books[bookId]
      ensures error.Some? ==> conversations == old(conversations) && messages == old(messages)
      ensures error.None? ==>
                conversations == old(conversations) - {conversationId} && messages == old(messages) - {conversationId}
    {
      if failAt { return Some(DatabaseError); }
      if conversationId !in conversations || conversations[conversationId].bookId != bookId { return Some(NotFound); }
      var ready := RequireReadyBook(bookId);
      if ready.Some? { return ready; }
      RemoveKeepsStored(conversations, messages, codec, conversationId);
      conversations, messages := conversations - {conversationId}, messages - {conversationId};
      error := None;
    }
  }
}

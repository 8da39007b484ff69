/** Message rows: what may be written, and the much stricter reading of what was written. */
module Messages {
  import opened Results
  import opened Text
  import opened CitationScan

  type Id = nat

  datatype Action = Explain | Example | Derive | Translate | Ask | Continue | OverviewAction
  datatype Role = User | Assistant

  /** A citation offered to the model; `detail` stands for its section, locator, label and review status. */
  datatype Citation = Citation(id: string, bookId: Id, quoteable: bool, detail: nat)

  datatype AssistantMessage = AssistantMessage(profileId: Id, modelId: string, answer: string, available: seq<Citation>)

  datatype Row = Row(
    id: Id, ordinal: nat, role: Role, action: Action, content: string,
    provider: Option<Id>, model: Option<string>, citations: Option<string>, createdAt: int)

  datatype Message = Message(
    id: Id, ordinal: nat, role: Role, action: Action, content: string,
    provider: Option<Id>, model: Option<string>, citations: seq<Citation>, createdAt: int)

  const MAX_QUESTION_CODE_POINTS: nat := 16_384
  const MAX_QUESTION_BYTES: nat := 64 * 1024
  const MAX_ANSWER_BYTES: nat := 4 * 1024 * 1024
  const MAX_ANSWER_CODE_POINTS: nat := 1_048_576
  const MAX_CITATIONS_JSON_BYTES: nat := 1024 * 1024
  const MAX_MODEL_ID_CODE_POINTS: nat := 256

  /** JSON as a pair of functions, one of which undoes the other. */
  datatype Codec = Codec(encode: seq<Citation> -> string, decode: string -> Option<seq<Citation>>)

  ghost predicate Faithful(codec: Codec) {
    forall c :: codec.decode(codec.encode(c)) == Some(c)
  }

  predicate ValidQuestion(value: string) {
    && !Blank(value) && Utf8Len(value) <= MAX_QUESTION_BYTES && |value| <= MAX_QUESTION_CODE_POINTS
    && !ContainsDisallowedControl(value)
  }

  predicate ValidAssistant(a: AssistantMessage) {
    && Trimmed(a.modelId) && a.modelId != "" && |a.modelId| <= MAX_MODEL_ID_CODE_POINTS
    && (forall i | 0 <= i < |a.modelId| :: !IsControl(a.modelId[i]))
    && !Blank(a.answer) && Utf8Len(a.answer) <= MAX_ANSWER_BYTES && |a.answer| <= MAX_ANSWER_CODE_POINTS
    && !ContainsDisallowedControl(a.answer)
    && |a.available| <= MAX_CITATIONS
  }

  // ----- writing citations

  /** The offered citations are TL-C1, TL-C2, .. of this book, quoteable, and still valid in the store. */
  predicate Offerable(available: seq<Citation>, bookId: Id, revalidates: Citation -> bool) {
    forall i | 0 <= i < |available| :: OfferableAt(available, i, bookId, revalidates)
  }

  predicate OfferableAt(available: seq<Citation>, i: nat, bookId: Id, revalidates: Citation -> bool)
    requires i < |available|
  {
    var c := available[i];
    c.id == "TL-C" + Decimal(i + 1) && c.bookId == bookId && c.quoteable && revalidates(c)
  }

  predicate Offered(available: seq<Citation>, id: string) {
    exists i | 0 <= i < |available| :: available[i].id == id
  }

  /** The citations an answer uses, in the order it first cites them. */
  ghost predicate UsedBy(used: seq<Citation>, ids: seq<string>, available: seq<Citation>) {
    |used| == |ids| && forall i | 0 <= i < |ids| :: used[i] in available && used[i].id == ids[i]
  }

  /** The answer cites only offered citations, and whatever citations it uses fit in the stored form. */
  ghost predicate CitationsAcceptable(bookId: Id, answer: string, available: seq<Citation>,
                                      revalidates: Citation -> bool, codec: Codec)
  {
    && Offerable(available, bookId, revalidates) && CitedIds(answer).Ok?
    && (forall id | id in CitedIds(answer).value :: Offered(available, id))
    && forall used | UsedBy(used, CitedIds(answer).value, available) ::
         Utf8Len(codec.encode(used)) <= MAX_CITATIONS_JSON_BYTES
  }

  method ValidatedUsedCitationsJson(bookId: Id, answer: string, available: seq<Citation>, revalidates: Citation -> bool,
                                    codec: Codec)
    returns (r: Result<string>, ghost used: seq<Citation>)
    ensures r.Ok? <==> CitationsAcceptable(bookId, answer, available, revalidates, codec)
    ensures r.Ok? ==> UsedBy(used, CitedIds(answer).value, available) && r.value == codec.encode(used)
    ensures r.Err? ==> r.error == InvalidInput
  {
    used := [];
    var indexed := IndexOffered(bookId, available, revalidates);
    if indexed.Err? { return Err(InvalidInput), used; }
    var byId := indexed.value;
    var cited := ExtractModelCitationIds(answer);
    if cited.Err? { return Err(InvalidInput), used; }
    var ids := cited.value;
    var chosen: seq<Citation> := [];
    for i := 0 to |ids|
      invariant UsedBy(chosen, ids[..i], available)
    {
      if ids[i] !in byId {
        assert !Offered(available, CitedIds(answer).value[i]);
        return Err(InvalidInput), used;
      }
      chosen := chosen + [byId[ids[i]]];
    }
    assert ids[..|ids|] == ids;
    used := chosen;
    var json := codec.encode(chosen);
    if Utf8Len(json) > MAX_CITATIONS_JSON_BYTES { return Err(InvalidInput), used; }
    UsesUnique(used, ids, available, bookId, revalidates);
    forall id | id in ids ensures Offered(available, id) {
      var i :| 0 <= i < |ids| && ids[i] == id;
      assert used[i] in available && used[i].id == id;
    }
    r := Ok(json);
  }

  /** Offered citations have different ids, so the answer's ids decide which citations it uses. */
  lemma UsesUnique(used: seq<Citation>, ids: seq<string>, available: seq<Citation>, bookId: Id,
                   revalidates: Citation -> bool)
    requires Offerable(available, bookId, revalidates) && UsedBy(used, ids, available)
    ensures forall other | UsedBy(other, ids, available) :: other == used
  {
    forall other | UsedBy(other, ids, available) ensures other == used {
      forall i | 0 <= i < |ids| ensures other[i] == used[i] {
        var j :| 0 <= j < |available| && available[j] == used[i];
        var k :| 0 <= k < |available| && available[k] == other[i];
        assert OfferableAt(available, j, bookId, revalidates) && OfferableAt(available, k, bookId, revalidates);
        assert ("TL-C" + Decimal(j + 1))[4..] == Decimal(j + 1) && ("TL-C" + Decimal(k + 1))[4..] == Decimal(k + 1);
        DecimalReads(j + 1);
        DecimalReads(k + 1);
      }
    }
  }

  /** The offered citations by id. */
  method IndexOffered(bookId: Id, available: seq<Citation>, revalidates: Citation -> bool)
    returns (r: Result<map<string, Citation>>)
    ensures r.Ok? <==> Offerable(available, bookId, revalidates)
    ensures r.Ok? ==> forall id :: id in r.value <==> Offered(available, id)
    ensures r.Ok? ==> forall id | id in r.value :: r.value[id] in available && r.value[id].id == id
  {
    var byId: map<string, Citation> := map[];
    for i := 0 to |available|
      invariant forall k | 0 <= k < i :: OfferableAt(available, k, bookId, revalidates)
      invariant forall id :: id in byId <==> Offered(available[..i], id)
      invariant forall id | id in byId :: byId[id] in available && byId[id].id == id
    {
      var c := available[i];
      if !OfferableAt(available, i, bookId, revalidates) {
        return Err(InvalidInput);
      }
      OfferedOfSnoc(available, i);
      byId := byId[c.id := c];
    }
    assert available[..|available|] == available;
    r := Ok(byId);
  }

  lemma OfferedOfSnoc(available: seq<Citation>, i: nat)
    requires i < |available|
    ensures forall id :: Offered(available[..i + 1], id) <==> Offered(available[..i], id) || id == available[i].id
  {
    forall id ensures Offered(available[..i + 1], id) <==> Offered(available[..i], id) || id == available[i].id {
      if Offered(available[..i], id) {
        var k :| 0 <= k < i && available[..i][k].id == id;
        assert available[..i + 1][k].id == id;
      }
      if id == available[i].id { assert available[..i + 1][i].id == id; }
    }
  }

  // ----- reading rows

  predicate UserRowReadable(row: Row) {
    row.role == User && row.provider.None? && row.model.None? && row.citations.None? && ValidQuestion(row.content)
  }

  predicate AssistantRowReadable(row: Row, bookId: Id, codec: Codec) {
    && row.role == Assistant && row.provider.Some? && row.model.Some? && row.citations.Some?
    && Utf8Len(row.citations.value) <= MAX_CITATIONS_JSON_BYTES
    && var decoded := codec.decode(row.citations.value);
    && decoded.Some? && |decoded.value| <= MAX_CITATIONS
    && (forall c | c in decoded.value :: c.bookId == bookId)
    && var cited := CitedIds(row.content);
    && cited.Ok? && |cited.value| == |decoded.value|
    && (forall i | 0 <= i < |cited.value| :: decoded.value[i].id == cited.value[i])
    && ValidAssistant(AssistantMessage(row.provider.value, row.model.value, row.content, decoded.value))
  }

  predicate RowReadable(row: Row, index: nat, bookId: Id, codec: Codec) {
    && row.ordinal == index
    && if index % 2 == 0 then UserRowReadable(row) else AssistantRowReadable(row, bookId, codec)
  }

  /** The whole list can be read: every row on its own, and each answer has its question's action. */
  predicate Readable(rows: seq<Row>, bookId: Id, codec: Codec) {
    && |rows| >= 2 && |rows| % 2 == 0
    && (forall i | 0 <= i < |rows| :: RowReadable(rows[i], i, bookId, codec))
    && (forall i | 0 <= i < |rows| && i % 2 == 1 :: rows[i - 1].action == rows[i].action)
  }

  /** The message a row stands for. */
  predicate Reads(m: Message, row: Row, codec: Codec) {
    && m.id == row.id && m.ordinal == row.ordinal && m.role == row.role && m.action == row.action
    && m.content == row.content && m.provider == row.provider && m.model == row.model && m.createdAt == row.createdAt
    && if row.citations.None? then m.citations == [] else codec.decode(row.citations.value) == Some(m.citations)
  }

  method ParseConversationMessageRows(rows: seq<Row>, bookId: Id, codec: Codec) returns (r: Result<seq<Message>>)
    ensures r.Ok? <==> Readable(rows, bookId, codec)
    ensures r.Err? ==> r.error == DatabaseError
    ensures r.Ok? ==> |r.value| == |rows| && forall i | 0 <= i < |rows| :: Reads(r.value[i], rows[i], codec)
  {
    if |rows| < 2 || |rows| % 2 != 0 { return Err(DatabaseError); }
    var messages: seq<Message> := [];
    for index := 0 to |rows|
      invariant |messages| == index
      invariant forall i | 0 <= i < index ::
                  RowReadable(rows[i], i, bookId, codec) && Reads(messages[i], rows[i], codec)
      invariant forall i | 0 <= i < index && i % 2 == 1 :: rows[i - 1].action == rows[i].action
    {
      var row := rows[index];
      if row.ordinal != index { return Err(DatabaseError); }
      var citations: seq<Citation> := [];
      if index % 2 == 0 {
        if row.role != User || row.provider.Some? || row.model.Some? || row.citations.Some?
          || !ValidQuestion(row.content) {
          return Err(DatabaseError);
        }
      } else {
        var parsed := ParseAssistantRow(row, bookId, codec);
        if parsed.Err? { return Err(DatabaseError); }
        citations := parsed.value;
        if messages[index - 1].action != row.action { return Err(DatabaseError); }
      }
      messages := messages
        + [Message(row.id, row.ordinal, row.role, row.action, row.content, row.provider, row.model, citations,
                   row.createdAt)];
    }
    r := Ok(messages);
  }

  method ParseAssistantRow(row: Row, bookId: Id, codec: Codec) returns (r: Result<seq<Citation>>)
    ensures r.Ok? <==> AssistantRowReadable(row, bookId, codec)
    ensures r.Ok? ==> codec.decode(row.citations.value) == Some(r.value)
  {
    if row.role != Assistant || row.provider.None? || row.model.None?
      || row.citations.None? { return Err(DatabaseError); }
    if Utf8Len(row.citations.value) > MAX_CITATIONS_JSON_BYTES { return Err(DatabaseError); }
    var decoded := codec.decode(row.citations.value);
    if decoded.None? { return Err(DatabaseError); }
    var citations := decoded.value;
    if |citations| > MAX_CITATIONS || exists c | c in citations :: c.bookId != bookId { return Err(DatabaseError); }
    var cited := ExtractModelCitationIds(row.content);
    if cited.Err? { return Err(DatabaseError); }
    if |cited.value| != |citations| || exists i | 0 <= i < |citations| ::
      citations[i].id != cited.value[i] { return Err(DatabaseError); }
    if !ValidAssistant(AssistantMessage(row.provider.value, row.model.value, row.content,
                                        citations)) { return Err(DatabaseError); }
    r := Ok(citations);
  }

  // ----- what is written can be read

  /** An answer that passed the write checks, stored with the citations it uses, passes the read checks. */
  lemma WrittenAnswerReadable(row: Row, a: AssistantMessage, bookId: Id, used: seq<Citation>, codec: Codec,
                              revalidates: Citation -> bool)
    requires Faithful(codec) && ValidAssistant(a) && Offerable(a.available, bookId, revalidates)
    requires CitedIds(a.answer).Ok? && UsedBy(used, CitedIds(a.answer).value, a.available)
    requires Utf8Len(codec.encode(used)) <= MAX_CITATIONS_JSON_BYTES
    requires row.role == Assistant && row.content == a.answer && row.provider == Some(a.profileId)
             && row.model == Some(a.modelId)
    requires row.citations == Some(codec.encode(used))
    ensures AssistantRowReadable(row, bookId, codec)
  {
    assert codec.decode(codec.encode(used)) == Some(used);
    forall c | c in used ensures c.bookId == bookId {
      var i :| 0 <= i < |used| && used[i] == c;
      var k :| 0 <= k < |a.available| && a.available[k] == used[i];
      assert OfferableAt(a.available, k, bookId, revalidates);
    }
  }
}

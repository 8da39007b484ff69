/** Rows of the page index, the stable identifiers, and the from-scratch definition of its search chunks. */
module IndexModel {
  import opened Results
  import opened Text

  // A version 5 UUID is a free term over its namespace and its name, so distinct inputs give distinct ids.
  datatype Uuid = Random(n: nat) | Named(namespace: Uuid, name: Name)

  datatype Name =
    | PageName(pageNumber: nat)
    | BlockName(pageNumber: nat, runId: Uuid, schema: string, ordinal: nat)
    | ChunkName(source: ContentSource, ordinal: nat)
    | CorrectionName(blockId: Uuid, kind: ValueKind)

  datatype ContentSource = AiTranscribed | AiDescription | UserCorrected
  datatype ValueKind = TextValue | LatexValue
  datatype ConflictState = Active | Conflict
  datatype RunStatus = Running | Paused | Cancelling | Cancelled | Completed
  datatype PageStatus =
    | NotRequired | Queued | Rendering | Sending | Parsing | Validating
    | Indexed | NeedsReview | Failed | PageCancelled
  datatype ReviewReason =
    | IncompleteContent | InvalidBounds | SevereOverlap | TextContradiction | MalformedTable | MalformedLatex
  datatype FailureCode = ScratchMissing | AttemptExpired | OtherFailure

  datatype Bounds = Bounds(x: real, y: real, width: real, height: real)
  datatype Locator = PdfLocator(page: nat, bounds: Option<Bounds>)

  const VERSION_CAP: nat := 1_000_000
  const REVISION_CAP: nat := 1_000_000
  const CHUNKS_PER_BLOCK: nat := 4
  const MAX_CHUNK_ORDINAL: nat := 100_000

  datatype Run = Run(bookId: Uuid, schema: string, status: RunStatus)

  /** The columns of a page row that change while a page is processed. */
  datatype PageLife = PageLife(
    status: PageStatus,
    attemptId: Option<Uuid>,
    attemptCount: nat,
    renderHash: Option<string>,
    responseHash: Option<string>,
    reviewReason: Option<ReviewReason>,
    failure: Option<FailureCode>,
    retryable: bool,
    updatedAt: int)

  datatype Page = Page(runId: Uuid, bookId: Uuid, pageNumber: nat, contentVersion: nat, life: PageLife)

  datatype ValidatedBlock = ValidatedBlock(
    ordinal: nat,
    plainText: Option<string>,
    latex: Option<string>,
    tableCells: Option<seq<string>>,
    description: Option<string>,
    bounds: Option<Bounds>)

  datatype ValidatedPage = ValidatedPage(
    pageNumber: nat, blocks: seq<ValidatedBlock>, reviewReason: Option<ReviewReason>)

  datatype Block = Block(pageId: Uuid, runId: Uuid, bookId: Uuid, content: ValidatedBlock, contentVersion: nat)

  datatype Correction = Correction(
    bookId: Uuid,
    pageId: Uuid,
    targetBlockId: Uuid,
    targetVersion: nat,
    region: Option<Bounds>,
    kind: ValueKind,
    originalHash: string,
    originalValue: string,
    correctedValue: string,
    state: ConflictState,
    revision: nat)

  datatype Chunk = Chunk(
    bookId: Uuid,
    pageId: Uuid,
    blockId: Uuid,
    correctionId: Option<Uuid>,
    ordinal: nat,
    source: ContentSource,
    text: string,
    locator: Locator,
    tokenEstimate: nat,
    contentVersion: nat)

  /** The source tables. The chunk table is not part of them: it is derived. */
  datatype Tables = Tables(
    runs: map<Uuid, Run>,
    pages: map<Uuid, Page>,
    blocks: map<Uuid, Block>,
    corrections: map<Uuid, Correction>)

  // ----- stable identifiers

  function StablePageId(runId: Uuid, pageNumber: nat): Uuid {
    Named(runId, PageName(pageNumber))
  }

  function StableBlockId(bookId: Uuid, pageNumber: nat, runId: Uuid, schema: string, ordinal: nat): Uuid {
    Named(bookId, BlockName(pageNumber, runId, schema, ordinal))
  }

  function StableCorrectionId(pageId: Uuid, blockId: Uuid, kind: ValueKind): Uuid {
    Named(pageId, CorrectionName(blockId, kind))
  }

  function StableChunkId(c: Chunk): Uuid {
    Named(c.blockId, ChunkName(c.source, c.ordinal))
  }

  // ----- values of a block

  function ProviderValue(block: ValidatedBlock, kind: ValueKind): Option<string> {
    match kind
    case TextValue => block.plainText
    case LatexValue => block.latex
  }

  function JoinLines(cells: seq<string>): string {
    if cells == [] then ""
    else if |cells| == 1 then cells[0]
    else cells[0] + "\n" + JoinLines(cells[1..])
  }

  /** What the validator guarantees of every block it lets through. */
  predicate ValidBlock(b: ValidatedBlock) {
    && (b.plainText.Some? ==> !Blank(b.plainText.value))
    && (b.latex.Some? ==> !Blank(b.latex.value))
    && (b.tableCells.Some? ==> b.tableCells.value != [] && forall cell | cell in b.tableCells.value :: !Blank(cell))
    && (b.description.Some? ==> !Blank(b.description.value))
  }

  predicate ValidPage(page: ValidatedPage) {
    && (forall b | b in page.blocks :: ValidBlock(b))
    && DistinctOrdinals(page.blocks)
  }

  predicate DistinctOrdinals(blocks: seq<ValidatedBlock>) {
    forall i, j | 0 <= i < j < |blocks| :: blocks[i].ordinal != blocks[j].ordinal
  }

  // ----- the four search slots of a block

  datatype Slot = TextSlot | LatexSlot | TableSlot | DescriptionSlot

  function Offset(slot: Slot): nat {
    match slot
    case TextSlot => 0
    case LatexSlot => 1
    case TableSlot => 2
    case DescriptionSlot => 3
  }

  function KindSlot(kind: ValueKind): Slot {
    match kind
    case TextValue => TextSlot
    case LatexValue => LatexSlot
  }

  function ChunkOrdinal(blockOrdinal: nat, slot: Slot): nat {
    CHUNKS_PER_BLOCK * blockOrdinal + Offset(slot)
  }

  predicate HasSlotValue(b: ValidatedBlock, slot: Slot) {
    match slot
    case TextSlot => b.plainText.Some?
    case LatexSlot => b.latex.Some?
    case TableSlot => b.tableCells.Some?
    case DescriptionSlot => b.description.Some?
  }

  predicate OrdinalsFit(b: ValidatedBlock) {
    forall slot: Slot | HasSlotValue(b, slot) :: ChunkOrdinal(b.ordinal, slot) <= MAX_CHUNK_ORDINAL
  }

  /** What one slot is searched by: its source, the correction it shows, and its text. */
  datatype SearchValue = SearchValue(source: ContentSource, correctionId: Option<Uuid>, text: string)

  function Overlay(corrections: map<Uuid, Correction>, pageId: Uuid, blockId: Uuid, kind: ValueKind,
                   provider: Option<string>): Option<SearchValue>
  {
    var id := StableCorrectionId(pageId, blockId, kind);
    if provider.None? then None
    else if id !in corrections then Some(SearchValue(AiTranscribed, None, provider.value))
    else if corrections[id].state.Conflict? then None
    else Some(SearchValue(UserCorrected, Some(id), corrections[id].correctedValue))
  }

  function SlotValue(corrections: map<Uuid, Correction>, blockId: Uuid, block: Block, slot: Slot): Option<SearchValue> {
    match slot
    case TextSlot => Overlay(corrections, block.pageId, blockId, TextValue, block.content.plainText)
    case LatexSlot => Overlay(corrections, block.pageId, blockId, LatexValue, block.content.latex)
    case TableSlot =>
      if block.content.tableCells.None? then None
      else Some(SearchValue(AiTranscribed, None, JoinLines(block.content.tableCells.value)))
    case DescriptionSlot =>
      if block.content.description.None? then None
      else Some(SearchValue(AiDescription, None, block.content.description.value))
  }

  function TokenEstimate(text: string): nat {
    var quarter := (|text| + 3) / 4;
    if quarter < 1 then 1 else quarter
  }

  function MakeChunk(pageNumber: nat, blockId: Uuid, block: Block, slot: Slot, v: SearchValue): Chunk {
    Chunk(block.bookId, block.pageId, blockId, v.correctionId, ChunkOrdinal(block.content.ordinal, slot), v.source,
          v.text, PdfLocator(pageNumber, block.content.bounds), TokenEstimate(v.text), block.contentVersion)
  }

  function SlotChunk(corrections: map<Uuid, Correction>, pageNumber: nat, blockId: Uuid, block: Block,
                     slot: Slot): Option<Chunk>
  {
    var v := SlotValue(corrections, blockId, block, slot);
    if v.None? then None else Some(MakeChunk(pageNumber, blockId, block, slot, v.value))
  }

  // ----- the rebuild

  /** The block belongs to the content version its page shows. */
  predicate Current(t: Tables, blockId: Uuid) {
    && blockId in t.blocks
    && t.blocks[blockId].pageId in t.pages
    && t.blocks[blockId].contentVersion == t.pages[t.blocks[blockId].pageId].contentVersion
  }

  function ExpectedChunk(t: Tables, blockId: Uuid, slot: Slot): Option<Chunk>
    requires Current(t, blockId)
  {
    SlotChunk(t.corrections, t.pages[t.blocks[blockId].pageId].pageNumber, blockId, t.blocks[blockId], slot)
  }

  /** The chunk table a rebuild from nothing would produce: every slot of every current block. */
  ghost function Rebuild(t: Tables): set<Chunk> {
    set blockId, slot: Slot | blockId in t.blocks && Current(t, blockId) && ExpectedChunk(t, blockId, slot).Some?
      :: ExpectedChunk(t, blockId, slot).value
  }
}

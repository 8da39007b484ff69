/** Storing extracted text: normalize, chunk, and replace what was stored before. */
module Extraction {
  import opened Results
  import opened Text
  import opened Chunker
  import opened Normalizer

  datatype Status = Unfinished | Ready

  class BookExtraction {
    var status: Status
    var normalizedText: string
    var chunks: seq<Chunk>

    constructor ()
      ensures status == Unfinished && normalizedText == "" && chunks == []
    {
      status, normalizedText, chunks := Unfinished, "", [];
    }

    /** Fails, changing nothing, exactly on a text with a NUL or without a character that is not whitespace. */
    method PersistContent(raw: string) returns (r: Result<()>)
      modifies this
      ensures r.Ok? <==> '\0' !in raw && !Blank(raw)
      ensures r.Err? ==> r == Err(ProviderUnavailable)
                         && status == old(status) && normalizedText == old(normalizedText) && chunks == old(chunks)
      ensures r.Ok? ==> status == Ready && normalizedText == Normalized(raw)
                        && ChunksOf(normalizedText, chunks, NonBlank(normalizedText, Windows(normalizedText, 0)))
    {
      var normalized := Normalize(raw);
      if normalized.Err? {
        return Err(normalized.error);
      }
      var pieces := ChunkText(normalized.value);
      NoChunksWhenBlank(normalized.value, pieces, Windows(normalized.value, 0));
      BlankExactlyWhenRaw(raw);
      if pieces == [] {
        return Err(ProviderUnavailable);
      }
      normalizedText := normalized.value;
      chunks := pieces;
      status := Ready;
      r := Ok(());
    }
  }

  lemma BlankExactlyWhenRaw(raw: string)
    ensures Blank(Normalized(raw)) <==> Blank(raw)
  {
    EmptyExactlyWhenBlank(raw);
    NormalizedIsNormal(raw);
  }
}

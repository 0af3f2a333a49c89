/** `create_document_langchain`: one indexable document per chunk, whose searchable
    text is the chunk text or a model-written description, and whose metadata keeps
    the separated content for use at answer time. */
module Indexing {
  import opened Common
  import opened Messages
  import opened Separation
  import Summary

  /** The `original_content` metadata: the separated content minus its type tags.
      It is JSON-encoded in the index; the encoding is not modelled. */
  datatype StoredContent = StoredContent(
    text: string,
    tables: seq<string>,
    images: seq<string>,
    pageNumbers: set<string>)

  /** A document of the index: the text that is embedded and matched against queries,
      and the original content when the metadata carries one. */
  datatype Document = Document(pageContent: string, originalContent: Option<StoredContent>)

  /** What the metadata keeps of a content record. */
  function Pack(c: ContentRecord): StoredContent
  {
    StoredContent(c.text, c.tables, c.images, c.pageNumbers)
  }

  /** Rebuilds a content record from stored content, recomputing the type tags. */
  function Restore(s: StoredContent): ContentRecord
  {
    var types := {TextTag}
      + (if |s.tables| > 0 then {TableTag} else {})
      + (if |s.images| > 0 then {ImageTag} else {});
    ContentRecord(s.text, s.tables, s.images, types, s.pageNumbers)
  }

  /** The chunk holds a table or an image, so its text alone is a poor search target. */
  predicate HasMixedContent(c: ContentRecord)
  {
    |c.images| > 0 || |c.tables| > 0
  }

  /** One built document and the summary request it cost, if any. */
  datatype Built = Built(doc: Document, summaryRequest: Option<Message>)

  /** The result of indexing a chunk sequence: the documents, and every summary request
      sent to the model, in the order they were sent. */
  datatype BuildLog = BuildLog(docs: seq<Document>, summaryRequests: seq<Message>)

  /** One iteration of `create_document_langchain`. */
  function BuildDocument(dir: string, chunk: Chunk, llm: Llm): (r: Result<Built, SeparationError>)
    ensures r.Success? <==> chunk.origElements.Some?
    ensures r.Success? ==>
      var c := Separate(dir, chunk).value;
      var m := Summary.SummaryMessage(c.text, c.tables, c.images);
      var b := r.value;
      && b.doc.originalContent == Some(StoredContent(chunk.text, c.tables, c.images, c.pageNumbers))
      && (!HasMixedContent(c) ==> b.doc.pageContent == chunk.text && b.summaryRequest == None)
      && (HasMixedContent(c) ==> b.summaryRequest == Some(m))
      && (HasMixedContent(c) && llm(m).Success? ==> b.doc.pageContent == llm(m).value)
      && (HasMixedContent(c) && llm(m).Failure? ==> b.doc.pageContent == Summary.Fallback(chunk.text))
  {
    match Separate(dir, chunk)
    case Failure(e) => Failure(e)
    case Success(c) =>
      if HasMixedContent(c) then
        var content := Summary.AiSummary(c.text, c.tables, c.images, llm);
        Success(Built(Document(content, Some(Pack(c))), Some(Summary.SummaryMessage(c.text, c.tables, c.images))))
      else
        Success(Built(Document(c.text, Some(Pack(c))), None))
  }

  /** 1 when the chunk separates into content holding a table or an image, else 0. */
  function MixedOne(dir: string, chunk: Chunk): nat
  {
    match Separate(dir, chunk)
    case Success(c) => if HasMixedContent(c) then 1 else 0
    case Failure(_) => 0
  }

  /** The number of chunks holding a table or an image. */
  function MixedCount(dir: string, chunks: seq<Chunk>): nat
  {
    if |chunks| == 0 then 0 else MixedOne(dir, chunks[0]) + MixedCount(dir, chunks[1..])
  }

  /** `create_document_langchain`: exactly one document per chunk, in chunk order, and
      one summary request per chunk with a table or an image (none for the others).
      A chunk without `orig_elements` makes the whole call raise. */
  function BuildDocuments(dir: string, chunks: seq<Chunk>, llm: Llm): (r: Result<BuildLog, SeparationError>)
    ensures r.Success? <==> forall i :: 0 <= i < |chunks| ==> chunks[i].origElements.Some?
    ensures r.Success? ==>
      && |r.value.docs| == |chunks|
      && (forall i :: 0 <= i < |chunks| ==> r.value.docs[i] == BuildDocument(dir, chunks[i], llm).value.doc)
      && |r.value.summaryRequests| == MixedCount(dir, chunks)
      && r.value.summaryRequests == SummaryRequestsOf(dir, chunks)
  {
    var build := (c: Chunk) => BuildDocument(dir, c, llm);
    assert forall i :: 0 <= i < |chunks| ==> build(chunks[i]) == BuildDocument(dir, chunks[i], llm);
    match MapResult(chunks, build)
    case Failure(e) => Failure(e)
    case Success(built) =>
      RequestsCount(dir, chunks, llm, built);
      RequestsAreSummaryRequests(dir, chunks, llm, built);
      Success(BuildLog(seq(|built|, i requires 0 <= i < |built| => built[i].doc), RequestsOf(built)))
  }

  /** The summary request a built document cost, as a sequence of zero or one. */
  function Requests(b: Built): seq<Message>
  {
    match b.summaryRequest
    case Some(m) => [m]
    case None => []
  }

  /** Every summary request of a run, in the order the chunks were built. */
  function RequestsOf(built: seq<Built>): seq<Message>
  {
    if |built| == 0 then [] else Requests(built[0]) + RequestsOf(built[1..])
  }

  /** Reference definition: the summary request a chunk calls for, namely the summary
      message of its separated content when that holds a table or an image. */
  function SummaryRequestOf(dir: string, chunk: Chunk): seq<Message>
  {
    match Separate(dir, chunk)
    case Success(c) => if HasMixedContent(c) then [Summary.SummaryMessage(c.text, c.tables, c.images)] else []
    case Failure(_) => []
  }

  /** Reference definition: the summary requests the chunks call for, in chunk order. */
  function SummaryRequestsOf(dir: string, chunks: seq<Chunk>): seq<Message>
  {
    if |chunks| == 0 then [] else SummaryRequestOf(dir, chunks[0]) + SummaryRequestsOf(dir, chunks[1..])
  }

  /** The request a built chunk records is the one its content calls for. */
  lemma RequestOfChunkIsSummary(dir: string, chunk: Chunk, llm: Llm)
    requires chunk.origElements.Some?
    ensures Requests(BuildDocument(dir, chunk, llm).value) == SummaryRequestOf(dir, chunk)
  {
  }

  /** The run's requests are exactly the requests the chunks call for, in chunk order. */
  lemma {:induction false} RequestsAreSummaryRequests(dir: string, chunks: seq<Chunk>, llm: Llm, built: seq<Built>)
    requires |built| == |chunks|
    requires forall i :: 0 <= i < |chunks| ==>
      BuildDocument(dir, chunks[i], llm).Success? && built[i] == BuildDocument(dir, chunks[i], llm).value
    ensures RequestsOf(built) == SummaryRequestsOf(dir, chunks)
    decreases |chunks|
  {
    if |chunks| > 0 {
      assert forall i :: 1 <= i < |chunks| ==> chunks[1..][i - 1] == chunks[i] && built[1..][i - 1] == built[i];
      RequestsAreSummaryRequests(dir, chunks[1..], llm, built[1..]);
      RequestOfChunkIsSummary(dir, chunks[0], llm);
    }
  }

  /** A chunk costs one summary request exactly when it holds a table or an image. */
  lemma RequestOfChunk(dir: string, chunk: Chunk, llm: Llm)
    requires chunk.origElements.Some?
    ensures |Requests(BuildDocument(dir, chunk, llm).value)| == MixedOne(dir, chunk)
  {
  }

  lemma {:induction false} RequestsCount(dir: string, chunks: seq<Chunk>, llm: Llm, built: seq<Built>)
    requires |built| == |chunks|
    requires forall i :: 0 <= i < |chunks| ==>
      BuildDocument(dir, chunks[i], llm).Success? && built[i] == BuildDocument(dir, chunks[i], llm).value
    ensures |RequestsOf(built)| == MixedCount(dir, chunks)
    decreases |chunks|
  {
    if |chunks| > 0 {
      assert forall i :: 1 <= i < |chunks| ==> chunks[1..][i - 1] == chunks[i] && built[1..][i - 1] == built[i];
      RequestsCount(dir, chunks[1..], llm, built[1..]);
      RequestOfChunk(dir, chunks[0], llm);
    }
  }

  /** The metadata loses nothing: the type tags it drops are determined by the rest,
      so the separated record can be rebuilt from it exactly. */
  lemma StoredContentIsLossless(dir: string, chunk: Chunk)
    requires chunk.origElements.Some?
    ensures Restore(Pack(Separate(dir, chunk).value)) == Separate(dir, chunk).value
  {
    var c := Separate(dir, chunk).value;
    var r := Restore(Pack(c));
    assert forall t: Modality :: t in r.types <==> t in c.types by {
      forall t: Modality
        ensures t in r.types <==> t in c.types
      {
        match t
        case TextTag =>
        case TableTag =>
        case ImageTag =>
      }
    }
  }

  /** The builder's test "images or tables" is the same as "some tag besides text". */
  lemma MixedIffTaggedBeyondText(dir: string, chunk: Chunk)
    requires chunk.origElements.Some?
    ensures HasMixedContent(Separate(dir, chunk).value) <==> Separate(dir, chunk).value.types != {TextTag}
  {
    var c := Separate(dir, chunk).value;
    if !HasMixedContent(c) {
      assert forall t: Modality :: t in c.types <==> t == TextTag by {
        forall t: Modality
          ensures t in c.types <==> t == TextTag
        {
          match t
          case TextTag =>
          case TableTag =>
          case ImageTag =>
        }
      }
    } else if |c.tables| > 0 {
      assert TableTag in c.types;
    } else {
      assert ImageTag in c.types;
    }
  }

  /** Every document this pipeline builds carries its original content, and each of
      its page locators lies in the document's image directory. */
  lemma {:induction false} BuiltDocumentsCarryContent(dir: string, chunks: seq<Chunk>, llm: Llm)
    requires forall i :: 0 <= i < |chunks| ==> chunks[i].origElements.Some?
    ensures forall d :: d in BuildDocuments(dir, chunks, llm).value.docs ==>
              && d.originalContent.Some?
              && forall loc :: loc in d.originalContent.value.pageNumbers ==> dir <= loc
  {
    var docs := BuildDocuments(dir, chunks, llm).value.docs;
    forall d | d in docs
      ensures d.originalContent.Some?
      ensures forall loc :: loc in d.originalContent.value.pageNumbers ==> dir <= loc
    {
      var i :| 0 <= i < |docs| && docs[i] == d;
      assert d == BuildDocument(dir, chunks[i], llm).value.doc;
    }
  }

  /** A chunk with neither tables nor images never reaches the model, whatever the
      model would have answered; its searchable text is its own text. */
  lemma PureTextChunkSkipsModel(dir: string, chunk: Chunk, llm1: Llm, llm2: Llm)
    requires chunk.origElements.Some?
    requires !HasMixedContent(Separate(dir, chunk).value)
    ensures BuildDocument(dir, chunk, llm1) == BuildDocument(dir, chunk, llm2)
    ensures BuildDocument(dir, chunk, llm1).value.doc.pageContent == chunk.text
  {
  }
}

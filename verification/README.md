# Multimodal PDF question answering — Dafny model of the data-shaping core

The system answers questions about a PDF that mixes prose, tables and images.
Partitioning turns the PDF into layout elements. These are grouped into
title-bounded chunks. Each chunk is **separated** into typed content: text,
tables, images, content-kind tags and page-image locators. A chunk holding tables
or images is **summarised** by a vision-capable chat model into searchable text.
One indexable **document** per chunk pairs that searchable text with the original
content. At question time the retrieved documents are turned into a numbered,
grounded **prompt**, the model answers, and the answer comes back with the
de-duplicated **page links** of every retrieved chunk.

This project models the pure logic of class `MultimodalRAG` in `pdf_qa.py` as
immutable datatypes and functions. The chat model is a parameter
`llm: Message -> Result<string, LlmError>`: an uninterpreted function that may fail.

| module (file) | models |
|---|---|
| `Common` (common.dfy) | `Option`/`Result`, and the `for i, x in enumerate(xs): prompt += ...` idiom (`EnumerateAppend`) with its joined-blocks characterisation |
| `Decimal` (decimal.dfy) | `str()` of an integer inside f-strings, with its inverse |
| `Naming` (naming.dfy) | `os.path.basename`/`splitext` (POSIX), `pdf_name`, the images directory, `page_{n}.png` locators, the collection name |
| `Separation` (separation.dfy) | `separate_chunk_contents` |
| `Messages` (messages.dfy) | the one-human-message request: a text part, then one `data:image/jpeg;base64,` part per image |
| `Summary` (summary.dfy) | `ai_summary`: prompt, request, fallback |
| `Indexing` (indexing.dfy) | `create_document_langchain` and the `original_content` metadata |
| `Answering` (answering.dfy) | `get_page_links`, `generate_answer` |

Notes on the code's behaviour that the model keeps:
- The summariser's fallback (pdf_qa.py:116) is `text[300:] + "..."`. It drops the first 300 characters and keeps the rest, so its length varies with the text.
- The builder's own fallback to the raw text (pdf_qa.py:133-135) can never run. `ai_summary` already catches every `Exception` and returns a string. So the searchable text is always either the model's reply or that fallback string.
- The separator does not test an image's category. It tests whether the element's Python class is named `Image`, and only after the category "Table" test has failed. An element of category "Table" is always a table.
- A table without an HTML rendering contributes its plain text (with `getattr` read literally; see Left out).
- A chunk without `orig_elements` is not handled. Line 69 reads them unconditionally and raises, and the raise reaches the caller of `create_document_langchain`. The model returns `Failure(MissingOrigElements)` in that case.
- `generate_answer` never puts the question into its prompt (see Findings). `Answering.GenerateAnswerAsWritten` models it as it runs; `Answering.GenerateAnswer` is the corrected version.
- `generate_answer` returns the bare apology string whenever the model call fails or a retrieved document lacks `original_content`. With no retrieved documents and a successful call, it returns the answer with empty page links.
- An element without a page number gets the locator `page_None.png`, as the f-string renders it.

## Model

| member | source | states |
|---|---|---|
| Common.EnumerateAppend | pdf_qa.py:85-88 | the enumerate-and-append loop leaves the accumulated prompt followed by the blocks of all elements, each labelled with its 1-based position, in element order |
| Common.MapResult | pdf_qa.py:120-155 | a loop whose body may raise succeeds exactly when every iteration does, and then yields one result per element, in order |
| Decimal.IntToStringRoundTrip | pdf_qa.py:69 | the decimal rendering of a page number (or label) in an f-string reads back as the same integer, so distinct numbers are rendered differently |
| Naming.Basename | pdf_qa.py:25 | the base name is a suffix of the path that contains no '/', and is preceded in the path by a '/' unless it is the whole path |
| Naming.SplitExt | pdf_qa.py:25 | root followed by extension rebuilds the path; the extension is non-empty exactly when the final path component has a '.' after some character other than '.'; it is then the last '.' segment of that component (no further '.' or '/'), and a character other than '.' precedes it in the component |
| Naming.PdfName | pdf_qa.py:25 | `pdf_name` contains no '/' and is a prefix of the base name; when the base name has an extension, `pdf_name` is the base name cut just before its last '.', and otherwise it is the whole base name |
| Naming.ImagesDir | pdf_qa.py:26 | the images directory lies under `./pdf_images/` and ends with '/' |
| Naming.PageLocator | pdf_qa.py:69 | every page locator starts with the document's images directory |
| Naming.CollectionName | pdf_qa.py:161 | the collection name is `pdf_name` cut just before its last '.' when `pdf_name` still has an extension, and `pdf_name` itself otherwise; it keeps `pdf_name`'s freedom from '/' |
| Naming.CollectionStripsOneMore | pdf_qa.py:161 | the collection name is shorter than `pdf_name` exactly when `pdf_name` still has an extension: one more extension is stripped |
| Naming.PageLocatorInjective | pdf_qa.py:69 | two elements get the same locator only if they carry the same page number |
| Naming.LocatorsOfDistinctDocumentsDiffer | pdf_qa.py:25-26 | page locators of two documents with different names never coincide |
| Naming.NoExtensionNoSplit | pdf_qa.py:161 | a name without '.' is its own collection name |
| Naming.PdfNameAt | pdf_qa.py:25 | for a path whose last '/' is followed by a character other than '.', `pdf_name` is exactly the text between that '/' and the last '.' after it |
| Naming.PdfNameExample | pdf_qa.py:25 | `./pdf/report.v2.pdf` is named `report.v2` |
| Naming.CollectionNameExample | pdf_qa.py:161 | `report.v2` is indexed in collection `report` |
| Separation.ScanFrom | pdf_qa.py:56-67 | the element loop appends exactly the reference list of tables and of images, and keeps "text" tagged and "table"/"image" tagged exactly when some table/image was collected |
| Separation.Separate | pdf_qa.py:46-72 | separation fails exactly when the chunk has no original elements; otherwise the text passes through, the tables and images are exactly the reference lists in element order, the tags always hold "text" and hold "table"/"image" iff the tables/images are non-empty, and the page locators are exactly the locators of the elements' pages, so non-empty iff there are elements, all in the images directory |
| Separation.StepKeepsTags | pdf_qa.py:56-67 | one iteration of the element loop keeps "text" tagged and tags "table"/"image" exactly when a table/image has been collected |
| Separation.StepAppends | pdf_qa.py:56-67 | one iteration appends exactly the element's own table rendering or image payload, and nothing else |
| Separation.PageCitedIffElementOnPage | pdf_qa.py:69 | a page's locator is among a chunk's page numbers exactly when some element of the chunk lies on that page |
| Separation.TablesOfAppend | pdf_qa.py:56-61 | tables are collected compositionally and in order over any split of the element list |
| Separation.ImagesOfAppend | pdf_qa.py:63-67 | images are collected compositionally and in order over any split of the element list |
| Separation.OneTableEntryPerTableElement | pdf_qa.py:58-61 | there is exactly one table entry per element of category "Table" |
| Separation.PlainElementContributesNothing | pdf_qa.py:56-67 | an element that is neither a table nor an image with a payload adds no table and no image |
| Separation.TableCategoryWins | pdf_qa.py:58-63 | an element of category "Table" contributes its rendering as a table and never an image |
| Messages.ImageParts | pdf_qa.py:105-107 | one image part per image, in order, each carrying the image as a base64 JPEG data URL |
| Messages.UserMessage | pdf_qa.py:103-109 | the request has one text part holding the prompt, followed by one part per image |
| Messages.UserMessageRoundTrip | pdf_qa.py:103-109 | the prompt and every image, unaltered and in order, can be read back from the request |
| Summary.SummaryPrompt | pdf_qa.py:79-101 | the prompt is header, chunk text, a "TABLE:" section labelling the tables Table1..Tablen in order (absent without tables), then the fixed instructions |
| Summary.SummaryMessage | pdf_qa.py:103-109 | the summary request has 1 + (number of images) parts, the first being the summary prompt |
| Summary.Fallback | pdf_qa.py:116 | the fallback is the text without its first 300 characters followed by "...", so it is never empty |
| Summary.AiSummary | pdf_qa.py:74-116 | the result is the model's reply when the call succeeds and the non-empty fallback built from the text after its first 300 characters otherwise |
| Summary.SummaryPromptShowsText | pdf_qa.py:79-83 | the chunk text appears verbatim right after the prompt header |
| Summary.SummaryPromptShowsTable | pdf_qa.py:85-88 | every table appears whole in the prompt under its label `Table{i+1}` |
| Summary.SummaryPromptWithoutTables | pdf_qa.py:85 | without tables the prompt has no table section |
| Summary.SummaryMessageCarriesImages | pdf_qa.py:105-107 | the summary request carries every image of the chunk, unaltered and in order |
| Indexing.BuildDocument | pdf_qa.py:122-153 | a chunk's document keeps text, tables, images and page numbers exactly as separated in every branch; without tables and images the searchable text is the chunk text and no request is sent; otherwise exactly the summary request is sent and the searchable text is the reply or the fallback |
| Indexing.BuildDocuments | pdf_qa.py:118-155 | building succeeds exactly when every chunk has original elements, yields one document per chunk in chunk order, and sends exactly the summary message of each chunk holding a table or an image, one per such chunk, in chunk order |
| Indexing.RequestsCount | pdf_qa.py:118-155 | the run sends exactly one summary request per chunk that holds a table or an image |
| Indexing.RequestsAreSummaryRequests | pdf_qa.py:120-130 | the requests recorded by a run are exactly the summary messages of the chunks holding a table or an image, in chunk order |
| Indexing.StoredContentIsLossless | pdf_qa.py:145-150 | the stored `original_content` determines the separated record completely, type tags included |
| Indexing.MixedIffTaggedBeyondText | pdf_qa.py:124 | the builder's "images or tables" test agrees with the record carrying a tag besides "text" |
| Indexing.BuiltDocumentsCarryContent | pdf_qa.py:142-151 | every built document carries original content whose page locators lie in the images directory |
| Indexing.PureTextChunkSkipsModel | pdf_qa.py:138-140 | a chunk without tables or images is indexed under its own text whatever the model would answer |
| Answering.PageLinksFrom | pdf_qa.py:177-182 | gathering page numbers fails exactly when some document lacks original content, and otherwise yields the union of all documents' page numbers |
| Answering.ListOfSet | pdf_qa.py:182 | `list(set(...))` lists each element of the set exactly once |
| Answering.GetPageLinks | pdf_qa.py:177-182 | the page links are duplicate-free, are exactly the locators cited by some document, are empty for no documents, and are a failure when a document lacks original content |
| Answering.AnswerPromptAsWritten | pdf_qa.py:188-207 | the prompt is header, the documents labelled 1..k in retrieval order, a newline, then the closing instructions |
| Answering.AnswerPrompt | pdf_qa.py:188-207 | as written, with a question line placed before the closing instructions |
| Answering.AnswerMessage | pdf_qa.py:209-219 | the answer request has one text part holding the prompt, then one part per image of all documents |
| Answering.AnswerMessageAsWritten | pdf_qa.py:209-219 | the same request, built on the prompt as written |
| Answering.AnswerFrom | pdf_qa.py:219-229 | given the request: an answer exactly when the model call succeeds and every document carries original content; it then holds the reply and the duplicate-free cited page links (none for no documents); otherwise the apology string |
| Answering.GenerateAnswerAsWritten | pdf_qa.py:184-229 | `generate_answer` as it runs, on the request without the question: an answer exactly when the model call succeeds and every document carries original content, holding the reply and the duplicate-free cited page links; otherwise the apology string |
| Answering.GenerateAnswer | pdf_qa.py:184-229 | the corrected `generate_answer`, whose request carries the question: the same outcomes as the as-written version, with the model called on the corrected request |
| Answering.AsWrittenRequestIgnoresQuestion | pdf_qa.py:184-207 | as written, any two questions over the same documents produce the very same request |
| Answering.AnswerPromptCarriesQuestion | pdf_qa.py:184-207 | with the question included, different questions produce different prompts |
| Answering.AnswerPromptShowsDocument | pdf_qa.py:193-194 | every retrieved document appears whole in the corrected prompt under its label `Document {i+1}` |
| Answering.AnswerPromptAsWrittenShowsDocument | pdf_qa.py:193-194 | every retrieved document appears whole in the prompt as written, under its label `Document {i+1}` |
| Answering.DocumentBlockShowsContent | pdf_qa.py:195-201 | a document with original content shows its text right after its label and each table under `Table {j+1}` |
| Answering.DocumentBlockWithoutTables | pdf_qa.py:198 | a document without tables gets no "TABLES:" heading |
| Answering.AnswerImagesAppend | pdf_qa.py:211-216 | attached images are collected compositionally over any split of the document list |
| Answering.AnswerImagesInDocumentOrder | pdf_qa.py:211-216 | each document's images are attached as one contiguous run, in retrieval order |
| Answering.AnswerMessageCarriesImages | pdf_qa.py:209-216 | the answer request carries every attached image, unaltered and in order |
| Answering.AnswerMessageAsWrittenCarriesImages | pdf_qa.py:209-219 | the request the source sends carries every image of every document, unaltered and in retrieval order |
| Answering.RetrievedBuiltDocumentsAreCitable | pdf_qa.py:145-151 | any selection of documents built by the pipeline never triggers the missing-content failure, and every locator it cites lies in the images directory |

## Left out

- Partitioning (`partition_pdf`, pdf_qa.py:28-36) and chunking by title (pdf_qa.py:38-44) call into the partitioning library, whose algorithm is not visible. Chunks and their original elements are inputs.
- The chat model, its construction and its content are not modelled. Every failure of `ChatOpenAI(...)` or `invoke` becomes a `Failure` of the `llm` parameter. Temperature and model choice are not modelled either.
- Embeddings, the vector store and `retriever` (pdf_qa.py:157-175) are wrappers over an external similarity index. Only the collection-name line (161) is modelled. Retrieved documents are an input sequence.
- JSON encoding of `original_content` is not modelled. The metadata is a structured record, and page numbers are stored as a set because `list(set(...))` fixes no order.
- The attribute semantics of the partitioning library's metadata objects are not modelled. An optional field is either present (`Some`) or absent (`None`), and `getattr`/`hasattr` are read literally.
- `app.py` (HTTP endpoints, global configuration, file checks), `utils.py` (page rasterisation and file writes) and `pydantic_models.py` (request schemas) are not part of this model.
- Printing and logging are not modelled.
- Path handling follows POSIX `os.path` only, with '/' as the sole separator. Windows path rules ('\\' as a separator, drive letters) are not modelled.
- Summary.SummaryMessage: states the number of parts and the text part. The image parts' contents are stated separately, by `Summary.SummaryMessageCarriesImages`.

## Findings

| source | as written | input that shows it | evidently intended | confidence | as-written member | corrected member |
|---|---|---|---|---|---|---|
| pdf_qa.py:184-207 | `generate_answer` receives `query` but never puts it in the prompt. The closing instructions still ask the model to "answer the question". | Ask "What is the total revenue?" and "Who wrote this report?" over the same retrieved documents: the model receives identical requests. | The question appears in the prompt. Here it is a `QUESTION:` line before the closing instructions. | not executed; high | Answering.AsWrittenRequestIgnoresQuestion | Answering.AnswerPromptCarriesQuestion |

`Answering.GenerateAnswerAsWritten` sends the request exactly as the source builds it (`Answering.AnswerMessageAsWritten`). `Answering.GenerateAnswer` sends the corrected request (`Answering.AnswerMessage`, built on `Answering.AnswerPrompt`).

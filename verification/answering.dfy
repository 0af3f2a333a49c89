/** The answer side: the page-image citations of the retrieved documents
    (`get_page_links`) and the grounded answer (`generate_answer`). */
module Answering {
  import opened Common
  import opened Messages
  import opened Indexing
  import Decimal

  /** A retrieved document's metadata has no `original_content`: looking it up raises. */
  datatype AnswerError = MissingOriginalContent

  /** What `generate_answer` returns: the answer with its citations, or, when anything
      went wrong, a bare apology string in place of the result object. */
  datatype Answer = Answered(finalAnswer: string, pageLinks: seq<string>) | Unanswered(message: string)

  const Apology: string := "Sorry, couldn't generate an answer due to an error."

  const AnswerHeader: string :=
    "Based on the following documents, generate a concise and accurate answer:\n\n\n            \n            CONTEXT:\n            "

  const AnswerInstructions: string :=
    "Please provide a clear, comprehensive answer using the text, tables, and images above. "
    + "If the documents don't contain sufficient information to answer the question, say "
    + "\"I don't have enough information to answer that question based on the provided documents.\"\n"
    + "\n"
    + "            ANSWER:"

  /** Every document carries its original content. */
  predicate AllCarryContent(docs: seq<Document>)
  {
    forall i :: 0 <= i < |docs| ==> docs[i].originalContent.Some?
  }

  /** Some document of `docs` records `loc` among its page locators. */
  predicate Cites(docs: seq<Document>, loc: string)
  {
    exists i :: 0 <= i < |docs| && docs[i].originalContent.Some? && loc in docs[i].originalContent.value.pageNumbers
  }

  /** The loop of `get_page_links` from the locators `acc` gathered so far: each
      document's page numbers are added, and a document without original content raises. */
  function PageLinksFrom(acc: set<string>, docs: seq<Document>): (r: Result<set<string>, AnswerError>)
    ensures r.Success? <==> AllCarryContent(docs)
    ensures r.Success? ==> forall loc :: loc in r.value <==> loc in acc || Cites(docs, loc)
    decreases |docs|
  {
    if |docs| == 0 then Success(acc)
    else
      assert forall i :: 1 <= i < |docs| ==> docs[i] == docs[1..][i - 1];
      match docs[0].originalContent
      case None => Failure(MissingOriginalContent)
      case Some(c) =>
        var r := PageLinksFrom(acc + c.pageNumbers, docs[1..]);
        assert r.Success? ==> forall loc :: Cites(docs, loc) <==> loc in c.pageNumbers || Cites(docs[1..], loc) by {
          if r.Success? {
            forall loc
              ensures Cites(docs, loc) <==> loc in c.pageNumbers || Cites(docs[1..], loc)
            {
              if Cites(docs[1..], loc) {
                var j :| 0 <= j < |docs[1..]| && docs[1..][j].originalContent.Some? && loc in docs[1..][j].originalContent.value.pageNumbers;
                assert docs[j + 1] == docs[1..][j];
              }
              if Cites(docs, loc) && loc !in c.pageNumbers {
                var j :| 0 <= j < |docs| && docs[j].originalContent.Some? && loc in docs[j].originalContent.value.pageNumbers;
                assert j > 0;
                assert docs[1..][j - 1] == docs[j];
              }
            }
          }
        }
        r
  }

  /** `list(set(xs))`: the elements of a set, each once, in an order the set's
      implementation chooses (the choice here is arbitrary). */
  method ListOfSet(s: set<string>) returns (l: seq<string>)
    ensures Distinct(l)
    ensures forall x :: x in l <==> x in s
    ensures |l| == |s|
  {
    l := [];
    var rest := s;
    while rest != {}
      invariant rest <= s
      invariant forall x :: x in s <==> x in rest || x in l
      invariant forall x :: x in l ==> x !in rest
      invariant Distinct(l)
      invariant |l| + |rest| == |s|
      decreases |rest|
    {
      var x :| x in rest;
      l := l + [x];
      rest := rest - {x};
    }
  }

  /** `get_page_links`: each page locator cited by some document, exactly once; it
      raises when a document has no original content. */
  method GetPageLinks(docs: seq<Document>) returns (r: Result<seq<string>, AnswerError>)
    ensures r.Success? <==> AllCarryContent(docs)
    ensures r.Success? ==> Distinct(r.value) && forall loc :: loc in r.value <==> Cites(docs, loc)
    ensures |docs| == 0 ==> r == Success([])
  {
    var union := PageLinksFrom({}, docs);
    if union.Failure? {
      return Failure(union.error);
    }
    var links := ListOfSet(union.value);
    if |docs| == 0 {
      assert union.value == {};
    }
    return Success(links);
  }

  /** `f"Table {j+1}:\n{table}\n\n"` */
  function AnswerTableBlock(n: nat, table: string): string
  {
    "Table " + Decimal.IntToString(n) + ":\n" + table + "\n\n"
  }

  /** `f"--------------- Document {i+1} --------------\n"` */
  function DocumentLabel(n: nat): string
  {
    "--------------- Document " + Decimal.IntToString(n) + " --------------\n"
  }

  /** What one retrieved document adds to the prompt: its label, then, if it has
      original content, its text and (only when it has some) its numbered tables. */
  function DocumentBlock(n: nat, d: Document): string
  {
    match d.originalContent
    case None => DocumentLabel(n)
    case Some(c) =>
      var withText := DocumentLabel(n) + "TEXT:\n" + c.text + "\n\n";
      if |c.tables| > 0 then EnumerateAppend(withText + "TABLES:\n", c.tables, 1, AnswerTableBlock)
      else withText
  }

  /** The answer prompt as the source builds it: header, the documents labelled 1..k
      in retrieval order, then the closing instructions. The question is not in it. */
  function AnswerPromptAsWritten(docs: seq<Document>, query: string): (prompt: string)
    ensures prompt == AnswerHeader + Concat(Numbered(docs, 1, DocumentBlock)) + "\n" + AnswerInstructions
  {
    EnumerateAppend(AnswerHeader, docs, 1, DocumentBlock) + "\n" + AnswerInstructions
  }

  /** The line that puts the user's question before the closing instructions. */
  function QuestionLine(query: string): string
  {
    "QUESTION: " + query + "\n\n"
  }

  /** The answer prompt with the question included: header, the documents labelled
      1..k in retrieval order, the question, then the closing instructions. */
  function AnswerPrompt(docs: seq<Document>, query: string): (prompt: string)
    ensures prompt == AnswerHeader + Concat(Numbered(docs, 1, DocumentBlock)) + "\n" + QuestionLine(query) + AnswerInstructions
  {
    EnumerateAppend(AnswerHeader, docs, 1, DocumentBlock) + "\n" + QuestionLine(query) + AnswerInstructions
  }

  /** The images one document contributes. */
  function DocumentImages(d: Document): seq<string>
  {
    match d.originalContent
    case None => []
    case Some(c) => c.images
  }

  /** The images attached to the answer request: every document's images, document
      by document in retrieval order. */
  function AnswerImages(docs: seq<Document>): seq<string>
  {
    if |docs| == 0 then [] else DocumentImages(docs[0]) + AnswerImages(docs[1..])
  }

  /** The answer request: the prompt and, after it, all images of all documents. */
  function AnswerMessage(docs: seq<Document>, query: string): (m: Message)
    ensures |m| == 1 + |AnswerImages(docs)|
    ensures m[0] == TextPart(AnswerPrompt(docs, query))
  {
    UserMessage(AnswerPrompt(docs, query), AnswerImages(docs))
  }

  /** The answer request exactly as the source sends it. */
  function AnswerMessageAsWritten(docs: seq<Document>, query: string): (m: Message)
    ensures |m| == 1 + |AnswerImages(docs)|
    ensures m[0] == TextPart(AnswerPromptAsWritten(docs, query))
  {
    UserMessage(AnswerPromptAsWritten(docs, query), AnswerImages(docs))
  }

  /** The body of `generate_answer` once its request is built: ask the model, then
      gather the citations. Any failure, the model's or a document lacking original
      content, yields the apology string; otherwise the model's answer comes with
      every cited page exactly once. */
  method AnswerFrom(docs: seq<Document>, request: Message, llm: Llm) returns (r: Answer)
    ensures r.Answered? <==> llm(request).Success? && AllCarryContent(docs)
    ensures r.Answered? ==>
      && r.finalAnswer == llm(request).value
      && Distinct(r.pageLinks)
      && forall loc :: loc in r.pageLinks <==> Cites(docs, loc)
    ensures r.Unanswered? ==> r.message == Apology
    ensures |docs| == 0 && llm(request).Success? ==> r == Answered(llm(request).value, [])
  {
    var reply := llm(request);
    if reply.Failure? {
      return Unanswered(Apology);
    }
    var links := GetPageLinks(docs);
    if links.Failure? {
      return Unanswered(Apology);
    }
    return Answered(reply.value, links.value);
  }

  /** `generate_answer` exactly as the source runs it: the request carries the
      documents and their images but not the question. */
  method GenerateAnswerAsWritten(docs: seq<Document>, query: string, llm: Llm) returns (r: Answer)
    ensures r.Answered? <==> llm(AnswerMessageAsWritten(docs, query)).Success? && AllCarryContent(docs)
    ensures r.Answered? ==>
      && r.finalAnswer == llm(AnswerMessageAsWritten(docs, query)).value
      && Distinct(r.pageLinks)
      && forall loc :: loc in r.pageLinks <==> Cites(docs, loc)
    ensures r.Unanswered? ==> r.message == Apology
    ensures |docs| == 0 && llm(AnswerMessageAsWritten(docs, query)).Success? ==>
      r == Answered(llm(AnswerMessageAsWritten(docs, query)).value, [])
  {
    r := AnswerFrom(docs, AnswerMessageAsWritten(docs, query), llm);
  }

  /** `generate_answer` with the question put into the prompt (see `AnswerPrompt`). */
  method GenerateAnswer(docs: seq<Document>, query: string, llm: Llm) returns (r: Answer)
    ensures r.Answered? <==> llm(AnswerMessage(docs, query)).Success? && AllCarryContent(docs)
    ensures r.Answered? ==>
      && r.finalAnswer == llm(AnswerMessage(docs, query)).value
      && Distinct(r.pageLinks)
      && forall loc :: loc in r.pageLinks <==> Cites(docs, loc)
    ensures r.Unanswered? ==> r.message == Apology
    ensures |docs| == 0 && llm(AnswerMessage(docs, query)).Success? ==>
      r == Answered(llm(AnswerMessage(docs, query)).value, [])
  {
    r := AnswerFrom(docs, AnswerMessage(docs, query), llm);
  }

  /** As written, the request does not depend on the question: any two questions
      over the same documents send the model the very same message. */
  lemma {:induction false} AsWrittenRequestIgnoresQuestion(docs: seq<Document>, q1: string, q2: string)
    ensures AnswerMessageAsWritten(docs, q1) == AnswerMessageAsWritten(docs, q2)
  {
  }

  /** With the question included, different questions give different prompts: the
      model can tell which question it is answering. */
  lemma {:induction false} AnswerPromptCarriesQuestion(docs: seq<Document>, q1: string, q2: string)
    ensures AnswerPrompt(docs, q1) == AnswerPrompt(docs, q2) ==> q1 == q2
  {
    var body := AnswerHeader + Concat(Numbered(docs, 1, DocumentBlock)) + "\n";
    if AnswerPrompt(docs, q1) == AnswerPrompt(docs, q2) {
      CancelAround(body, QuestionLine(q1), QuestionLine(q2), AnswerInstructions);
      CancelAround("QUESTION: ", q1, q2, "\n\n");
    }
  }

  /** Document `i` appears in the prompt, whole, under the label `Document {i+1}`. */
  lemma {:induction false} AnswerPromptShowsDocument(docs: seq<Document>, query: string, i: nat)
    requires i < |docs|
    ensures Contains(AnswerPrompt(docs, query), DocumentBlock(i + 1, docs[i]))
  {
    var blocks := Numbered(docs, 1, DocumentBlock);
    var s := AnswerHeader + Concat(blocks);
    ContainsPart(AnswerHeader, blocks, i);
    ContainsExtend(s, blocks[i], "\n");
    ContainsExtend(s + "\n", blocks[i], QuestionLine(query));
    ContainsExtend(s + "\n" + QuestionLine(query), blocks[i], AnswerInstructions);
  }

  /** The same holds for the prompt as the source builds it. */
  lemma {:induction false} AnswerPromptAsWrittenShowsDocument(docs: seq<Document>, query: string, i: nat)
    requires i < |docs|
    ensures Contains(AnswerPromptAsWritten(docs, query), DocumentBlock(i + 1, docs[i]))
  {
    var blocks := Numbered(docs, 1, DocumentBlock);
    var s := AnswerHeader + Concat(blocks);
    ContainsPart(AnswerHeader, blocks, i);
    ContainsExtend(s, blocks[i], "\n");
    ContainsExtend(s + "\n", blocks[i], AnswerInstructions);
  }

  /** A document with original content shows its text right after its label, and
      each of its tables under the label `Table {j+1}`. */
  lemma {:induction false} DocumentBlockShowsContent(n: nat, d: Document, j: nat)
    requires d.originalContent.Some?
    ensures OccursAt(DocumentBlock(n, d), d.originalContent.value.text, |DocumentLabel(n)| + 6)
    ensures j < |d.originalContent.value.tables| ==>
              Contains(DocumentBlock(n, d), AnswerTableBlock(j + 1, d.originalContent.value.tables[j]))
  {
    var c := d.originalContent.value;
    var lead := DocumentLabel(n) + "TEXT:\n";
    var withText := lead + c.text + "\n\n";
    OccursAtEnd(lead, c.text);
    OccursAtExtend(lead + c.text, c.text, |lead|, "\n\n");
    if |c.tables| > 0 {
      var blocks := Numbered(c.tables, 1, AnswerTableBlock);
      OccursAtExtend(withText, c.text, |lead|, "TABLES:\n");
      OccursAtExtend(withText + "TABLES:\n", c.text, |lead|, Concat(blocks));
      if j < |c.tables| {
        ContainsPart(withText + "TABLES:\n", blocks, j);
      }
    }
  }

  /** A document without tables gets no "TABLES:" heading. */
  lemma {:induction false} DocumentBlockWithoutTables(n: nat, d: Document)
    requires d.originalContent.Some? && |d.originalContent.value.tables| == 0
    ensures DocumentBlock(n, d) == DocumentLabel(n) + "TEXT:\n" + d.originalContent.value.text + "\n\n"
  {
  }

  /** Collecting images is compositional over the document sequence. */
  lemma {:induction false} AnswerImagesAppend(a: seq<Document>, b: seq<Document>)
    ensures AnswerImages(a + b) == AnswerImages(a) + AnswerImages(b)
    decreases |a|
  {
    if |a| == 0 {
      assert a + b == b;
    } else {
      assert (a + b)[1..] == a[1..] + b;
      AnswerImagesAppend(a[1..], b);
    }
  }

  /** The images of document `i` are attached as one contiguous run, after those of
      every earlier document and before those of every later one. */
  lemma {:induction false} AnswerImagesInDocumentOrder(docs: seq<Document>, i: nat)
    requires i < |docs|
    ensures AnswerImages(docs) == AnswerImages(docs[..i]) + DocumentImages(docs[i]) + AnswerImages(docs[i + 1..])
  {
    assert docs == docs[..i] + ([docs[i]] + docs[i + 1..]);
    AnswerImagesAppend(docs[..i], [docs[i]] + docs[i + 1..]);
    assert ([docs[i]] + docs[i + 1..])[1..] == docs[i + 1..];
  }

  /** The model sees every attached image, unaltered and in order. */
  lemma {:induction false} AnswerMessageCarriesImages(docs: seq<Document>, query: string)
    ensures AttachedImages(AnswerMessage(docs, query)) == AnswerImages(docs)
  {
    UserMessageRoundTrip(AnswerPrompt(docs, query), AnswerImages(docs));
  }

  /** The same holds for the request the source sends. */
  lemma {:induction false} AnswerMessageAsWrittenCarriesImages(docs: seq<Document>, query: string)
    ensures AttachedImages(AnswerMessageAsWritten(docs, query)) == AnswerImages(docs)
  {
    UserMessageRoundTrip(AnswerPromptAsWritten(docs, query), AnswerImages(docs));
  }

  /** Documents built by this pipeline always carry their original content, so answering
      over any selection of them fails only when the model call fails, and every
      citation lies in the document's image directory. The retriever's choice is
      modelled as a sequence of positions among the built documents. */
  lemma {:induction false} RetrievedBuiltDocumentsAreCitable(dir: string, chunks: seq<Separation.Chunk>, llm: Llm, picks: seq<nat>)
    requires forall i :: 0 <= i < |chunks| ==> chunks[i].origElements.Some?
    requires forall j :: 0 <= j < |picks| ==> picks[j] < |chunks|
    ensures var docs := BuildDocuments(dir, chunks, llm).value.docs;
      var retrieved := seq(|picks|, j requires 0 <= j < |picks| => docs[picks[j]]);
      && AllCarryContent(retrieved)
      && forall loc :: Cites(retrieved, loc) ==> dir <= loc
  {
    BuiltDocumentsCarryContent(dir, chunks, llm);
    var docs := BuildDocuments(dir, chunks, llm).value.docs;
    var retrieved := seq(|picks|, j requires 0 <= j < |picks| => docs[picks[j]]);
    forall j | 0 <= j < |picks|
      ensures retrieved[j].originalContent.Some?
      ensures forall loc :: loc in retrieved[j].originalContent.value.pageNumbers ==> dir <= loc
    {
      assert retrieved[j] in docs;
    }
  }
}

/** Separating one chunk into typed content: its text, its tables, its images, the
    content kinds present, and the locators of the pages it came from. */
module Separation {
  import opened Common
  import Naming

  /** One layout element produced by partitioning: its `category`, the name of its
      Python class, its text, and the metadata fields the separator inspects. */
  datatype Element = Element(
    category: string,
    className: string,
    text: string,
    textAsHtml: Option<string>,
    imageBase64: Option<string>,
    pageNumber: Option<int>)

  /** A chunk: its concatenated text and, normally, the elements it was built from. */
  datatype Chunk = Chunk(text: string, origElements: Option<seq<Element>>)

  /** The content-kind tags, "text", "table" and "image". */
  datatype Modality = TextTag | TableTag | ImageTag

  /** The separated content of one chunk. */
  datatype ContentRecord = ContentRecord(
    text: string,
    tables: seq<string>,
    images: seq<string>,
    types: set<Modality>,
    pageNumbers: set<string>)

  /** The chunk has no `orig_elements`: reading their page numbers raises. */
  datatype SeparationError = MissingOrigElements

  /** What one element contributes, decided as the separator's `if`/`elif` does:
      the category "Table" first, then the class `Image` carrying a payload. */
  datatype ElementKind = TableKind(rendering: string) | ImageKind(payload: string) | PlainKind

  /** A table's rendering: its HTML when the metadata has one, else its text. */
  function TableRendering(e: Element): string
  {
    match e.textAsHtml
    case Some(html) => html
    case None => e.text
  }

  function Classify(e: Element): ElementKind
  {
    if e.category == "Table" then TableKind(TableRendering(e))
    else if e.className == "Image" then
      match e.imageBase64
      case Some(data) => ImageKind(data)
      case None => PlainKind
    else PlainKind
  }

  /** What one element contributes to the tables: its rendering when its category is
      "Table", else nothing. */
  function TableOf(e: Element): seq<string>
  {
    if e.category == "Table" then [TableRendering(e)] else []
  }

  /** What one element contributes to the images: its payload when it is a non-table
      `Image` element that has one, else nothing. */
  function ImageOf(e: Element): seq<string>
  {
    if e.category != "Table" && e.className == "Image" && e.imageBase64.Some?
    then [e.imageBase64.value] else []
  }

  /** Reference definition: one entry per element of category "Table", in order. */
  function TablesOf(els: seq<Element>): seq<string>
  {
    if |els| == 0 then [] else TableOf(els[0]) + TablesOf(els[1..])
  }

  /** Reference definition: one payload per non-table `Image` element that has one, in order. */
  function ImagesOf(els: seq<Element>): seq<string>
  {
    if |els| == 0 then [] else ImageOf(els[0]) + ImagesOf(els[1..])
  }

  /** The state of the separator's loop: tables, images and the list of type tags. */
  datatype Scan = Scan(tables: seq<string>, images: seq<string>, types: seq<Modality>)

  /** The loop's invariant: "text" is tagged, and "table" ("image") is tagged exactly
      when some table (image) has been collected. */
  predicate TagsAgree(s: Scan)
  {
    && TextTag in s.types
    && (TableTag in s.types <==> |s.tables| > 0)
    && (ImageTag in s.types <==> |s.images| > 0)
  }

  /** The loop's state before the first element. */
  const InitialScan: Scan := Scan([], [], [TextTag])

  /** One iteration of the loop. */
  function Step(s: Scan, e: Element): Scan
  {
    match Classify(e)
    case TableKind(html) => Scan(s.tables + [html], s.images, s.types + [TableTag])
    case ImageKind(data) => Scan(s.tables, s.images + [data], s.types + [ImageTag])
    case PlainKind => s
  }

  /** The remaining iterations of the loop over `els`, starting from state `s`. */
  function ScanFrom(s: Scan, els: seq<Element>): (r: Scan)
    requires TagsAgree(s)
    ensures TagsAgree(r)
    ensures r.tables == s.tables + TablesOf(els)
    ensures r.images == s.images + ImagesOf(els)
    decreases |els|
  {
    if |els| == 0 then s
    else
      var e := els[0];
      StepKeepsTags(s, e);
      StepAppends(s, e);
      AppendAssoc(s.tables, TableOf(e), TablesOf(els[1..]));
      AppendAssoc(s.images, ImageOf(e), ImagesOf(els[1..]));
      ScanFrom(Step(s, e), els[1..])
  }

  /** One iteration keeps the invariant. */
  lemma StepKeepsTags(s: Scan, e: Element)
    requires TagsAgree(s)
    ensures TagsAgree(Step(s, e))
  {
    match Classify(e)
    case TableKind(html) =>
      assert Step(s, e).types == s.types + [TableTag];
    case ImageKind(data) =>
      assert Step(s, e).types == s.types + [ImageTag];
    case PlainKind =>
  }

  /** One iteration appends exactly the element's own contribution to each list. */
  lemma StepAppends(s: Scan, e: Element)
    ensures Step(s, e).tables == s.tables + TableOf(e)
    ensures Step(s, e).images == s.images + ImageOf(e)
  {
    match Classify(e)
    case TableKind(html) =>
    case ImageKind(data) =>
    case PlainKind =>
      assert TableOf(e) == [] && ImageOf(e) == [];
  }

  /** The page locators of a sequence of elements, as a set (`list(set(...))`). */
  function PageLocators(dir: string, els: seq<Element>): set<string>
  {
    set e | e in els :: Naming.PageLocator(dir, e.pageNumber)
  }

  /** `separate_chunk_contents`: text passes through, tables and images are collected
      in element order, the type tags are de-duplicated, and every element contributes
      the locator of its page. A chunk without `orig_elements` raises. */
  function Separate(dir: string, chunk: Chunk): (r: Result<ContentRecord, SeparationError>)
    ensures r.Success? <==> chunk.origElements.Some?
    ensures r.Success? ==>
      var c := r.value;
      var els := chunk.origElements.value;
      && c.text == chunk.text
      && c.tables == TablesOf(els)
      && c.images == ImagesOf(els)
      && TextTag in c.types
      && (TableTag in c.types <==> |c.tables| > 0)
      && (ImageTag in c.types <==> |c.images| > 0)
      && (|els| > 0 <==> c.pageNumbers != {})
      && (forall loc :: loc in c.pageNumbers ==> dir <= loc)
      && (forall loc :: loc in c.pageNumbers <==> exists e :: e in els && loc == Naming.PageLocator(dir, e.pageNumber))
  {
    match chunk.origElements
    case None => Failure(MissingOrigElements)
    case Some(els) =>
      var s := ScanFrom(InitialScan, els);
      var refs := PageLocators(dir, els);
      assert |els| > 0 ==> Naming.PageLocator(dir, els[0].pageNumber) in refs;
      Success(ContentRecord(chunk.text, s.tables, s.images, (set t | t in s.types), refs))
  }

  /** A page is cited by a chunk exactly when one of the chunk's elements lies on it. */
  lemma PageCitedIffElementOnPage(dir: string, chunk: Chunk, page: Option<int>)
    requires chunk.origElements.Some?
    ensures Naming.PageLocator(dir, page) in Separate(dir, chunk).value.pageNumbers
        <==> exists e :: e in chunk.origElements.value && e.pageNumber == page
  {
    var els := chunk.origElements.value;
    if Naming.PageLocator(dir, page) in Separate(dir, chunk).value.pageNumbers {
      var e :| e in els && Naming.PageLocator(dir, e.pageNumber) == Naming.PageLocator(dir, page);
      Naming.PageLocatorInjective(dir, e.pageNumber, page);
    }
  }

  /** Collecting tables is compositional: the tables of a concatenation are the
      tables of each part, in order. */
  lemma {:induction false} TablesOfAppend(a: seq<Element>, b: seq<Element>)
    ensures TablesOf(a + b) == TablesOf(a) + TablesOf(b)
    decreases |a|
  {
    if |a| == 0 {
      assert a + b == b;
    } else {
      assert (a + b)[1..] == a[1..] + b;
      TablesOfAppend(a[1..], b);
    }
  }

  /** The same for images. */
  lemma {:induction false} ImagesOfAppend(a: seq<Element>, b: seq<Element>)
    ensures ImagesOf(a + b) == ImagesOf(a) + ImagesOf(b)
    decreases |a|
  {
    if |a| == 0 {
      assert a + b == b;
    } else {
      assert (a + b)[1..] == a[1..] + b;
      ImagesOfAppend(a[1..], b);
    }
  }

  /** The number of elements of category "Table". */
  function CountTables(els: seq<Element>): nat
  {
    if |els| == 0 then 0 else (if els[0].category == "Table" then 1 else 0) + CountTables(els[1..])
  }

  /** Exactly one table entry per "Table" element, no more and no fewer. */
  lemma {:induction false} OneTableEntryPerTableElement(els: seq<Element>)
    ensures |TablesOf(els)| == CountTables(els)
    decreases |els|
  {
    if |els| > 0 {
      OneTableEntryPerTableElement(els[1..]);
    }
  }

  /** Elements that are neither tables nor images contribute nothing but their page:
      appending one leaves the tables and images unchanged. */
  lemma PlainElementContributesNothing(els: seq<Element>, e: Element)
    requires e.category != "Table" && (e.className != "Image" || e.imageBase64.None?)
    ensures TablesOf(els + [e]) == TablesOf(els)
    ensures ImagesOf(els + [e]) == ImagesOf(els)
  {
    TablesOfAppend(els, [e]);
    ImagesOfAppend(els, [e]);
    assert TablesOf([e]) == [] && ImagesOf([e]) == [] by {
      assert [e][1..] == [];
    }
  }

  /** An element whose category is "Table" counts as a table even if its class is
      `Image`: it never contributes an image. */
  lemma TableCategoryWins(e: Element)
    requires e.category == "Table"
    ensures TablesOf([e]) == [TableRendering(e)]
    ensures ImagesOf([e]) == []
  {
    assert [e][1..] == [];
  }
}

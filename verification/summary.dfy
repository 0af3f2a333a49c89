/** `ai_summary`: the searchable description of a chunk holding tables or images,
    produced by the chat model, with a fallback string when the call fails. */
module Summary {
  import opened Common
  import opened Messages
  import Decimal

  const SummaryHeader: string :=
    "You are creating a searchable description for a document chunk. \n            \n            CONTENTS:\n            TEXT: "

  const SummaryInstructions: string :=
    "Generate a comprehensive, searchable description from the text, tables and images provided that covers:\n"
    + "            - Key topics and concepts discussed\n"
    + "            - Questions that this conetnt could answer\n"
    + "            - Important data points from the tables\n"
    + "            - Any notable relationships or insights\n"
    + "            - Visual content analysis(charts, diagrams, patterns in images)\n"
    + "            - Alternative search terms users might use\n"
    + "\n"
    + "            Make it detailed and searchable - prioritize findability over brevity.\n"
    + "\n"
    + "            SEARCHABLE DESCRIPTION:\n"
    + "            "

  /** How many leading characters of the text the fallback drops. */
  const FallbackSkip: nat := 300

  /** `f"Table{i+1}:\n{table}\n\n"` */
  function SummaryTableBlock(n: nat, table: string): string
  {
    "Table" + Decimal.IntToString(n) + ":\n" + table + "\n\n"
  }

  /** The text prompt: header, the chunk text, then (only when there are tables) a
      "TABLE:" heading and the tables labelled Table1, Table2, ... in order, then the
      fixed instructions. */
  function SummaryPrompt(text: string, tables: seq<string>): (prompt: string)
    ensures prompt == SummaryHeader + text + "\n"
                      + (if |tables| == 0 then "" else "TABLE:\n" + Concat(Numbered(tables, 1, SummaryTableBlock)))
                      + SummaryInstructions
  {
    var prompt := SummaryHeader + text + "\n";
    var prompt := if |tables| > 0 then EnumerateAppend(prompt + "TABLE:\n", tables, 1, SummaryTableBlock) else prompt;
    prompt + SummaryInstructions
  }

  /** The request: the prompt, then one inline image part per image. */
  function SummaryMessage(text: string, tables: seq<string>, images: seq<string>): (m: Message)
    ensures |m| == 1 + |images|
    ensures m[0] == TextPart(SummaryPrompt(text, tables))
  {
    UserMessage(SummaryPrompt(text, tables), images)
  }

  /** `f"{text[300:]}..."`: the text without its first 300 characters (nothing is
      left of a shorter text), followed by three dots. */
  function Fallback(text: string): (r: string)
    ensures |r| == (if |text| > FallbackSkip then |text| - FallbackSkip else 0) + 3
    ensures r[|r| - 3..] == "..."
    ensures text == text[..|text| - (|r| - 3)] + r[..|r| - 3]
  {
    var kept := if |text| <= FallbackSkip then "" else text[FallbackSkip..];
    var r := kept + "...";
    assert r[..|r| - 3] == kept;
    r
  }

  /** `ai_summary`: the model's reply when the call succeeds; otherwise the fallback,
      which is never empty and keeps only the text after its first 300 characters.
      Every failure is caught, so the result is always a string. */
  function AiSummary(text: string, tables: seq<string>, images: seq<string>, llm: Llm): (r: string)
    ensures llm(SummaryMessage(text, tables, images)).Success? ==>
              r == llm(SummaryMessage(text, tables, images)).value
    ensures llm(SummaryMessage(text, tables, images)).Failure? ==>
              && |r| >= 3
              && r[|r| - 3..] == "..."
              && r[..|r| - 3] == (if |text| > FallbackSkip then text[FallbackSkip..] else "")
  {
    match llm(SummaryMessage(text, tables, images))
    case Success(description) => description
    case Failure(_) => Fallback(text)
  }

  /** The chunk text appears verbatim right after the header. */
  lemma SummaryPromptShowsText(text: string, tables: seq<string>)
    ensures OccursAt(SummaryPrompt(text, tables), text, |SummaryHeader|)
  {
    var tableSection := if |tables| == 0 then "" else "TABLE:\n" + Concat(Numbered(tables, 1, SummaryTableBlock));
    var s := SummaryHeader + text;
    OccursAtEnd(SummaryHeader, text);
    OccursAtExtend(s, text, |SummaryHeader|, "\n");
    OccursAtExtend(s + "\n", text, |SummaryHeader|, tableSection);
    OccursAtExtend(s + "\n" + tableSection, text, |SummaryHeader|, SummaryInstructions);
  }

  /** Table `i` appears in the prompt, whole, under the label `Table{i+1}`. */
  lemma SummaryPromptShowsTable(text: string, tables: seq<string>, i: nat)
    requires i < |tables|
    ensures Contains(SummaryPrompt(text, tables), SummaryTableBlock(i + 1, tables[i]))
  {
    var blocks := Numbered(tables, 1, SummaryTableBlock);
    var lead := SummaryHeader + text + "\n" + "TABLE:\n";
    ContainsPart(lead, blocks, i);
    ContainsExtend(lead + Concat(blocks), blocks[i], SummaryInstructions);
    assert SummaryPrompt(text, tables) == lead + Concat(blocks) + SummaryInstructions;
  }

  /** Without tables there is no "TABLE:" section at all. */
  lemma SummaryPromptWithoutTables(text: string)
    ensures SummaryPrompt(text, []) == SummaryHeader + text + "\n" + SummaryInstructions
  {
  }

  /** The model sees every image of the chunk, unaltered and in order. */
  lemma SummaryMessageCarriesImages(text: string, tables: seq<string>, images: seq<string>)
    ensures AttachedImages(SummaryMessage(text, tables, images)) == images
  {
    UserMessageRoundTrip(SummaryPrompt(text, tables), images);
  }
}

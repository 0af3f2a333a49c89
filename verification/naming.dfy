/** How a document is named: its `pdf_name`, the directory its page images live
    in, the locator of each page image, and the name of its index collection.
    Paths follow POSIX `os.path` rules (separator '/', extension separator '.'). */
module Naming {
  import opened Common
  import Decimal

  const Sep: char := '/'
  const ExtSep: char := '.'

  /** Root of every document's page-image directory. */
  const ImageRoot: string := "./pdf_images/"

  /** `s.rfind(c)`: index of the last `c` in `s`, or -1 when there is none. */
  function RFind(s: string, c: char): (r: int)
    ensures -1 <= r < |s|
    ensures r >= 0 ==> s[r] == c
    ensures forall k :: r < k < |s| ==> s[k] != c
  {
    if |s| == 0 then -1
    else if s[|s| - 1] == c then |s| - 1
    else RFind(s[..|s| - 1], c)
  }

  /** The last `c` is the one with no `c` after it. */
  lemma RFindAt(s: string, c: char, k: int)
    requires 0 <= k < |s| && s[k] == c && c !in s[k + 1..]
    ensures RFind(s, c) == k
  {
  }

  /** Without any `c`, there is no last one. */
  lemma RFindAbsent(s: string, c: char)
    requires c !in s
    ensures RFind(s, c) == -1
  {
  }

  /** `os.path.basename(p)`: everything after the last separator. */
  function Basename(p: string): (b: string)
    ensures Sep !in b
    ensures |b| <= |p| && p == p[..|p| - |b|] + b
    ensures |b| == |p| || p[|p| - |b| - 1] == Sep
  {
    var b := p[RFind(p, Sep) + 1..];
    assert p == p[..|p| - |b|] + b;
    b
  }

  /** Some character of `p[lo..hi]` is not the extension separator: the leading-dots
      scan of `splitext`, which refuses to treat `.bashrc` or `..` as an extension. */
  predicate AnyNonDot(p: string, lo: int, hi: int)
    requires 0 <= lo && hi <= |p|
    decreases hi - lo
  {
    lo < hi && (p[lo] != ExtSep || AnyNonDot(p, lo + 1, hi))
  }

  lemma {:induction false} AnyNonDotWitness(p: string, lo: int, hi: int)
    requires 0 <= lo && hi <= |p|
    requires AnyNonDot(p, lo, hi)
    ensures exists k :: lo <= k < hi && p[k] != ExtSep
    decreases hi - lo
  {
    if p[lo] == ExtSep {
      AnyNonDotWitness(p, lo + 1, hi);
    }
  }

  /** A character other than '.' at `k` within `p[lo..hi]` makes the leading-dots scan succeed. */
  lemma {:induction false} AnyNonDotFrom(p: string, lo: int, hi: int, k: int)
    requires 0 <= lo <= k < hi <= |p| && p[k] != ExtSep
    ensures AnyNonDot(p, lo, hi)
    decreases k - lo
  {
    if p[lo] == ExtSep {
      AnyNonDotFrom(p, lo + 1, hi, k);
    }
  }

  /** Some '.' of `p` at or after `lo` comes after a character other than '.' that is
      itself at or after `lo`. */
  predicate ExtensionFrom(p: string, lo: int)
  {
    exists k, d :: 0 <= lo <= k < d < |p| && p[k] != ExtSep && p[d] == ExtSep
  }

  /** A final path component has an extension in the sense of `splitext`: some '.'
      comes after a character other than '.'. */
  predicate HasExtension(s: string)
  {
    ExtensionFrom(s, 0)
  }

  /** Looking for an extension in `p[lo..]` is looking for one in `p` from `lo` on. */
  lemma ExtensionFromShift(p: string, lo: int)
    requires 0 <= lo <= |p|
    ensures HasExtension(p[lo..]) <==> ExtensionFrom(p, lo)
  {
    var t := p[lo..];
    if HasExtension(t) {
      var k, d :| 0 <= k < d < |t| && t[k] != ExtSep && t[d] == ExtSep;
      assert p[lo + k] == t[k] && p[lo + d] == t[d];
    }
    if ExtensionFrom(p, lo) {
      var k, d :| lo <= k < d < |p| && p[k] != ExtSep && p[d] == ExtSep;
      assert t[k - lo] == p[k] && t[d - lo] == p[d];
    }
  }

  /** An extension from `lo` on lies before the last '.', and the leading-dots scan
      from `lo` to that '.' succeeds. */
  lemma ExtensionFromFound(p: string, lo: int)
    requires 0 <= lo && ExtensionFrom(p, lo)
    ensures lo < RFind(p, ExtSep) && AnyNonDot(p, lo, RFind(p, ExtSep))
  {
    var k, d :| lo <= k < d < |p| && p[k] != ExtSep && p[d] == ExtSep;
    var dot := RFind(p, ExtSep);
    assert d <= dot;
    AnyNonDotFrom(p, lo, dot, k);
  }

  /** `os.path.splitext(p)`: the pair (root, extension). The extension starts at the
      last '.' of the final path component, provided something other than dots
      precedes that '.' within the component; otherwise it is empty. */
  function SplitExt(p: string): (r: (string, string))
    ensures r.0 + r.1 == p
    ensures r.1 == "" || (r.1[0] == ExtSep && ExtSep !in r.1[1..] && Sep !in r.1)
    ensures r.1 != "" ==> exists k :: 0 <= k < |r.0| && r.0[k] != ExtSep && Sep !in r.0[k..]
    ensures r.1 != "" <==> HasExtension(Basename(p))
  {
    SplitRawShape(p);
    SplitRawFindsExtension(p);
    SplitRaw(p)
  }

  /** The computation of `splitext`, before anything is proved about it. */
  function SplitRaw(p: string): (string, string)
  {
    var sepIndex := RFind(p, Sep);
    var dotIndex := RFind(p, ExtSep);
    if dotIndex > sepIndex && AnyNonDot(p, sepIndex + 1, dotIndex) then (p[..dotIndex], p[dotIndex..])
    else (p, "")
  }

  lemma SplitRawShape(p: string)
    ensures SplitRaw(p).0 + SplitRaw(p).1 == p
    ensures SplitRaw(p).1 == "" || (SplitRaw(p).1[0] == ExtSep && ExtSep !in SplitRaw(p).1[1..] && Sep !in SplitRaw(p).1)
    ensures SplitRaw(p).1 != "" ==> exists k :: 0 <= k < |SplitRaw(p).0| && SplitRaw(p).0[k] != ExtSep && Sep !in SplitRaw(p).0[k..]
  {
    var sepIndex := RFind(p, Sep);
    var dotIndex := RFind(p, ExtSep);
    if dotIndex > sepIndex && AnyNonDot(p, sepIndex + 1, dotIndex) {
      ExtensionShape(p, sepIndex, dotIndex);
    }
  }

  lemma SplitRawFindsExtension(p: string)
    ensures SplitRaw(p).1 != "" <==> HasExtension(Basename(p))
  {
    var sepIndex := RFind(p, Sep);
    var dotIndex := RFind(p, ExtSep);
    var lo := sepIndex + 1;
    assert Basename(p) == p[lo..];
    ExtensionFromShift(p, lo);
    if dotIndex > sepIndex && AnyNonDot(p, lo, dotIndex) {
      AnyNonDotWitness(p, lo, dotIndex);
      var k :| lo <= k < dotIndex && p[k] != ExtSep;
      assert ExtensionFrom(p, lo);
    } else if ExtensionFrom(p, lo) {
      ExtensionFromFound(p, lo);
    }
  }

  /** The extension `splitext` cuts off is one '.' segment of the final component,
      and a character other than '.' precedes it there. */
  lemma ExtensionShape(p: string, sepIndex: int, dotIndex: int)
    requires sepIndex == RFind(p, Sep) && dotIndex == RFind(p, ExtSep)
    requires dotIndex > sepIndex && AnyNonDot(p, sepIndex + 1, dotIndex)
    ensures p[dotIndex..][0] == ExtSep && ExtSep !in p[dotIndex..][1..] && Sep !in p[dotIndex..]
    ensures exists k :: 0 <= k < dotIndex && p[..dotIndex][k] != ExtSep && Sep !in p[..dotIndex][k..]
  {
    AnyNonDotWitness(p, sepIndex + 1, dotIndex);
    var k :| sepIndex + 1 <= k < dotIndex && p[k] != ExtSep;
    assert Sep !in p[..dotIndex][k..];
  }

  /** `os.path.splitext(os.path.basename(pdf_path))[0]`: the document's name. */
  function PdfName(pdfPath: string): (name: string)
    ensures Sep !in name
    ensures name <= Basename(pdfPath)
    ensures HasExtension(Basename(pdfPath)) ==>
      var b := Basename(pdfPath);
      |name| < |b| && b[|name|] == ExtSep && ExtSep !in b[|name| + 1..]
    ensures !HasExtension(Basename(pdfPath)) ==> name == Basename(pdfPath)
  {
    var b := Basename(pdfPath);
    var name := SplitExt(b).0;
    assert b == name + SplitExt(b).1;
    BasenameOfPlain(b);
    assert b[|name|..] == SplitExt(b).1;
    name
  }

  /** `f"./pdf_images/{pdf_name}/"`: the directory holding the document's page images. */
  function ImagesDir(pdfName: string): (dir: string)
    ensures ImageRoot <= dir && dir[|dir| - 1] == Sep
  {
    ImageRoot + pdfName + [Sep]
  }

  /** How an f-string renders a page number: its decimal form, or `None` when the
      element carries no page number. */
  function PageLabel(page: Option<int>): string
  {
    match page
    case Some(n) => Decimal.IntToString(n)
    case None => "None"
  }

  /** `pdf_images_dir + f"page_{n}.png"`: where the image of page `n` is found. */
  function PageLocator(dir: string, page: Option<int>): (loc: string)
    ensures dir <= loc
  {
    dir + "page_" + PageLabel(page) + ".png"
  }

  /** `os.path.splitext(pdf_name)[0]`: the name of the document's index collection,
      which strips one extension more than `pdf_name` already did. */
  function CollectionName(pdfName: string): (name: string)
    ensures name <= pdfName
    ensures Sep !in pdfName ==> Sep !in name
    ensures HasExtension(Basename(pdfName)) ==>
      |name| < |pdfName| && pdfName[|name|] == ExtSep && ExtSep !in pdfName[|name| + 1..]
    ensures !HasExtension(Basename(pdfName)) ==> name == pdfName
  {
    var r := SplitExt(pdfName);
    assert pdfName == r.0 + r.1;
    assert pdfName[|r.0|..] == r.1;
    assert forall k :: 0 <= k < |r.0| ==> r.0[k] == pdfName[k];
    r.0
  }

  /** A name without a separator is its own base name. */
  lemma BasenameOfPlain(s: string)
    requires Sep !in s
    ensures Basename(s) == s
  {
    RFindAbsent(s, Sep);
  }

  /** The collection name strips exactly one extension more than `pdf_name` did:
      it is shorter than `pdf_name` exactly when `pdf_name` still has an extension. */
  lemma CollectionStripsOneMore(pdfPath: string)
    ensures var n := PdfName(pdfPath);
      HasExtension(n) <==> |CollectionName(n)| < |n|
  {
    BasenameOfPlain(PdfName(pdfPath));
  }

  /** Distinct page numbers are rendered differently. */
  lemma PageLabelInjective(p: Option<int>, q: Option<int>)
    ensures PageLabel(p) == PageLabel(q) ==> p == q
  {
    if p.Some? && q.Some? {
      Decimal.IntToStringInjective(p.value, q.value);
    } else if p.Some? && q.None? {
      NotNone(p.value);
    } else if p.None? && q.Some? {
      NotNone(q.value);
    }
  }

  lemma NotNone(n: int)
    ensures Decimal.IntToString(n) != "None"
  {
    var s := Decimal.IntToString(n);
    if n >= 0 {
      assert Decimal.IsDigit(Decimal.NatToString(n)[0]);
    }
    assert s[0] != 'N';
  }

  /** Within one document, distinct pages have distinct locators, so a locator
      identifies the page it cites. */
  lemma PageLocatorInjective(dir: string, p: Option<int>, q: Option<int>)
    ensures PageLocator(dir, p) == PageLocator(dir, q) ==> p == q
  {
    var a := PageLocator(dir, p);
    var b := PageLocator(dir, q);
    if a == b {
      var n := |dir| + 5;
      assert a[n..|a| - 4] == PageLabel(p);
      assert b[n..|b| - 4] == PageLabel(q);
      PageLabelInjective(p, q);
    }
  }

  /** Page locators of two differently named documents never coincide: citations of
      one document cannot be mistaken for citations of another. */
  lemma LocatorsOfDistinctDocumentsDiffer(a: string, b: string, p: Option<int>, q: Option<int>)
    requires Sep !in a && Sep !in b && a != b
    ensures PageLocator(ImagesDir(a), p) != PageLocator(ImagesDir(b), q)
  {
    var s := PageLocator(ImagesDir(a), p);
    var t := PageLocator(ImagesDir(b), q);
    var n := |ImageRoot|;
    if |a| == |b| {
      var k :| 0 <= k < |a| && a[k] != b[k];
      assert s[n + k] == a[k] && t[n + k] == b[k];
    } else if |a| < |b| {
      assert s[n + |a|] == Sep;
      assert t[n + |a|] == b[|a|];
    } else {
      assert t[n + |b|] == Sep;
      assert s[n + |b|] == a[|b|];
    }
  }

  /** A name without a '.' has no extension to strip, so for such a document the
      collection name is the document name itself. */
  lemma NoExtensionNoSplit(p: string)
    requires ExtSep !in p
    ensures SplitExt(p) == (p, "")
  {
    RFindAbsent(p, ExtSep);
  }

  /** `splitext` of a base name whose last '.' is at `k > 0` and whose first
      character is not a '.'. */
  lemma SplitExtAt(b: string, k: int)
    requires Sep !in b && 0 < k < |b| && b[k] == ExtSep && ExtSep !in b[k + 1..] && b[0] != ExtSep
    ensures SplitExt(b) == (b[..k], b[k..])
  {
    RFindAbsent(b, Sep);
    RFindAt(b, ExtSep, k);
  }

  /** `pdf_name` of a path whose last '/' is at `k` and whose last '.' is at `d`,
      further on, with a character other than '.' right after that '/'. */
  lemma PdfNameAt(p: string, k: int, d: int)
    requires 0 <= k && k + 1 < d < |p| && p[k] == Sep && Sep !in p[k + 1..]
    requires p[d] == ExtSep && ExtSep !in p[d + 1..] && p[k + 1] != ExtSep
    ensures PdfName(p) == p[k + 1..d]
  {
    var t := p[k + 1..];
    var n := d - k - 1;
    assert t[..n] == p[k + 1..d];
    assert t[n..] == p[d..];
    assert Basename(p) == t by {
      RFindAt(p, Sep, k);
    }
    SplitExtAt(t, n);
  }

  /** The naming scheme on a path with two extensions: `pdf_name` keeps the inner one. */
  lemma PdfNameExample()
    ensures PdfName("./pdf/report.v2.pdf") == "report.v2"
  {
    var p := "./pdf/report.v2.pdf";
    assert Sep !in p[6..];
    assert ExtSep !in p[16..];
    assert p[6..15] == "report.v2";
    PdfNameAt(p, 5, 15);
  }

  /** ... and the collection name strips that one too. */
  lemma CollectionNameExample()
    ensures CollectionName("report.v2") == "report"
  {
    var c := "report.v2";
    assert Sep !in c && ExtSep !in c[7..];
    assert c[..6] == "report";
    SplitExtAt(c, 6);
  }

  lemma PageLocatorExample()
    ensures PageLocator(ImagesDir("report.v2"), Some(3)) == "./pdf_images/report.v2/page_3.png"
  {
    assert Decimal.IntToString(3) == "3";
  }
}

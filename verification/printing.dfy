/**
 * Building the printed pages (`preparePrintDOM`, printUtils.ts:114-169):
 * one page per segment, each with a header row, its body and a footer row,
 * except that the first page has neither row when `excludeFirstPage` is set.
 * The DOM nodes themselves, the `afterprint` clean-up and `window.print()`
 * are not modelled; a page is the three strings that go into it.
 */
module Printing {
  import opened Optional
  import Tokens
  import opened Rows
  import opened Pagination
  import opened Settings

  /**
   * One `.print-page`: its body and, unless the page skips them, the page number
   * and total its header and footer rows are built from (`Header`, `Footer`).
   */
  datatype PrintedPage = PrintedPage(chrome: Option<Chrome>, body: string)
  datatype Chrome = Chrome(pageNum: int, totalPages: int)

  /** `computePageNumber`: with the first page excluded, the second segment is page 1. */
  function PageNumber(segmentIndex: int, excludeFirstPage: bool): int
  {
    if excludeFirstPage then segmentIndex else segmentIndex + 1
  }

  /** `totalPrintablePages`: the excluded first page does not count, and the count never drops below zero. */
  function TotalPrintable(physicalPages: nat, excludeFirstPage: bool): nat
  {
    if excludeFirstPage then (if physicalPages - 1 < 0 then 0 else physicalPages - 1) else physicalPages
  }

  /** Whether the page at `i` skips its header and footer. */
  predicate SkipsChrome(i: int, excludeFirstPage: bool)
  {
    excludeFirstPage && i == 0
  }

  function HeaderRow(s: PrintSettings, pageNum: int, totalPages: int): string
  {
    BuildHeaderFooterRow(s.headerLeft, s.headerCenter, s.headerRight, pageNum, totalPages)
  }

  function FooterRow(s: PrintSettings, pageNum: int, totalPages: int): string
  {
    BuildHeaderFooterRow(s.footerLeft, s.footerCenter, s.footerRight, pageNum, totalPages)
  }

  /** How many of `ps` carry a header and footer: the pages that take part in the numbering. */
  function Numbered(ps: seq<PrintedPage>): nat
  {
    if |ps| == 0 then 0
    else Numbered(ps[..|ps| - 1]) + (if ps[|ps| - 1].chrome.Some? then 1 else 0)
  }

  /** Pages laid out with only the first (if any) skipping its chrome. */
  predicate ChromeLayout(ps: seq<PrintedPage>, excludeFirstPage: bool)
  {
    forall k :: 0 <= k < |ps| ==> (ps[k].chrome.None? <==> SkipsChrome(k, excludeFirstPage))
  }

  lemma {:induction false} NumberedLayout(ps: seq<PrintedPage>, excludeFirstPage: bool)
    requires ChromeLayout(ps, excludeFirstPage)
    ensures Numbered(ps) == |ps| - (if excludeFirstPage && |ps| > 0 then 1 else 0)
    decreases |ps|
  {
    if |ps| > 0 {
      var init := ps[..|ps| - 1];
      assert forall k :: 0 <= k < |init| ==> init[k] == ps[k];
      NumberedLayout(init, excludeFirstPage);
    }
  }

  /**
   * `totalPrintablePages` counts the pages that carry a header and footer: all of
   * them, less the first when it is excluded, and never below zero.
   */
  lemma TotalPrintableCounts(ps: seq<PrintedPage>, excludeFirstPage: bool)
    requires ChromeLayout(ps, excludeFirstPage)
    ensures Numbered(ps) == TotalPrintable(|ps|, excludeFirstPage)
    ensures TotalPrintable(|ps|, excludeFirstPage) == if excludeFirstPage && |ps| > 0 then |ps| - 1 else |ps|
  {
    NumberedLayout(ps, excludeFirstPage);
  }

  /**
   * The numbers printed on a page are its position among the numbered pages and
   * their count: for every page with chrome, `PageNumber` runs from 1 up to
   * `TotalPrintable`, and the last page reaches it.
   */
  lemma PageNumbersCount(ps: seq<PrintedPage>, excludeFirstPage: bool, i: nat)
    requires ChromeLayout(ps, excludeFirstPage) && i < |ps| && !SkipsChrome(i, excludeFirstPage)
    ensures PageNumber(i, excludeFirstPage) == Numbered(ps[..i + 1])
    ensures Numbered(ps) == TotalPrintable(|ps|, excludeFirstPage)
    ensures 1 <= PageNumber(i, excludeFirstPage) <= TotalPrintable(|ps|, excludeFirstPage)
  {
    var prefix := ps[..i + 1];
    assert forall k :: 0 <= k < |prefix| ==> prefix[k] == ps[k];
    NumberedLayout(prefix, excludeFirstPage);
    NumberedLayout(ps, excludeFirstPage);
  }

  /** The `.print-header` markup of a page, absent when the page skips it. */
  function Header(settings: PrintSettings, p: PrintedPage): Option<string>
  {
    match p.chrome
    case None => None
    case Some(c) => Some(HeaderRow(settings, c.pageNum, c.totalPages))
  }

  /** The `.print-footer` markup of a page, absent when the page skips it. */
  function Footer(settings: PrintSettings, p: PrintedPage): Option<string>
  {
    match p.chrome
    case None => None
    case Some(c) => Some(FooterRow(settings, c.pageNum, c.totalPages))
  }

  /**
   * With the header cells written as templates, a numbered page's header shows
   * each cell with `{page}` and `{pages}` read as the page's number and the total.
   */
  lemma HeaderText(settings: PrintSettings, p: PrintedPage,
                   l: seq<Tokens.Piece>, m: seq<Tokens.Piece>, r: seq<Tokens.Piece>)
    requires p.chrome.Some?
    requires Tokens.IsTemplate(l) && Tokens.IsTemplate(m) && Tokens.IsTemplate(r)
    requires settings.headerLeft == Tokens.Render(l) && settings.headerCenter == Tokens.Render(m)
    requires settings.headerRight == Tokens.Render(r)
    ensures var c := p.chrome.value;
      Header(settings, p) == Some(RowMarkup(Tokens.Expected(l, c.pageNum, c.totalPages),
                                         Tokens.Expected(m, c.pageNum, c.totalPages),
                                         Tokens.Expected(r, c.pageNum, c.totalPages)))
  {
    var c := p.chrome.value;
    assert Header(settings, p) == Some(HeaderRow(settings, c.pageNum, c.totalPages));
    RowOfTemplates(l, m, r, c.pageNum, c.totalPages);
  }

  /** The footer counterpart of `HeaderText`. */
  lemma FooterText(settings: PrintSettings, p: PrintedPage,
                   l: seq<Tokens.Piece>, m: seq<Tokens.Piece>, r: seq<Tokens.Piece>)
    requires p.chrome.Some?
    requires Tokens.IsTemplate(l) && Tokens.IsTemplate(m) && Tokens.IsTemplate(r)
    requires settings.footerLeft == Tokens.Render(l) && settings.footerCenter == Tokens.Render(m)
    requires settings.footerRight == Tokens.Render(r)
    ensures var c := p.chrome.value;
      Footer(settings, p) == Some(RowMarkup(Tokens.Expected(l, c.pageNum, c.totalPages),
                                         Tokens.Expected(m, c.pageNum, c.totalPages),
                                         Tokens.Expected(r, c.pageNum, c.totalPages)))
  {
    var c := p.chrome.value;
    assert Footer(settings, p) == Some(FooterRow(settings, c.pageNum, c.totalPages));
    RowOfTemplates(l, m, r, c.pageNum, c.totalPages);
  }

  /**
   * Under `DEFAULT_PRINT_SETTINGS` every cell is empty, so a numbered page's header
   * and footer are three empty cells, whatever its number.
   */
  lemma DefaultRows(p: PrintedPage)
    requires p.chrome.Some?
    ensures Header(Default, p) == Some("<div></div><div></div><div></div>")
    ensures Footer(Default, p) == Some("<div></div><div></div><div></div>")
  {
    var c := p.chrome.value;
    var e := Default.headerLeft;
    assert e == Default.headerCenter == Default.headerRight == Default.footerLeft
             == Default.footerCenter == Default.footerRight && |e| == 0;
    EmptyRow(e, c.pageNum, c.totalPages);
  }

  /** The page the loop builds for segment `i`: its body, and the chrome unless the page skips it. */
  function MakePage(excludeFirstPage: bool, i: int, totalPages: int, body: string): PrintedPage
  {
    if SkipsChrome(i, excludeFirstPage) then PrintedPage(None, body)
    else PrintedPage(Some(Chrome(PageNumber(i, excludeFirstPage), totalPages)), body)
  }

  /** Each page is numbered with its position among the numbered pages and how many of them there are. */
  lemma LaidOut(pages: seq<PrintedPage>, e: bool, bodies: seq<string>)
    requires |pages| == |bodies| >= 1
    requires forall j :: 0 <= j < |pages| ==> pages[j] == MakePage(e, j, TotalPrintable(|bodies|, e), bodies[j])
    ensures forall i :: 0 <= i < |pages| ==> pages[i].body == bodies[i]
    ensures ChromeLayout(pages, e)
    ensures Numbered(pages) == |pages| - (if e then 1 else 0)
    ensures forall i :: 0 <= i < |pages| && pages[i].chrome.Some? ==>
      pages[i].chrome.value.pageNum == Numbered(pages[..i + 1]) &&
      pages[i].chrome.value.totalPages == Numbered(pages)
  {
    assert ChromeLayout(pages, e);
    NumberedLayout(pages, e);
    forall i | 0 <= i < |pages| && pages[i].chrome.Some?
      ensures PageNumber(i, e) == Numbered(pages[..i + 1])
      ensures TotalPrintable(|bodies|, e) == Numbered(pages)
    {
      PageNumbersCount(pages, e, i);
    }
  }

  /**
   * The page loop of `preparePrintDOM`: one page per segment, the segment as
   * body, and on every page but a skipped first one a header and a footer
   * numbered with the page's position among the numbered pages and their count.
   */
  method PreparePrintPages(editor: seq<Block>, settings: PrintSettings) returns (pages: seq<PrintedPage>)
    ensures |pages| == BreakCount(editor) + 1
    ensures forall i :: 0 <= i < |pages| ==> pages[i].body == Pages(editor)[i]
    ensures forall i :: 0 <= i < |pages| ==> (pages[i].chrome.None? <==> SkipsChrome(i, settings.excludeFirstPage))
    ensures Numbered(pages) == |pages| - (if settings.excludeFirstPage then 1 else 0)
    ensures forall i :: 0 <= i < |pages| && pages[i].chrome.Some? ==>
      pages[i].chrome.value.pageNum == Numbered(pages[..i + 1]) &&
      pages[i].chrome.value.totalPages == Numbered(pages)
  {
    var segments := SplitAtPageBreaks(editor);
    var total := TotalPrintable(|segments|, settings.excludeFirstPage);
    pages := [];
    var i := 0;
    while i < |segments|
      invariant 0 <= i <= |segments| && |pages| == i
      invariant forall j :: 0 <= j < i ==> pages[j] == MakePage(settings.excludeFirstPage, j, total, segments[j])
    {
      var skip := settings.excludeFirstPage && i == 0;
      var pageNum := PageNumber(i, settings.excludeFirstPage);
      var chrome := if skip then None else Some(Chrome(pageNum, total));
      pages := pages + [PrintedPage(chrome, segments[i])];
      i := i + 1;
    }
    LaidOut(pages, settings.excludeFirstPage, segments);
  }
}

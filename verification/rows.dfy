/**
 * The header/footer row (`buildHeaderFooterRowHtml`, printUtils.ts:40-54): three
 * cells, each run through `substituteTokens` on its own.
 */
module Rows {
  import opened Optional
  import opened Tokens

  /** `buildHeaderFooterRowHtml`: each cell substituted by the six passes, then wrapped. */
  function BuildHeaderFooterRow(left: string, center: string, right: string, pageNum: int, totalPages: int): string
  {
    RowMarkup(SubstituteTokens(Some(left), pageNum, totalPages),
              SubstituteTokens(Some(center), pageNum, totalPages),
              SubstituteTokens(Some(right), pageNum, totalPages))
  }

  function RowMarkup(l: string, c: string, r: string): string
  {
    "<div>" + l + "</div><div>" + c + "</div><div>" + r + "</div>"
  }

  /**
   * The row holds the three substituted templates in order, each depending only on its
   * own field.
   */
  lemma RowOfTemplates(left: seq<Piece>, center: seq<Piece>, right: seq<Piece>, pageNum: int, totalPages: int)
    requires IsTemplate(left) && IsTemplate(center) && IsTemplate(right)
    ensures BuildHeaderFooterRow(Render(left), Render(center), Render(right), pageNum, totalPages)
         == RowMarkup(Expected(left, pageNum, totalPages), Expected(center, pageNum, totalPages),
                      Expected(right, pageNum, totalPages))
  {
    SubstituteTemplate(left, pageNum, totalPages);
    SubstituteTemplate(center, pageNum, totalPages);
    SubstituteTemplate(right, pageNum, totalPages);
  }

  /**
   * An empty cell stays empty, on any page. The empty string comes in as `e` with
   * `|e| == 0` rather than as the literal `""`: with the literal the solver unfolds
   * all six passes on it, which costs far more than this proof.
   */
  lemma EmptyCell(e: string, pageNum: int, totalPages: int)
    requires |e| == 0
    ensures SubstituteTokens(Some(e), pageNum, totalPages) == e
  {
    var none: seq<Piece> := [];
    assert Render(none) == e && Expected(none, pageNum, totalPages) == e;
    SubstituteTemplate(none, pageNum, totalPages);
  }

  /** Three empty cells give three empty `div`s, on any page (`e` is `""`, as in `EmptyCell`). */
  lemma EmptyRow(e: string, pageNum: int, totalPages: int)
    requires |e| == 0
    ensures BuildHeaderFooterRow(e, e, e, pageNum, totalPages) == "<div></div><div></div><div></div>"
  {
    EmptyCell(e, pageNum, totalPages);
    EmptyMarkup(e);
  }

  /** The markup around three empty cells. */
  lemma EmptyMarkup(e: string)
    requires |e| == 0
    ensures RowMarkup(e, e, e) == "<div></div><div></div><div></div>"
  {
    assert e + "</div><div>" == "</div><div>";
  }
}

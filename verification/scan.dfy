/**
 * The substitution `substituteTokens` (printUtils.ts:18-38) is meant to compute,
 * written as one left-to-right scan: each token form becomes its meaning and every
 * other character is copied.
 *
 * The six passes of `Tokens.SubstituteTokens` hide escapes behind sentinel strings,
 * and literal text can complete a sentinel (`Tokens.SentinelCollision`). The scan has
 * no sentinels: it gives every template its meaning even when the literal text holds
 * `_` (`ScanTemplate`). On templates without `_` it agrees with the six passes
 * (`AgreeOnTemplates`); on the collision template it does not (`CollisionDiffers`).
 */
module Scan {
  import opened Optional
  import opened Text
  import opened Tokens
  import opened Rows

  /**
   * Token substitution as one scan: at each position an escape becomes the literal
   * token, a token becomes its number, and any other character is copied.
   */
  function ScanTokens(s: string, pageNum: int, totalPages: int): string
    decreases |s|
  {
    if |s| == 0 then ""
    else if s[0] == '\\' && IsPrefix(EscapedPages, s) then PagesToken + ScanTokens(s[|EscapedPages|..], pageNum, totalPages)
    else if s[0] == '\\' && IsPrefix(EscapedPage, s) then PageToken + ScanTokens(s[|EscapedPage|..], pageNum, totalPages)
    else if s[0] == '{' && IsPrefix(PagesToken, s) then Decimal(totalPages) + ScanTokens(s[|PagesToken|..], pageNum, totalPages)
    else if s[0] == '{' && IsPrefix(PageToken, s) then Decimal(pageNum) + ScanTokens(s[|PageToken|..], pageNum, totalPages)
    else [s[0]] + ScanTokens(s[1..], pageNum, totalPages)
  }

  /** An occurrence at the front fixes the text's characters to the needle's. */
  lemma HeadOf(n: string, s: string)
    requires IsPrefix(n, s)
    ensures forall k :: 0 <= k < |n| ==> s[k] == n[k]
  {
    forall k | 0 <= k < |n| ensures s[k] == n[k] {
      assert s[..|n|][k] == s[k];
    }
  }

  /** The token forms start with `\` or `{`, at the indices where they part from each other. */
  lemma TokenHeads()
    ensures EscapedPages[0] == '\\' && EscapedPage[0] == '\\' && PagesToken[0] == '{' && PageToken[0] == '{'
    ensures |EscapedPages| == 9 && |EscapedPage| == 8 && |PagesToken| == 7 && |PageToken| == 6
    ensures EscapedPages[6] == 's' && EscapedPage[6] == '\\' && PagesToken[5] == 's' && PageToken[5] == '}'
  {
  }

  /**
   * A character that starts no token form is copied, in front of text the scan
   * already copies through.
   */
  lemma ScanCons(x: string, rest: string, y: string, pageNum: int, totalPages: int)
    requires |x| > 0 && x[0] != '\\' && x[0] != '{' && y == x + rest
    requires ScanTokens(y[1..], pageNum, totalPages) == x[1..] + ScanTokens(rest, pageNum, totalPages)
    ensures ScanTokens(y, pageNum, totalPages) == x + ScanTokens(rest, pageNum, totalPages)
  {
    assert y[0] == x[0];
    Glue(x, ScanTokens(y, pageNum, totalPages), ScanTokens(rest, pageNum, totalPages));
  }

  /** Splitting off the head and putting it back in front gives the same text. */
  lemma Glue(x: string, a: string, c: string)
    requires |x| > 0 && a == [x[0]] + (x[1..] + c)
    ensures a == x + c
  {
    assert x == [x[0]] + x[1..];
  }

  /** The scan copies literal text that holds no `\` or `{`. */
  lemma {:induction false} ScanLiteral(x: string, rest: string, pageNum: int, totalPages: int)
    requires LitFree(x, {'\\', '{'})
    ensures ScanTokens(x + rest, pageNum, totalPages) == x + ScanTokens(rest, pageNum, totalPages)
    decreases |x|
  {
    if |x| == 0 {
      assert x + rest == rest;
    } else {
      assert x[0] !in {'\\', '{'};
      assert LitFree(x[1..], {'\\', '{'}) by {
        forall i | 0 <= i < |x| - 1 ensures x[1..][i] == x[i + 1] { }
      }
      ScanLiteral(x[1..], rest, pageNum, totalPages);
      assert (x + rest)[1..] == x[1..] + rest;
      ScanCons(x, rest, x + rest, pageNum, totalPages);
    }
  }

  /** `\{pages\}` at the front becomes `{pages}`. */
  lemma ScanEscPages(rest: string, pageNum: int, totalPages: int)
    ensures ScanTokens(EscapedPages + rest, pageNum, totalPages) == PagesToken + ScanTokens(rest, pageNum, totalPages)
  {
    var y := EscapedPages + rest;
    assert y[..|EscapedPages|] == EscapedPages && y[|EscapedPages|..] == rest;
  }

  /** `\{page\}` at the front becomes `{page}`: it is not the start of `\{pages\}`. */
  lemma ScanEscPage(rest: string, pageNum: int, totalPages: int)
    ensures ScanTokens(EscapedPage + rest, pageNum, totalPages) == PageToken + ScanTokens(rest, pageNum, totalPages)
  {
    var y := EscapedPage + rest;
    TokenHeads();
    assert y[6] == EscapedPage[6];
    assert !IsPrefix(EscapedPages, y) by { if IsPrefix(EscapedPages, y) { HeadOf(EscapedPages, y); } }
    assert y[..|EscapedPage|] == EscapedPage && y[|EscapedPage|..] == rest;
  }

  /** `{pages}` at the front becomes the total. */
  lemma ScanPages(rest: string, pageNum: int, totalPages: int)
    ensures ScanTokens(PagesToken + rest, pageNum, totalPages) == Decimal(totalPages) + ScanTokens(rest, pageNum, totalPages)
  {
    var y := PagesToken + rest;
    TokenHeads();
    assert y[0] == '{';
    assert !IsPrefix(EscapedPages, y) by { if IsPrefix(EscapedPages, y) { HeadOf(EscapedPages, y); } }
    assert !IsPrefix(EscapedPage, y) by { if IsPrefix(EscapedPage, y) { HeadOf(EscapedPage, y); } }
    assert y[..|PagesToken|] == PagesToken && y[|PagesToken|..] == rest;
  }

  /** `{page}` at the front becomes the page number: it is not the start of `{pages}`. */
  lemma ScanPage(rest: string, pageNum: int, totalPages: int)
    ensures ScanTokens(PageToken + rest, pageNum, totalPages) == Decimal(pageNum) + ScanTokens(rest, pageNum, totalPages)
  {
    var y := PageToken + rest;
    TokenHeads();
    assert y[0] == '{' && y[5] == '}';
    assert !IsPrefix(EscapedPages, y) by { if IsPrefix(EscapedPages, y) { HeadOf(EscapedPages, y); } }
    assert !IsPrefix(EscapedPage, y) by { if IsPrefix(EscapedPage, y) { HeadOf(EscapedPage, y); } }
    assert !IsPrefix(PagesToken, y) by { if IsPrefix(PagesToken, y) { HeadOf(PagesToken, y); } }
    assert y[..|PageToken|] == PageToken && y[|PageToken|..] == rest;
  }

  /**
   * A template for the scan: literal text without `\` or `{`, which could otherwise
   * spell a token form itself, and the four token forms. Literal `_` is allowed.
   */
  predicate IsScanTemplate(ps: seq<Piece>)
  {
    Made(ps, {Page, Pages, EscPage, EscPages}, {'\\', '{'})
  }

  /** The scan maps every piece of a template to its meaning, in order. */
  lemma {:induction false} ScanTemplate(ps: seq<Piece>, pageNum: int, totalPages: int)
    requires IsScanTemplate(ps)
    ensures ScanTokens(Render(ps), pageNum, totalPages) == Expected(ps, pageNum, totalPages)
    decreases |ps|
  {
    if |ps| > 0 {
      var rest := ps[1..];
      assert IsScanTemplate(rest) by {
        forall j | 0 <= j < |rest|
          ensures if rest[j].Lit? then LitFree(rest[j].s, {'\\', '{'}) else rest[j] in {Page, Pages, EscPage, EscPages}
        {
          assert rest[j] == ps[j + 1];
        }
      }
      ScanTemplate(rest, pageNum, totalPages);
      var tail := Render(rest);
      match ps[0]
      case Lit(s) => ScanLiteral(s, tail, pageNum, totalPages);
      case Page => ScanPage(tail, pageNum, totalPages);
      case Pages => ScanPages(tail, pageNum, totalPages);
      case EscPage => ScanEscPage(tail, pageNum, totalPages);
      case EscPages => ScanEscPages(tail, pageNum, totalPages);
      case SentPage => assert false;
      case SentPages => assert false;
    }
  }

  /** On the source's own templates, those without literal `_`, the six passes and the scan agree. */
  lemma AgreeOnTemplates(ps: seq<Piece>, pageNum: int, totalPages: int)
    requires IsTemplate(ps)
    ensures IsScanTemplate(ps)
    ensures SubstituteTokens(Some(Render(ps)), pageNum, totalPages) == ScanTokens(Render(ps), pageNum, totalPages)
  {
    SubstituteTemplate(ps, pageNum, totalPages);
    ScanTemplate(ps, pageNum, totalPages);
  }

  /** The scan keeps the escape in the collision template where it was written. */
  lemma CollisionScanned(t: string, pageNum: int, totalPages: int)
    requires t == CollisionLead + EscapedPage
    ensures ScanTokens(t, pageNum, totalPages) == CollisionLead + PageToken
  {
    CollisionSpelled([Lit(CollisionLead), EscPage]);
    assert LitFree(CollisionLead, {'\\', '{'});
    ScanLiteral(CollisionLead, EscapedPage, pageNum, totalPages);
    ScanEscPage("", pageNum, totalPages);
    assert EscapedPage + "" == EscapedPage && PageToken + "" == PageToken;
  }

  /**
   * On the collision template the six passes move the escape to the front, where the
   * scan leaves it at the end: the two outputs already differ in their first character.
   */
  lemma CollisionDiffers(t: string, pageNum: int, totalPages: int)
    requires t == CollisionLead + EscapedPage
    ensures SubstituteTokens(Some(t), pageNum, totalPages) != ScanTokens(t, pageNum, totalPages)
  {
    SentinelCollision(t, pageNum, totalPages);
    CollisionScanned(t, pageNum, totalPages);
    assert (PageToken + CollisionTail)[0] == '{';
    assert (CollisionLead + PageToken)[0] == '_';
  }

  /** The header/footer row with its cells run through the scan instead of the six passes. */
  function ScanRow(left: string, center: string, right: string, pageNum: int, totalPages: int): string
  {
    RowMarkup(ScanTokens(left, pageNum, totalPages),
              ScanTokens(center, pageNum, totalPages),
              ScanTokens(right, pageNum, totalPages))
  }

  /**
   * The scanned row holds each cell's meaning, also for cells with literal `_`, and
   * on the source's own templates it is the row `buildHeaderFooterRowHtml` builds.
   */
  lemma ScanRowOfTemplates(left: seq<Piece>, center: seq<Piece>, right: seq<Piece>, pageNum: int, totalPages: int)
    requires IsScanTemplate(left) && IsScanTemplate(center) && IsScanTemplate(right)
    ensures ScanRow(Render(left), Render(center), Render(right), pageNum, totalPages)
         == RowMarkup(Expected(left, pageNum, totalPages), Expected(center, pageNum, totalPages),
                      Expected(right, pageNum, totalPages))
    ensures IsTemplate(left) && IsTemplate(center) && IsTemplate(right) ==>
      ScanRow(Render(left), Render(center), Render(right), pageNum, totalPages)
      == BuildHeaderFooterRow(Render(left), Render(center), Render(right), pageNum, totalPages)
  {
    ScanTemplate(left, pageNum, totalPages);
    ScanTemplate(center, pageNum, totalPages);
    ScanTemplate(right, pageNum, totalPages);
    if IsTemplate(left) && IsTemplate(center) && IsTemplate(right) {
      RowOfTemplates(left, center, right, pageNum, totalPages);
    }
  }
}

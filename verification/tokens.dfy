/**
 * Header/footer template substitution as written (`substituteTokens`), printUtils.ts:8-38.
 *
 * The substitution runs six literal replace-all passes: escapes to sentinels, `{pages}`,
 * `{page}`, sentinels back to literal tokens. Its meaning is stated over a template
 * grammar of literal text and the four token forms (`Piece`): every pass is shown to act
 * piece by piece, so the whole pipeline maps each piece to its `Meaning`.
 */
module Tokens {
  import opened Optional
  import opened Text

  const PageToken: string := "{page}"
  const PagesToken: string := "{pages}"
  const EscapedPage: string := "\\{page\\}"
  const EscapedPages: string := "\\{pages\\}"
  /** ESC_PAGE and ESC_PAGES, the placeholders that hide escapes during substitution. */
  const EscPageSentinel: string := "__HANGEULMD_ESC_PAGE__"
  const EscPagesSentinel: string := "__HANGEULMD_ESC_PAGES__"

  /** `substituteTokens(text, pageNum, totalPages)`; `None` is a null/undefined template. */
  function SubstituteTokens(text: Option<string>, pageNum: int, totalPages: int): (r: string)
    ensures text.None? ==> r == ""
  {
    var s0 := text.OrElse("");
    var s1 := ReplaceAllLiteral(s0, EscapedPages, EscPagesSentinel);
    var s2 := ReplaceAllLiteral(s1, EscapedPage, EscPageSentinel);
    var s3 := ReplaceAllLiteral(s2, PagesToken, Decimal(totalPages));
    var s4 := ReplaceAllLiteral(s3, PageToken, Decimal(pageNum));
    var s5 := ReplaceAllLiteral(s4, EscPagesSentinel, PagesToken);
    ReplaceAllLiteral(s5, EscPageSentinel, PageToken)
  }

  // ---------------------------------------------------------------------------
  // Template grammar

  /** A template piece. The sentinel pieces only exist between passes. */
  datatype Piece = Lit(s: string) | Page | Pages | EscPage | EscPages | SentPage | SentPages

  function Show(p: Piece): string
  {
    match p
    case Lit(s) => s
    case Page => PageToken
    case Pages => PagesToken
    case EscPage => EscapedPage
    case EscPages => EscapedPages
    case SentPage => EscPageSentinel
    case SentPages => EscPagesSentinel
  }

  function Render(ps: seq<Piece>): string
    decreases |ps|
  {
    if |ps| == 0 then "" else Show(ps[0]) + Render(ps[1..])
  }

  /** What a piece should become on page `pageNum` of `totalPages`. */
  function Meaning(p: Piece, pageNum: int, totalPages: int): string
  {
    match p
    case Lit(s) => s
    case Page => Decimal(pageNum)
    case Pages => Decimal(totalPages)
    case EscPage => PageToken
    case EscPages => PagesToken
    case SentPage => EscPageSentinel
    case SentPages => EscPagesSentinel
  }

  function Expected(ps: seq<Piece>, pageNum: int, totalPages: int): string
    decreases |ps|
  {
    if |ps| == 0 then "" else Meaning(ps[0], pageNum, totalPages) + Expected(ps[1..], pageNum, totalPages)
  }

  predicate LitFree(s: string, banned: set<char>)
  {
    forall i :: 0 <= i < |s| ==> s[i] !in banned
  }

  /** Every literal piece avoids `banned`, and every other piece is one of `kinds`. */
  predicate Made(ps: seq<Piece>, kinds: set<Piece>, banned: set<char>)
  {
    forall j :: 0 <= j < |ps| ==> if ps[j].Lit? then LitFree(ps[j].s, banned) else ps[j] in kinds
  }

  /**
   * A user template: literal text without `\`, `{` or `_`, and the four token forms.
   * The `_` restriction keeps literal text from completing a sentinel (see `SentinelCollision`).
   */
  predicate IsTemplate(ps: seq<Piece>)
  {
    Made(ps, {Page, Pages, EscPage, EscPages}, {'\\', '{', '_'})
  }

  /** Every piece equal to `from` replaced by `to`. */
  function Swap(ps: seq<Piece>, from: Piece, to: Piece): (qs: seq<Piece>)
    ensures |qs| == |ps|
    ensures forall j :: 0 <= j < |ps| ==> qs[j] == if ps[j] == from then to else ps[j]
    decreases |ps|
  {
    if |ps| == 0 then []
    else [if ps[0] == from then to else ps[0]] + Swap(ps[1..], from, to)
  }

  lemma SwapMade(ps: seq<Piece>, from: Piece, to: Piece,
                 kinds: set<Piece>, banned: set<char>, kinds2: set<Piece>, banned2: set<char>)
    requires Made(ps, kinds, banned)
    requires banned2 <= banned && kinds - {from} <= kinds2
    requires if to.Lit? then LitFree(to.s, banned2) else to in kinds2
    ensures Made(Swap(ps, from, to), kinds2, banned2)
  {
  }

  // ---------------------------------------------------------------------------
  // One pass acts piece by piece

  /**
   * When no occurrence of `Show(k)` starts inside any other piece, replacing `Show(k)`
   * by `Show(to)` in the rendered text is the same as swapping the pieces.
   */
  lemma {:induction false} ScanPieces(ps: seq<Piece>, k: Piece, to: Piece)
    requires |Show(k)| > 0
    requires forall j :: 0 <= j < |ps| && ps[j] != k ==> Inert(Show(ps[j]), Show(k), Render(ps[j + 1..]))
    ensures ReplaceEach(Render(ps), Show(k), Show(to)) == Render(Swap(ps, k, to))
    decreases |ps|
  {
    if |ps| > 0 {
      var rest := ps[1..];
      forall j | 0 <= j < |rest| && rest[j] != k
        ensures Inert(Show(rest[j]), Show(k), Render(rest[j + 1..]))
      {
        assert rest[j] == ps[j + 1] && rest[j + 1..] == ps[j + 2..];
      }
      ScanPieces(rest, k, to);
      if ps[0] == k {
        ReplaceAtFront(Show(k), Render(rest), Show(to));
      } else {
        SkipInert(Show(ps[0]), Render(rest), Show(k), Show(to));
      }
    }
  }

  /** The short token forms do not overlap one another's needles. */
  lemma GuardPageTokenEscapedPages()
    ensures Guarded(PageToken, EscapedPages)
  {
    assert EscapedPages[0] == '\\';
    assert forall i :: 0 <= i < |PageToken| ==> PageToken[i] != '\\';
    FirstCharGuard(PageToken, EscapedPages);
  }

  lemma GuardPagesTokenEscapedPages()
    ensures Guarded(PagesToken, EscapedPages)
  {
    assert EscapedPages[0] == '\\';
    assert forall i :: 0 <= i < |PagesToken| ==> PagesToken[i] != '\\';
    FirstCharGuard(PagesToken, EscapedPages);
  }

  lemma GuardEscapedPageEscapedPages()
    ensures Guarded(EscapedPage, EscapedPages)
  {
    var x, n := EscapedPage, EscapedPages;
    forall i | 0 <= i < |x|
      ensures Clash(x[i..], n)
    {
      if i == 0 {
        EscapesDiverge();
      } else if i == 6 {
        ClosingEscapeClash();
      } else {
        assert x[i] != '\\';
        assert x[i..][0] == x[i];
      }
    }
  }

  /** `\\{page` is shared; then ESC_PAGE's `\\` meets ESC_PAGES' `s`. */
  lemma EscapesDiverge()
    ensures Clash(EscapedPage[0..], EscapedPages)
  {
    var x, n := EscapedPage, EscapedPages;
    assert x[0..] == x;
    assert x[..6] == n[..6] && x[6] != n[6];
    ClashAt(x, n, 6);
  }

  /** The closing `\\}` of ESC_PAGE is not an opening `\\{`. */
  lemma ClosingEscapeClash()
    ensures Clash(EscapedPage[6..], EscapedPages)
  {
    var x, n := EscapedPage[6..], EscapedPages;
    assert x[..1] == n[..1] && x[1] != n[1];
    ClashAt(x, n, 1);
  }

  lemma GuardPageTokenEscapedPage()
    ensures Guarded(PageToken, EscapedPage)
  {
    assert EscapedPage[0] == '\\';
    assert forall i :: 0 <= i < |PageToken| ==> PageToken[i] != '\\';
    FirstCharGuard(PageToken, EscapedPage);
  }

  lemma GuardPagesTokenEscapedPage()
    ensures Guarded(PagesToken, EscapedPage)
  {
    assert EscapedPage[0] == '\\';
    assert forall i :: 0 <= i < |PagesToken| ==> PagesToken[i] != '\\';
    FirstCharGuard(PagesToken, EscapedPage);
  }

  lemma GuardPageTokenPagesToken()
    ensures Guarded(PageToken, PagesToken)
  {
  }

  /** The sentinels contain neither `{` nor `\\`, so no token form starts inside them. */
  lemma SentinelGuard(x: string, n: string)
    requires x == EscPageSentinel || x == EscPagesSentinel
    requires n in {EscapedPage, PagesToken, PageToken}
    ensures Guarded(x, n)
  {
    assert forall i :: 0 <= i < |EscPageSentinel| ==> EscPageSentinel[i] != '{' && EscPageSentinel[i] != '\\';
    assert forall i :: 0 <= i < |EscPagesSentinel| ==> EscPagesSentinel[i] != '{' && EscPagesSentinel[i] != '\\';
    FirstCharGuard(x, n);
  }

  /** Before its trailing `__`, ESC_PAGE clashes with ESC_PAGES at every position. */
  lemma SentinelPrefixClash(i: nat)
    requires i < 20
    ensures Clash(EscPageSentinel[i..], EscPagesSentinel)
  {
    if i == 0 {
      SentinelsDiverge();
    } else if i == 1 || i == 11 || i == 15 {
      UnderscoreClash(i);
    } else {
      LetterClash(i);
    }
  }

  /** The two sentinels agree on their first 20 characters and part at the 21st. */
  lemma SentinelsDiverge()
    ensures Clash(EscPageSentinel, EscPagesSentinel)
  {
    var x, n := EscPageSentinel, EscPagesSentinel;
    assert x[..20] == n[..20] && x[20] != n[20];
    ClashAt(x, n, 20);
  }

  /** A lone `_` inside ESC_PAGE is followed by a letter, where ESC_PAGES has its second `_`. */
  lemma UnderscoreClash(i: nat)
    requires i == 1 || i == 11 || i == 15
    ensures Clash(EscPageSentinel[i..], EscPagesSentinel)
  {
    var x, n := EscPageSentinel, EscPagesSentinel;
    assert x[i + 1] != '_';
    assert x[i..][..1] == n[..1];
    ClashAt(x[i..], n, 1);
  }

  /** Elsewhere before position 20, ESC_PAGE holds a letter where ESC_PAGES starts with `_`. */
  lemma LetterClash(i: nat)
    requires 1 < i < 20 && i != 11 && i != 15
    ensures Clash(EscPageSentinel[i..], EscPagesSentinel)
  {
    var x := EscPageSentinel;
    assert x[i] != '_';
    assert x[i..][0] == x[i];
  }

  /** Literal text without the needle's first character never starts an occurrence. */
  lemma LitInert(s: string, n: string, y: string, banned: set<char>)
    requires |n| > 0 && n[0] in banned && LitFree(s, banned)
    ensures Inert(s, n, y)
  {
    FirstCharGuard(s, n);
    GuardedIsInert(s, y, n);
  }

  /** Pass 1: `\\{pages\\}` becomes ESC_PAGES. */
  lemma Pass1(ps: seq<Piece>)
    requires IsTemplate(ps)
    ensures ReplaceAllLiteral(Render(ps), EscapedPages, Show(SentPages))
         == Render(Swap(ps, EscPages, SentPages))
  {
    forall j | 0 <= j < |ps| && ps[j] != EscPages
      ensures Inert(Show(ps[j]), EscapedPages, Render(ps[j + 1..]))
    {
      var y := Render(ps[j + 1..]);
      if ps[j].Lit? {
        LitInert(ps[j].s, EscapedPages, y, {'\\', '{', '_'});
      } else if ps[j] == Page {
        GuardPageTokenEscapedPages();
        GuardedIsInert(Show(ps[j]), y, EscapedPages);
      } else if ps[j] == Pages {
        GuardPagesTokenEscapedPages();
        GuardedIsInert(Show(ps[j]), y, EscapedPages);
      } else if ps[j] == EscPage {
        GuardEscapedPageEscapedPages();
        GuardedIsInert(Show(ps[j]), y, EscapedPages);
      }
    }
    ScanPieces(ps, EscPages, SentPages);
  }

  /** Pass 2: `\\{page\\}` becomes ESC_PAGE. */
  lemma Pass2(ps: seq<Piece>)
    requires Made(ps, {Page, Pages, EscPage, SentPages}, {'\\', '{', '_'})
    ensures ReplaceAllLiteral(Render(ps), EscapedPage, Show(SentPage))
         == Render(Swap(ps, EscPage, SentPage))
  {
    forall j | 0 <= j < |ps| && ps[j] != EscPage
      ensures Inert(Show(ps[j]), EscapedPage, Render(ps[j + 1..]))
    {
      var y := Render(ps[j + 1..]);
      if ps[j].Lit? {
        LitInert(ps[j].s, EscapedPage, y, {'\\', '{', '_'});
      } else if ps[j] == Page {
        GuardPageTokenEscapedPage();
        GuardedIsInert(Show(ps[j]), y, EscapedPage);
      } else if ps[j] == Pages {
        GuardPagesTokenEscapedPage();
        GuardedIsInert(Show(ps[j]), y, EscapedPage);
      } else if ps[j] == SentPages {
        SentinelGuard(EscPagesSentinel, EscapedPage);
        GuardedIsInert(Show(ps[j]), y, EscapedPage);
      }
    }
    ScanPieces(ps, EscPage, SentPage);
  }

  /** Pass 3: `{pages}` becomes the total. */
  lemma Pass3(ps: seq<Piece>, totalPages: int)
    requires Made(ps, {Page, Pages, SentPage, SentPages}, {'\\', '{', '_'})
    ensures ReplaceAllLiteral(Render(ps), PagesToken, Show(Lit(Decimal(totalPages))))
         == Render(Swap(ps, Pages, Lit(Decimal(totalPages))))
  {
    forall j | 0 <= j < |ps| && ps[j] != Pages
      ensures Inert(Show(ps[j]), PagesToken, Render(ps[j + 1..]))
    {
      var y := Render(ps[j + 1..]);
      if ps[j].Lit? {
        LitInert(ps[j].s, PagesToken, y, {'\\', '{', '_'});
      } else if ps[j] == Page {
        GuardPageTokenPagesToken();
        GuardedIsInert(Show(ps[j]), y, PagesToken);
      } else if ps[j] == SentPage {
        SentinelGuard(EscPageSentinel, PagesToken);
        GuardedIsInert(Show(ps[j]), y, PagesToken);
      } else if ps[j] == SentPages {
        SentinelGuard(EscPagesSentinel, PagesToken);
        GuardedIsInert(Show(ps[j]), y, PagesToken);
      }
    }
    ScanPieces(ps, Pages, Lit(Decimal(totalPages)));
  }

  /** Pass 4: `{page}` becomes the page number. */
  lemma Pass4(ps: seq<Piece>, pageNum: int)
    requires Made(ps, {Page, SentPage, SentPages}, {'\\', '{', '_'})
    ensures ReplaceAllLiteral(Render(ps), PageToken, Show(Lit(Decimal(pageNum))))
         == Render(Swap(ps, Page, Lit(Decimal(pageNum))))
  {
    forall j | 0 <= j < |ps| && ps[j] != Page
      ensures Inert(Show(ps[j]), PageToken, Render(ps[j + 1..]))
    {
      var y := Render(ps[j + 1..]);
      if ps[j].Lit? {
        LitInert(ps[j].s, PageToken, y, {'\\', '{', '_'});
      } else if ps[j] == SentPage {
        SentinelGuard(EscPageSentinel, PageToken);
        GuardedIsInert(Show(ps[j]), y, PageToken);
      } else if ps[j] == SentPages {
        SentinelGuard(EscPagesSentinel, PageToken);
        GuardedIsInert(Show(ps[j]), y, PageToken);
      }
    }
    ScanPieces(ps, Page, Lit(Decimal(pageNum)));
  }

  /**
   * In text where every `_` belongs to a sentinel, a `_` that is not the first character
   * of the text is never followed by anything but `_` at a piece boundary: the text does
   * not start with `w + "_" + c` for `w` free of `_` and `c` other than `_`.
   */
  lemma {:induction false} NoStrayUnderscore(ps: seq<Piece>, w: string, c: char)
    requires Made(ps, {SentPage, SentPages}, {'_'})
    requires LitFree(w, {'_'}) && c != '_'
    ensures !IsPrefix(w + ['_', c], Render(ps))
    decreases |ps|
  {
    if |ps| > 0 {
      var a := w + ['_', c];
      var rest := Render(ps[1..]);
      assert Made(ps[1..], {SentPage, SentPages}, {'_'}) by {
        forall j | 0 <= j < |ps[1..]|
          ensures if ps[1..][j].Lit? then LitFree(ps[1..][j].s, {'_'}) else ps[1..][j] in {SentPage, SentPages}
        {
          assert ps[1..][j] == ps[j + 1];
        }
      }
      match ps[0]
      case Lit(s) =>
        if |s| <= |w| {
          NoStrayUnderscore(ps[1..], w[|s|..], c);
          assert a[|s|..] == w[|s|..] + ['_', c];
          PrefixThrough(a, s, rest);
        } else {
          assert (s + rest)[|w|] == s[|w|];
          assert a[|w|] == '_';
        }
      case SentPage =>
        assert (EscPageSentinel + rest)[0] == '_' && (EscPageSentinel + rest)[1] == '_';
        if |w| > 0 {
          assert a[0] == w[0];
        } else {
          assert a[1] == c;
        }
      case SentPages =>
        assert (EscPagesSentinel + rest)[0] == '_' && (EscPagesSentinel + rest)[1] == '_';
        if |w| > 0 {
          assert a[0] == w[0];
        } else {
          assert a[1] == c;
        }
    }
  }

  /** ESC_PAGES cannot start at the first of ESC_PAGE's trailing `__`: `HANGEULMD_E` would have to follow. */
  lemma SentPageInertAt20(ps: seq<Piece>)
    requires Made(ps, {SentPage, SentPages}, {'_'})
    ensures !IsPrefix(EscPagesSentinel, "__" + Render(ps))
  {
    var n, y := EscPagesSentinel, Render(ps);
    PrefixThrough(n, "__", y);
    SentinelStem();
    var w := n[2..11];
    assert forall k :: 0 <= k < |w| ==> w[k] == n[k + 2];
    assert n[2..][..11] == w + ['_', 'E'];
    NoStrayUnderscore(ps, w, 'E');
    PrefixShorten(n[2..], 11, y);
  }

  /** Where ESC_PAGES has its first lone `_`: after `HANGEULMD`, before `E`. */
  lemma SentinelStem()
    ensures |EscPagesSentinel| == 23 && EscPagesSentinel[11] == '_' && EscPagesSentinel[12] == 'E'
    ensures forall k :: 2 <= k < 11 ==> EscPagesSentinel[k] != '_'
  {
  }

  /** ESC_PAGES cannot start at ESC_PAGE's last `_`: `_H` would have to follow. */
  lemma SentPageInertAt21(ps: seq<Piece>)
    requires Made(ps, {SentPage, SentPages}, {'_'})
    ensures !IsPrefix(EscPagesSentinel, "_" + Render(ps))
  {
    var n, y := EscPagesSentinel, Render(ps);
    NoStrayUnderscore(ps, "", 'H');
    PrefixThrough(n, "_", y);
    PrefixShorten(n[1..], 2, y);
    assert n[1] == '_' && n[2] == 'H';
    assert n[1..][..2] == "" + ['_', 'H'];
  }

  /** ESC_PAGES never starts inside an ESC_PAGE piece, though the last two `_` need the pieces that follow. */
  lemma SentPageInert(ps: seq<Piece>)
    requires Made(ps, {SentPage, SentPages}, {'_'})
    ensures Inert(EscPageSentinel, EscPagesSentinel, Render(ps))
  {
    var x, n, y := EscPageSentinel, EscPagesSentinel, Render(ps);
    forall i | 0 <= i < |x|
      ensures !IsPrefix(n, (x + y)[i..])
    {
      assert (x + y)[i..] == x[i..] + y;
      if i < 20 {
        SentinelPrefixClash(i);
        ClashBlocks(x[i..], y, n);
      } else if i == 20 {
        assert x[i..] == "__";
        SentPageInertAt20(ps);
      } else {
        assert x[i..] == "_";
        SentPageInertAt21(ps);
      }
    }
  }

  /** Pass 5: ESC_PAGES becomes a literal `{pages}`. */
  lemma Pass5(ps: seq<Piece>)
    requires Made(ps, {SentPage, SentPages}, {'\\', '{', '_'})
    ensures ReplaceAllLiteral(Render(ps), EscPagesSentinel, PagesToken)
         == Render(Swap(ps, SentPages, Lit(PagesToken)))
  {
    forall j | 0 <= j < |ps| && ps[j] != SentPages
      ensures Inert(Show(ps[j]), EscPagesSentinel, Render(ps[j + 1..]))
    {
      if ps[j].Lit? {
        LitInert(ps[j].s, EscPagesSentinel, Render(ps[j + 1..]), {'\\', '{', '_'});
      } else {
        SentPageInert(ps[j + 1..]);
      }
    }
    ScanPieces(ps, SentPages, Lit(PagesToken));
  }

  /** Pass 6: ESC_PAGE becomes a literal `{page}`. */
  lemma Pass6(ps: seq<Piece>)
    requires Made(ps, {SentPage}, {'_'})
    ensures ReplaceAllLiteral(Render(ps), EscPageSentinel, PageToken)
         == Render(Swap(ps, SentPage, Lit(PageToken)))
  {
    forall j | 0 <= j < |ps| && ps[j] != SentPage
      ensures Inert(Show(ps[j]), EscPageSentinel, Render(ps[j + 1..]))
    {
      LitInert(ps[j].s, EscPageSentinel, Render(ps[j + 1..]), {'_'});
    }
    ScanPieces(ps, SentPage, Lit(PageToken));
  }

  // ---------------------------------------------------------------------------
  // The whole pipeline

  /** Rendering pieces that each show what the corresponding template piece means. */
  lemma {:induction false} RenderPointwise(qs: seq<Piece>, ps: seq<Piece>, pageNum: int, totalPages: int)
    requires |qs| == |ps|
    requires forall j :: 0 <= j < |ps| ==> Show(qs[j]) == Meaning(ps[j], pageNum, totalPages)
    ensures Render(qs) == Expected(ps, pageNum, totalPages)
    decreases |ps|
  {
    if |ps| > 0 {
      RenderPointwise(qs[1..], ps[1..], pageNum, totalPages);
    }
  }

  lemma DecimalPlain(n: int)
    ensures LitFree(Decimal(n), {'\\', '{', '_'})
  {
    var d := Decimal(n);
    forall i | 0 <= i < |d|
      ensures d[i] !in {'\\', '{', '_'}
    {
      assert d[i] == '-' || d[i] in Digits;
    }
  }

  /** The six swaps the passes perform, in order. */
  function Resolved(ps: seq<Piece>, pageNum: int, totalPages: int): seq<Piece>
  {
    var ps1 := Swap(ps, EscPages, SentPages);
    var ps2 := Swap(ps1, EscPage, SentPage);
    var ps3 := Swap(ps2, Pages, Lit(Decimal(totalPages)));
    var ps4 := Swap(ps3, Page, Lit(Decimal(pageNum)));
    var ps5 := Swap(ps4, SentPages, Lit(PagesToken));
    Swap(ps5, SentPage, Lit(PageToken))
  }

  /** Each template piece ends up showing its meaning. */
  lemma ResolvedMeaning(ps: seq<Piece>, pageNum: int, totalPages: int)
    requires IsTemplate(ps)
    ensures Render(Resolved(ps, pageNum, totalPages)) == Expected(ps, pageNum, totalPages)
  {
    var qs := Resolved(ps, pageNum, totalPages);
    forall j | 0 <= j < |ps|
      ensures Show(qs[j]) == Meaning(ps[j], pageNum, totalPages)
    {
      ResolvedAt(ps, j, pageNum, totalPages);
    }
    RenderPointwise(qs, ps, pageNum, totalPages);
  }

  /** One template piece followed through the six swaps. */
  lemma ResolvedAt(ps: seq<Piece>, j: int, pageNum: int, totalPages: int)
    requires IsTemplate(ps) && 0 <= j < |ps|
    ensures Show(Resolved(ps, pageNum, totalPages)[j]) == Meaning(ps[j], pageNum, totalPages)
  {
    assert ps[j].Lit? || ps[j] in {Page, Pages, EscPage, EscPages};
    var ps1 := Swap(ps, EscPages, SentPages);
    var ps2 := Swap(ps1, EscPage, SentPage);
    var ps3 := Swap(ps2, Pages, Lit(Decimal(totalPages)));
    var ps4 := Swap(ps3, Page, Lit(Decimal(pageNum)));
    var ps5 := Swap(ps4, SentPages, Lit(PagesToken));
    var ps6 := Swap(ps5, SentPage, Lit(PageToken));
    var p := ps[j];
    var p1 := if p == EscPages then SentPages else p;
    var p2 := if p1 == EscPage then SentPage else p1;
    var p3 := if p2 == Pages then Lit(Decimal(totalPages)) else p2;
    var p4 := if p3 == Page then Lit(Decimal(pageNum)) else p3;
    var p5 := if p4 == SentPages then Lit(PagesToken) else p4;
    var p6 := if p5 == SentPage then Lit(PageToken) else p5;
    assert ps1[j] == p1;
    assert ps2[j] == p2;
    assert ps3[j] == p3;
    assert ps4[j] == p4;
    assert ps5[j] == p5;
    assert ps6[j] == p6;
    assert Show(p6) == Meaning(p, pageNum, totalPages);
  }

  /** The piece kinds left after each pass. */
  lemma MadeAfterPasses(ps: seq<Piece>, pageNum: int, totalPages: int)
    requires IsTemplate(ps)
    ensures var ps1 := Swap(ps, EscPages, SentPages);
            var ps2 := Swap(ps1, EscPage, SentPage);
            var ps3 := Swap(ps2, Pages, Lit(Decimal(totalPages)));
            var ps4 := Swap(ps3, Page, Lit(Decimal(pageNum)));
            var ps5 := Swap(ps4, SentPages, Lit(PagesToken));
            && Made(ps1, {Page, Pages, EscPage, SentPages}, {'\\', '{', '_'})
            && Made(ps2, {Page, Pages, SentPage, SentPages}, {'\\', '{', '_'})
            && Made(ps3, {Page, SentPage, SentPages}, {'\\', '{', '_'})
            && Made(ps4, {SentPage, SentPages}, {'\\', '{', '_'})
            && Made(ps5, {SentPage}, {'_'})
  {
    DecimalPlain(totalPages);
    DecimalPlain(pageNum);
    MadeAfterSwaps(ps, Decimal(totalPages), Decimal(pageNum));
  }

  /** The same, for any numerals `dt` and `dp` free of the banned characters. */
  lemma MadeAfterSwaps(ps: seq<Piece>, dt: string, dp: string)
    requires IsTemplate(ps)
    requires LitFree(dt, {'\\', '{', '_'}) && LitFree(dp, {'\\', '{', '_'})
    ensures var ps1 := Swap(ps, EscPages, SentPages);
            var ps2 := Swap(ps1, EscPage, SentPage);
            var ps3 := Swap(ps2, Pages, Lit(dt));
            var ps4 := Swap(ps3, Page, Lit(dp));
            var ps5 := Swap(ps4, SentPages, Lit(PagesToken));
            && Made(ps1, {Page, Pages, EscPage, SentPages}, {'\\', '{', '_'})
            && Made(ps2, {Page, Pages, SentPage, SentPages}, {'\\', '{', '_'})
            && Made(ps3, {Page, SentPage, SentPages}, {'\\', '{', '_'})
            && Made(ps4, {SentPage, SentPages}, {'\\', '{', '_'})
            && Made(ps5, {SentPage}, {'_'})
  {
    var B := {'\\', '{', '_'};
    var ps1 := Swap(ps, EscPages, SentPages);
    var ps2 := Swap(ps1, EscPage, SentPage);
    var ps3 := Swap(ps2, Pages, Lit(dt));
    var ps4 := Swap(ps3, Page, Lit(dp));
    SwapMade(ps, EscPages, SentPages, {Page, Pages, EscPage, EscPages}, B, {Page, Pages, EscPage, SentPages}, B);
    SwapMade(ps1, EscPage, SentPage, {Page, Pages, EscPage, SentPages}, B, {Page, Pages, SentPage, SentPages}, B);
    SwapMade(ps2, Pages, Lit(dt), {Page, Pages, SentPage, SentPages}, B, {Page, SentPage, SentPages}, B);
    SwapMade(ps3, Page, Lit(dp), {Page, SentPage, SentPages}, B, {SentPage, SentPages}, B);
    SwapMade(ps4, SentPages, Lit(PagesToken), {SentPage, SentPages}, B, {SentPage}, {'_'});
  }

  /** The text after each pass is the rendering of the swapped pieces. */
  lemma PassesRender(ps: seq<Piece>, pageNum: int, totalPages: int)
    requires IsTemplate(ps)
    ensures SubstituteTokens(Some(Render(ps)), pageNum, totalPages) == Render(Resolved(ps, pageNum, totalPages))
  {
    MadeAfterPasses(ps, pageNum, totalPages);
    var ps1 := Swap(ps, EscPages, SentPages);
    var ps2 := Swap(ps1, EscPage, SentPage);
    var ps3 := Swap(ps2, Pages, Lit(Decimal(totalPages)));
    var ps4 := Swap(ps3, Page, Lit(Decimal(pageNum)));
    var ps5 := Swap(ps4, SentPages, Lit(PagesToken));
    Pass1(ps);
    Pass2(ps1);
    Pass3(ps2, totalPages);
    Pass4(ps3, pageNum);
    Pass5(ps4);
    Pass6(ps5);
  }

  /**
   * Substitution of a template: every `{pages}` becomes the total, every `{page}` the page
   * number, every `\\{page\\}` / `\\{pages\\}` the literal `{page}` / `{pages}`, and literal text
   * is kept, in order (printUtils.ts:23-37).
   */
  lemma SubstituteTemplate(ps: seq<Piece>, pageNum: int, totalPages: int)
    requires IsTemplate(ps)
    ensures SubstituteTokens(Some(Render(ps)), pageNum, totalPages) == Expected(ps, pageNum, totalPages)
  {
    PassesRender(ps, pageNum, totalPages);
    ResolvedMeaning(ps, pageNum, totalPages);
  }

  /** A needle with a character the text lacks does not occur in it. */
  lemma MissingCharNoOccurrence(s: string, n: string, k: nat)
    requires k < |n| && forall i :: 0 <= i < |s| ==> s[i] != n[k]
    ensures !Contains(s, n)
  {
    forall i | 0 <= i <= |s|
      ensures !IsPrefix(n, s[i..])
    {
      if |n| <= |s[i..]| {
        assert s[i..][k] != n[k];
      }
    }
  }

  /**
   * Text with no `{` and neither sentinel passes through unchanged: no pass finds its
   * needle (printUtils.ts:23-37).
   */
  lemma PlainTextUnchanged(text: string, pageNum: int, totalPages: int)
    requires forall i :: 0 <= i < |text| ==> text[i] != '{'
    requires !Contains(text, EscPageSentinel) && !Contains(text, EscPagesSentinel)
    ensures SubstituteTokens(Some(text), pageNum, totalPages) == text
  {
    MissingCharNoOccurrence(text, EscapedPages, 1);
    MissingCharNoOccurrence(text, EscapedPage, 1);
    MissingCharNoOccurrence(text, PagesToken, 0);
    MissingCharNoOccurrence(text, PageToken, 0);
  }

  /** ` of ` and the other literals of the examples avoid the banned characters. */
  lemma PlainLiteral(s: string)
    requires forall i :: 0 <= i < |s| ==> s[i] == ' ' || 'a' <= s[i] <= 'z' || s[i] == ','
    ensures LitFree(s, {'\\', '{', '_'})
  {
  }

  lemma CountPieces(ps: seq<Piece>)
    requires ps == [Pages, Lit(" of "), Page]
    ensures Render(ps) == PagesToken + " of " + PageToken && IsTemplate(ps)
    ensures Expected(ps, 3, 10) == Decimal(10) + " of " + Decimal(3)
  {
    assert ps[1..] == [Lit(" of "), Page] && ps[2..] == [Page] && ps[3..] == [];
    PlainLiteral(" of ");
    assert Render(ps[2..]) == PageToken;
    assert Render(ps[1..]) == " of " + PageToken;
    assert Expected(ps[3..], 3, 10) == "";
    assert Expected(ps[2..], 3, 10) == Decimal(3);
    assert Expected(ps[1..], 3, 10) == " of " + Decimal(3);
  }

  /** `substituteTokens("{pages} of {page}", 3, 10)` is `"10 of 3"`. */
  lemma CountExample(t: string)
    requires t == "{pages} of {page}"
    ensures SubstituteTokens(Some(t), 3, 10) == "10 of 3"
  {
    var ps := [Pages, Lit(" of "), Page];
    CountPieces(ps);
    CountSpelling(t);
    SubstituteTemplate(ps, 3, 10);
    SmallNumerals();
    CountReads(Decimal(10), Decimal(3));
  }

  /** The example template spelled with the token constants. */
  lemma CountSpelling(t: string)
    requires t == "{pages} of {page}"
    ensures t == PagesToken + " of " + PageToken
  {
  }

  /** The numerals the examples print. */
  lemma SmallNumerals()
    ensures Decimal(10) == "10" && Decimal(3) == "3" && Decimal(5) == "5"
  {
    assert NatToDecimal(1) == "1" && NatToDecimal(0) == "0";
    assert NatToDecimal(10) == NatToDecimal(1) + [Digits[0]];
  }

  /** The example's output, assembled from its numerals. */
  lemma CountReads(ten: string, three: string)
    requires ten == "10" && three == "3"
    ensures ten + " of " + three == "10 of 3"
  {
  }

  lemma EscapeRender(ps: seq<Piece>)
    requires ps == [EscPage, Lit(" literal, "), Page, Lit(" real")]
    ensures Render(ps) == EscapedPage + " literal, " + PageToken + " real" && IsTemplate(ps)
  {
    assert ps[1..] == [Lit(" literal, "), Page, Lit(" real")];
    assert ps[2..] == [Page, Lit(" real")] && ps[3..] == [Lit(" real")] && ps[4..] == [];
    PlainLiteral(" literal, ");
    PlainLiteral(" real");
    assert Render(ps[3..]) == " real";
    assert Render(ps[2..]) == PageToken + " real";
    assert Render(ps[1..]) == " literal, " + PageToken + " real";
  }

  lemma EscapeMeaning(ps: seq<Piece>)
    requires ps == [EscPage, Lit(" literal, "), Page, Lit(" real")]
    ensures Expected(ps, 5, 9) == PageToken + " literal, " + Decimal(5) + " real"
  {
    assert ps[1..] == [Lit(" literal, "), Page, Lit(" real")];
    assert ps[2..] == [Page, Lit(" real")] && ps[3..] == [Lit(" real")] && ps[4..] == [];
    assert Expected(ps[4..], 5, 9) == "";
    assert Expected(ps[3..], 5, 9) == " real";
    assert Expected(ps[2..], 5, 9) == Decimal(5) + " real";
    assert Expected(ps[1..], 5, 9) == " literal, " + Decimal(5) + " real";
  }

  /** An escaped token stays literal next to a real one: `\\{page\\} literal, {page} real` on page 5 of 9. */
  lemma EscapeExample(t: string)
    requires t == "\\{page\\} literal, {page} real"
    ensures SubstituteTokens(Some(t), 5, 9) == "{page} literal, 5 real"
  {
    var ps := [EscPage, Lit(" literal, "), Page, Lit(" real")];
    EscapeRender(ps);
    EscapeSpelling(t);
    EscapeMeaning(ps);
    SubstituteTemplate(ps, 5, 9);
    SmallNumerals();
    EscapeReads(PageToken, Decimal(5));
  }

  /** The escape example spelled with the token constants. */
  lemma EscapeSpelling(t: string)
    requires t == "\\{page\\} literal, {page} real"
    ensures t == EscapedPage + " literal, " + PageToken + " real"
  {
  }

  /** The escape example's output, assembled from its parts. */
  lemma EscapeReads(token: string, five: string)
    requires token == "{page}" && five == "5"
    ensures token + " literal, " + five + " real" == "{page} literal, 5 real"
  {
  }

  /** No occurrence fits in text shorter than the needle. */
  lemma ShortNoOccurrence(x: string, n: string, y: string, from: nat)
    requires |x| + |y| < |n| + from
    ensures forall i :: from <= i < |x| ==> !IsPrefix(n, (x + y)[i..])
  {
  }

  /** The 28-character template of `SentinelCollision` holds neither sentinel. */
  lemma StemNotSentinel(t: string, n: string)
    requires t == CollisionLead + EscapedPage
    requires n == EscPageSentinel || n == EscPagesSentinel
    ensures !Contains(t, n)
  {
    assert |t| == 28 && |n| >= 22;
    assert t[20] == '\\' && n[20] != '\\';
    assert forall i :: 2 <= i <= 6 ==> t[i] != '_';
    assert t[2] != '_' && n[0] == '_' && n[1] == '_';
    forall i | 0 <= i <= |t|
      ensures !IsPrefix(n, t[i..])
    {
      if i == 0 {
        assert t[0..] == t;
        assert t[..|n|][20] == t[20];
      } else if i == 1 {
        assert t[1..][..|n|][1] == t[2];
      } else if i <= 6 {
        assert t[i..][0] == t[i];
      }
    }
  }

  const CollisionLead: string := "__HANGEULMD_ESC_PAGE"
  const CollisionTail: string := "HANGEULMD_ESC_PAGE__"

  /** Passes 1-2 on the collision template: its escape becomes ESC_PAGE. */
  lemma CollisionEscapes(t: string)
    requires t == CollisionLead + EscapedPage
    ensures ReplaceAllLiteral(ReplaceAllLiteral(t, EscapedPages, EscPagesSentinel), EscapedPage, EscPageSentinel)
         == CollisionLead + EscPageSentinel
  {
    var ps := [Lit(CollisionLead), EscPage];
    CollisionSpelled(ps);
    CollisionPass1(ps);
    CollisionPass2(ps);
  }

  /** The collision template as pieces: literal text, then an escaped `{page}`. */
  lemma CollisionSpelled(ps: seq<Piece>)
    requires ps == [Lit(CollisionLead), EscPage]
    ensures Render(ps) == CollisionLead + EscapedPage
    ensures forall i :: 0 <= i < |CollisionLead| ==> CollisionLead[i] != '\\' && CollisionLead[i] != '{'
  {
    var lead := CollisionLead;
    assert forall i :: 0 <= i < |lead| ==> lead[i] != '\\' && lead[i] != '{';
    assert ps[1..] == [EscPage] && ps[2..] == [];
    assert Render(ps[1..]) == EscapedPage;
  }

  /** Pass 1 finds no ESC_PAGES form in the collision template. */
  lemma CollisionPass1(ps: seq<Piece>)
    requires ps == [Lit(CollisionLead), EscPage]
    requires forall i :: 0 <= i < |CollisionLead| ==> CollisionLead[i] != '\\' && CollisionLead[i] != '{'
    ensures ReplaceAllLiteral(Render(ps), EscapedPages, EscPagesSentinel) == Render(ps)
  {
    LitInert(CollisionLead, EscapedPages, EscapedPage, {'\\', '{'});
    GuardEscapedPageEscapedPages();
    GuardedIsInert(EscapedPage, "", EscapedPages);
    assert ps[1..] == [EscPage] && ps[2..] == [];
    ScanPieces(ps, EscPages, SentPages);
    assert Swap(ps, EscPages, SentPages) == ps;
  }

  /** Pass 2 turns the collision template's escape into ESC_PAGE. */
  lemma CollisionPass2(ps: seq<Piece>)
    requires ps == [Lit(CollisionLead), EscPage]
    requires forall i :: 0 <= i < |CollisionLead| ==> CollisionLead[i] != '\\' && CollisionLead[i] != '{'
    ensures ReplaceAllLiteral(Render(ps), EscapedPage, EscPageSentinel) == CollisionLead + EscPageSentinel
  {
    assert ps[1..] == [EscPage] && ps[2..] == [];
    LitInert(CollisionLead, EscapedPage, EscapedPage, {'\\', '{'});
    ScanPieces(ps, EscPage, SentPage);
    var qs := Swap(ps, EscPage, SentPage);
    assert qs == [Lit(CollisionLead), SentPage];
    assert qs[1..] == [SentPage] && qs[2..] == [];
    assert Render(qs[1..]) == EscPageSentinel;
  }

  /** Passes 3-4 on the collision template: there is no `{` left to replace. */
  lemma CollisionNoTokens(s2: string, pageNum: int, totalPages: int)
    requires s2 == CollisionLead + EscPageSentinel
    ensures ReplaceAllLiteral(ReplaceAllLiteral(s2, PagesToken, Decimal(totalPages)), PageToken, Decimal(pageNum)) == s2
  {
    assert forall i :: 0 <= i < |s2| ==> s2[i] != '{';
    MissingCharNoOccurrence(s2, PagesToken, 0);
    MissingCharNoOccurrence(s2, PageToken, 0);
  }

  /** Neither sentinel starts inside the collision tail, which is shorter than both. */
  lemma CollisionTailInert(n: string)
    requires n == EscPageSentinel || n == EscPagesSentinel
    ensures Inert(CollisionTail, n, "")
  {
    ShortNoOccurrence(CollisionTail, n, "", 0);
  }

  /** ESC_PAGES does not start inside the ESC_PAGE that precedes the tail. */
  lemma CollisionSentinelInert()
    ensures Inert(EscPageSentinel, EscPagesSentinel, CollisionTail)
  {
    var tail := CollisionTail;
    forall i | 0 <= i < 20
      ensures !IsPrefix(EscPagesSentinel, (EscPageSentinel + tail)[i..])
    {
      SentinelPrefixClash(i);
      ClashBlocks(EscPageSentinel[i..], tail, EscPagesSentinel);
      assert (EscPageSentinel + tail)[i..] == EscPageSentinel[i..] + tail;
    }
    ShortNoOccurrence(EscPageSentinel, EscPagesSentinel, tail, 20);
  }

  /** The collision text, read as pieces, before and after the two restoring passes. */
  lemma CollisionPieces(qs: seq<Piece>, rs: seq<Piece>)
    requires qs == [SentPage, Lit(CollisionTail)]
    requires rs == [Lit(PageToken), Lit(CollisionTail)]
    ensures Render(qs) == CollisionLead + EscPageSentinel
    ensures Render(rs) == PageToken + CollisionTail
    ensures Swap(qs, SentPages, Lit(PagesToken)) == qs
    ensures Swap(qs, SentPage, Lit(PageToken)) == rs
  {
    assert qs[1..] == [Lit(CollisionTail)] && qs[2..] == [];
    assert rs[1..] == [Lit(CollisionTail)] && rs[2..] == [];
    assert Render(qs[1..]) == CollisionTail;
    assert Render(rs[1..]) == CollisionTail;
    assert EscPageSentinel + CollisionTail == CollisionLead + EscPageSentinel;
  }

  /** Passes 5-6 on the collision template: ESC_PAGE is found at the front, not where the escape was. */
  lemma CollisionRestores(s2: string, qs: seq<Piece>, rs: seq<Piece>)
    requires s2 == CollisionLead + EscPageSentinel
    requires qs == [SentPage, Lit(CollisionTail)]
    requires rs == [Lit(PageToken), Lit(CollisionTail)]
    ensures ReplaceAllLiteral(ReplaceAllLiteral(s2, EscPagesSentinel, PagesToken), EscPageSentinel, PageToken)
         == PageToken + CollisionTail
  {
    CollisionPieces(qs, rs);
    assert qs[1..] == [Lit(CollisionTail)] && qs[2..] == [];
    assert Show(qs[0]) == EscPageSentinel && Show(qs[1]) == CollisionTail;
    assert Render(qs[1..]) == CollisionTail && Render(qs[2..]) == "";
    assert Show(SentPages) == EscPagesSentinel && Show(SentPage) == EscPageSentinel;
    CollisionSentinelInert();
    CollisionTailInert(EscPagesSentinel);
    CollisionTailInert(EscPageSentinel);
    ScanPieces(qs, SentPages, Lit(PagesToken));
    ScanPieces(qs, SentPage, Lit(PageToken));
  }

  /**
   * The sentinels can be completed from literal text: this template contains neither
   * sentinel, yet its escape does not come back where it was written, because the text
   * before it ends with ESC_PAGE minus its trailing `__` (printUtils.ts:10-11, 26-35).
   */
  lemma SentinelCollision(t: string, pageNum: int, totalPages: int)
    requires t == CollisionLead + EscapedPage
    ensures !Contains(t, EscPageSentinel) && !Contains(t, EscPagesSentinel)
    ensures SubstituteTokens(Some(t), pageNum, totalPages) == PageToken + CollisionTail
  {
    StemNotSentinel(t, EscPageSentinel);
    StemNotSentinel(t, EscPagesSentinel);
    CollisionOutput(t, pageNum, totalPages);
  }

  /** The six passes on the collision template, stage by stage. */
  lemma CollisionOutput(t: string, pageNum: int, totalPages: int)
    requires t == CollisionLead + EscapedPage
    ensures SubstituteTokens(Some(t), pageNum, totalPages) == PageToken + CollisionTail
  {
    var s2 := ReplaceAllLiteral(ReplaceAllLiteral(t, EscapedPages, EscPagesSentinel), EscapedPage, EscPageSentinel);
    CollisionEscapes(t);
    var s4 := ReplaceAllLiteral(ReplaceAllLiteral(s2, PagesToken, Decimal(totalPages)), PageToken, Decimal(pageNum));
    CollisionNoTokens(s2, pageNum, totalPages);
    CollisionRestores(s4, [SentPage, Lit(CollisionTail)], [Lit(PageToken), Lit(CollisionTail)]);
  }
}

/**
 * Splitting the editor's HTML into printed pages at page breaks
 * (`splitAtPageBreaks`, printUtils.ts:58-104).
 *
 * The editor HTML is modelled as the sequence of its top-level nodes: a
 * page break (`<hr class="page-break-node">`) or any other node, kept as
 * its serialised markup. A segment is the run of nodes between two
 * consecutive breaks; the breaks themselves belong to no segment.
 */
module Pagination {
  import opened Text

  datatype Block = Break | Node(html: string)

  /** The markup the editor gives a page break (HorizontalRuleExtension.ts:20-27). */
  const BreakMarkup: string := "<hr class=\"page-break-node\">"

  function Markup(b: Block): string
  {
    match b
    case Break => BreakMarkup
    case Node(h) => h
  }

  /** `innerHTML` of a run of nodes: their markup, one after the other. */
  function Serialize(bs: seq<Block>): string
  {
    if |bs| == 0 then "" else Markup(bs[0]) + Serialize(bs[1..])
  }

  predicate BreakFree(bs: seq<Block>)
  {
    forall i :: 0 <= i < |bs| ==> bs[i] != Break
  }

  function BreakCount(bs: seq<Block>): nat
  {
    if |bs| == 0 then 0 else (if bs[0] == Break then 1 else 0) + BreakCount(bs[1..])
  }

  /** Puts segments back together with one break between neighbours. */
  function Glue(segs: seq<seq<Block>>): seq<Block>
  {
    if |segs| == 0 then []
    else if |segs| == 1 then segs[0]
    else segs[0] + [Break] + Glue(segs[1..])
  }

  predicate AllBreakFree(segs: seq<seq<Block>>)
  {
    forall k :: 0 <= k < |segs| ==> BreakFree(segs[k])
  }

  /** Reference definition: read the nodes front to back, opening a new segment at each break. */
  function Segments(doc: seq<Block>): (segs: seq<seq<Block>>)
    ensures |segs| >= 1
  {
    if |doc| == 0 then [[]]
    else
      var rest := Segments(doc[1..]);
      if doc[0] == Break then [[]] + rest
      else [[doc[0]] + rest[0]] + rest[1..]
  }

  /** The reference segments are break-free, one more than the breaks, and glue back to the document. */
  lemma {:induction false} SegmentsSound(doc: seq<Block>)
    ensures AllBreakFree(Segments(doc))
    ensures |Segments(doc)| == BreakCount(doc) + 1
    ensures Glue(Segments(doc)) == doc
  {
    if |doc| > 0 {
      var rest := Segments(doc[1..]);
      SegmentsSound(doc[1..]);
      assert doc == [doc[0]] + doc[1..];
      if doc[0] == Break {
        OpenSegment(rest);
      } else {
        ExtendSegment(doc[0], rest);
      }
    }
  }

  /** A break in front of the document opens an empty first segment. */
  lemma OpenSegment(rest: seq<seq<Block>>)
    requires |rest| >= 1 && AllBreakFree(rest)
    ensures var segs := [[]] + rest;
      AllBreakFree(segs) && Glue(segs) == [Break] + Glue(rest)
  {
    var segs := [[]] + rest;
    assert segs[1..] == rest;
    assert forall k :: 1 <= k < |segs| ==> segs[k] == rest[k - 1];
  }

  /** Any other node in front of the document joins its first segment. */
  lemma ExtendSegment(b: Block, rest: seq<seq<Block>>)
    requires b != Break && |rest| >= 1 && AllBreakFree(rest)
    ensures var segs := [[b] + rest[0]] + rest[1..];
      AllBreakFree(segs) && Glue(segs) == [b] + Glue(rest)
  {
    ExtendGlue(b, rest);
    ExtendBreakFree(b, rest);
  }

  /** Gluing after a node joins the first segment is that node in front of the glued rest. */
  lemma ExtendGlue(b: Block, rest: seq<seq<Block>>)
    requires |rest| >= 1
    ensures Glue([[b] + rest[0]] + rest[1..]) == [b] + Glue(rest)
  {
    var first, tail := rest[0], rest[1..];
    assert rest == [first] + tail;
    if |tail| == 0 {
      assert [[b] + first] + tail == [[b] + first];
    } else {
      ExtendGlueLong(b, first, tail);
    }
  }

  /** `ExtendGlue` when the first segment has others after it. */
  lemma ExtendGlueLong(b: Block, first: seq<Block>, tail: seq<seq<Block>>)
    requires |tail| >= 1
    ensures Glue([[b] + first] + tail) == [b] + Glue([first] + tail)
  {
    var g := Glue(tail);
    calc {
      Glue([[b] + first] + tail);
    == { GlueCons([b] + first, tail); }
      [b] + first + [Break] + g;
    ==
      [b] + (first + [Break] + g);
    == { GlueCons(first, tail); }
      [b] + Glue([first] + tail);
    }
  }

  /** Gluing a first segment in front of at least one more puts a break between them. */
  lemma GlueCons(head: seq<Block>, tail: seq<seq<Block>>)
    requires |tail| >= 1
    ensures Glue([head] + tail) == head + [Break] + Glue(tail)
  {
    assert ([head] + tail)[1..] == tail;
  }

  /** A node other than a break keeps the segments break-free when it joins the first one. */
  lemma ExtendBreakFree(b: Block, rest: seq<seq<Block>>)
    requires b != Break && |rest| >= 1 && AllBreakFree(rest)
    ensures AllBreakFree([[b] + rest[0]] + rest[1..])
  {
    var head := [b] + rest[0];
    var segs := [head] + rest[1..];
    assert BreakFree(head) by {
      forall i | 0 <= i < |head| ensures head[i] != Break {
        if i > 0 { assert head[i] == rest[0][i - 1]; }
      }
    }
    forall k | 0 <= k < |segs|
      ensures BreakFree(segs[k])
    {
      if k > 0 { assert segs[k] == rest[k]; }
    }
  }

  /** A glued sequence made of break-free segments has a break right after its first segment. */
  lemma FirstSegmentLength(a: seq<seq<Block>>, b: seq<seq<Block>>)
    requires |a| >= 2 && |b| >= 1 && AllBreakFree(a) && AllBreakFree(b)
    requires Glue(a) == Glue(b)
    ensures |b| >= 2 && |a[0]| == |b[0]|
  {
    var g := Glue(a);
    assert g == a[0] + [Break] + Glue(a[1..]);
    assert g[|a[0]|] == Break;
    if |b| == 1 {
      assert false;
    } else {
      assert g == b[0] + [Break] + Glue(b[1..]);
      assert g[|b[0]|] == Break;
      if |b[0]| < |a[0]| {
        assert false;
      } else if |a[0]| < |b[0]| {
        assert false;
      }
    }
  }

  /** Gluing is injective on break-free segments: the segmentation of a document is unique. */
  lemma {:induction false} GlueUnique(a: seq<seq<Block>>, b: seq<seq<Block>>)
    requires |a| >= 1 && |b| >= 1 && AllBreakFree(a) && AllBreakFree(b)
    requires Glue(a) == Glue(b)
    ensures a == b
    decreases |a|
  {
    if |a| == 1 && |b| == 1 {
    } else if |a| == 1 {
      FirstSegmentLength(b, a);
    } else {
      FirstSegmentLength(a, b);
      var g := Glue(a);
      assert g == a[0] + [Break] + Glue(a[1..]);
      assert g == b[0] + [Break] + Glue(b[1..]);
      assert a[0] == g[..|a[0]|] == b[0];
      assert Glue(a[1..]) == g[|a[0]| + 1..] == Glue(b[1..]);
      assert AllBreakFree(a[1..]) by {
        forall k | 0 <= k < |a| - 1 ensures BreakFree(a[1..][k]) { assert a[1..][k] == a[k + 1]; }
      }
      assert AllBreakFree(b[1..]) by {
        forall k | 0 <= k < |b| - 1 ensures BreakFree(b[1..][k]) { assert b[1..][k] == b[k + 1]; }
      }
      GlueUnique(a[1..], b[1..]);
      assert a == [a[0]] + a[1..] && b == [b[0]] + b[1..];
    }
  }

  /** Any break-free segmentation that glues back to the document is the reference one. */
  lemma SegmentationIsSegments(doc: seq<Block>, segs: seq<seq<Block>>)
    requires |segs| >= 1 && AllBreakFree(segs) && Glue(segs) == doc
    ensures segs == Segments(doc)
  {
    SegmentsSound(doc);
    GlueUnique(segs, Segments(doc));
  }

  lemma {:induction false} GlueSnoc(segs: seq<seq<Block>>, t: seq<Block>)
    requires |segs| >= 1
    ensures Glue(segs + [t]) == Glue(segs) + [Break] + t
    decreases |segs|
  {
    if |segs| == 1 {
      assert (segs + [t])[1..] == [t];
    } else {
      assert (segs + [t])[1..] == segs[1..] + [t];
      GlueSnoc(segs[1..], t);
    }
  }

  lemma {:induction false} GlueAppend(x: seq<seq<Block>>, y: seq<seq<Block>>)
    requires |x| >= 1 && |y| >= 1
    ensures Glue(x + y) == Glue(x) + [Break] + Glue(y)
    decreases |x|
  {
    if |x| == 1 {
      assert (x + y)[1..] == y;
    } else {
      assert (x + y)[1..] == x[1..] + y;
      GlueAppend(x[1..], y);
    }
  }

  /**
   * Cutting at a break splits the segments there: the segments of `a`, then those
   * of `b`. A leading, trailing or doubled break therefore yields an empty segment.
   */
  lemma SegmentsAtBreak(a: seq<Block>, b: seq<Block>)
    ensures Segments(a + [Break] + b) == Segments(a) + Segments(b)
  {
    SegmentsSound(a);
    SegmentsSound(b);
    var segs := Segments(a) + Segments(b);
    GlueAppend(Segments(a), Segments(b));
    assert AllBreakFree(segs) by {
      forall k | 0 <= k < |segs| ensures BreakFree(segs[k]) {
        if k >= |Segments(a)| { assert segs[k] == Segments(b)[k - |Segments(a)|]; }
      }
    }
    SegmentationIsSegments(a + [Break] + b, segs);
  }

  /** The empty document is one empty page, and a break at either end or twice in a row adds an empty page. */
  lemma EmptySegments(a: seq<Block>, b: seq<Block>)
    ensures Pages([]) == [""]
    ensures Segments([Break] + b) == [[]] + Segments(b)
    ensures Segments(a + [Break]) == Segments(a) + [[]]
    ensures Segments(a + [Break, Break] + b) == Segments(a) + [[]] + Segments(b)
  {
    EmptyDocument();
    LeadingBreak(b);
    TrailingBreak(a);
    DoubleBreak(a, b);
  }

  /** Two breaks in a row enclose an empty segment. */
  lemma DoubleBreak(a: seq<Block>, b: seq<Block>)
    ensures Segments(a + [Break, Break] + b) == Segments(a) + [[]] + Segments(b)
  {
    calc {
      Segments(a + [Break, Break] + b);
    == { assert a + [Break, Break] + b == a + [Break] + ([Break] + b); }
      Segments(a + [Break] + ([Break] + b));
    == { SegmentsAtBreak(a, [Break] + b); }
      Segments(a) + Segments([Break] + b);
    == { LeadingBreak(b); }
      Segments(a) + ([[]] + Segments(b));
    }
  }

  /** The empty document prints as one empty page. */
  lemma EmptyDocument()
    ensures Pages([]) == [""]
  {
    var segs := Segments([]);
    assert segs == [[]];
    assert Serialize(segs[0]) == "";
  }

  /** A break at the start opens an empty first segment. */
  lemma LeadingBreak(b: seq<Block>)
    ensures Segments([Break] + b) == [[]] + Segments(b)
  {
    SegmentsAtBreak([], b);
    assert [] + [Break] + b == [Break] + b;
  }

  /** A break at the end closes with an empty last segment. */
  lemma TrailingBreak(a: seq<Block>)
    ensures Segments(a + [Break]) == Segments(a) + [[]]
  {
    SegmentsAtBreak(a, []);
    assert a + [Break] + [] == a + [Break];
  }

  /**
   * `querySelectorAll('.page-break-node')` on the top-level nodes: the break
   * positions in document order, each a break, and every break listed.
   */
  function BreakPositions(doc: seq<Block>): (ps: seq<nat>)
    ensures forall k :: 0 <= k < |ps| ==> ps[k] < |doc| && doc[ps[k]] == Break
    ensures forall k, l :: 0 <= k < l < |ps| ==> ps[k] < ps[l]
    ensures forall j :: 0 <= j < |doc| && doc[j] == Break ==> j in ps
  {
    if |doc| == 0 then []
    else
      var ps := BreakPositions(doc[..|doc| - 1]);
      assert forall j :: 0 <= j < |doc| - 1 ==> doc[..|doc| - 1][j] == doc[j];
      if doc[|doc| - 1] == Break then ps + [|doc| - 1] else ps
  }

  /** No break lies strictly between two consecutive break positions, nor before the first or after the last. */
  lemma NoBreakBetween(doc: seq<Block>, ps: seq<nat>, lo: int, hi: int, k: int)
    requires ps == BreakPositions(doc)
    requires -1 <= k < |ps|
    requires lo == (if k < 0 then -1 else ps[k])
    requires hi == (if k + 1 < |ps| then ps[k + 1] else |doc|)
    ensures lo < hi <= |doc|
    ensures forall j :: lo < j < hi ==> doc[j] != Break
  {
    if k + 1 < |ps| && k >= 0 { assert ps[k] < ps[k + 1]; }
    forall m | 0 <= m < |ps|
      ensures ps[m] <= lo || hi <= ps[m]
    {
      if m < k {
        assert ps[m] < ps[k];
      } else if m > k + 1 {
        assert ps[k + 1] < ps[m];
      }
    }
  }

  lemma SliceBreakFree(doc: seq<Block>, lo: int, hi: int)
    requires -1 <= lo < hi <= |doc|
    requires forall j :: lo < j < hi ==> doc[j] != Break
    ensures BreakFree(doc[lo + 1..hi])
  {
    var run := doc[lo + 1..hi];
    forall i | 0 <= i < |run|
      ensures run[i] != Break
    {
      assert run[i] == doc[lo + 1 + i];
    }
  }

  lemma GapsBreakFree(doc: seq<Block>, ps: seq<nat>, lo: int, hi: int, k: int)
    requires ps == BreakPositions(doc)
    requires -1 <= k < |ps|
    requires lo == (if k < 0 then -1 else ps[k])
    requires hi == (if k + 1 < |ps| then ps[k + 1] else |doc|)
    ensures lo < hi <= |doc| && BreakFree(doc[lo + 1..hi])
  {
    NoBreakBetween(doc, ps, lo, hi, k);
    SliceBreakFree(doc, lo, hi);
  }

  /** The pages as HTML, from the reference segmentation. */
  function Pages(doc: seq<Block>): (pages: seq<string>)
    ensures |pages| == |Segments(doc)| == BreakCount(doc) + 1
  {
    SegmentsSound(doc);
    var segs := Segments(doc);
    seq(|segs|, k requires 0 <= k < |segs| => Serialize(segs[k]))
  }

  lemma {:induction false} SerializeAppend(a: seq<Block>, b: seq<Block>)
    ensures Serialize(a + b) == Serialize(a) + Serialize(b)
    decreases |a|
  {
    if |a| > 0 {
      assert (a + b)[0] == a[0];
      assert (a + b)[1..] == a[1..] + b;
      SerializeAppend(a[1..], b);
    } else {
      assert a + b == b;
    }
  }

  /** Joining the serialised segments with the break markup gives back the serialised document. */
  lemma {:induction false} GlueSerializes(segs: seq<seq<Block>>)
    ensures Join(seq(|segs|, k requires 0 <= k < |segs| => Serialize(segs[k])), BreakMarkup) == Serialize(Glue(segs))
    decreases |segs|
  {
    var html := seq(|segs|, k requires 0 <= k < |segs| => Serialize(segs[k]));
    if |segs| >= 2 {
      var tail := seq(|segs| - 1, k requires 0 <= k < |segs| - 1 => Serialize(segs[1..][k]));
      assert html[1..] == tail;
      GlueSerializes(segs[1..]);
      SerializeAppend(segs[0] + [Break], Glue(segs[1..]));
      SerializeAppend(segs[0], [Break]);
      assert Serialize([Break]) == BreakMarkup;
    }
  }

  /** The printed pages, rejoined with the break markup, are the editor HTML again. */
  lemma PagesRejoin(doc: seq<Block>)
    ensures Join(Pages(doc), BreakMarkup) == Serialize(doc)
  {
    SegmentsSound(doc);
    GlueSerializes(Segments(doc));
  }

  /** One step of the source's middle loop: the run after break `i` extends the runs so far. */
  lemma ExtendRuns(doc: seq<Block>, breaks: seq<nat>, parts: seq<seq<Block>>, i: nat)
    requires breaks == BreakPositions(doc) && i + 1 < |breaks|
    requires |parts| == i + 1 && AllBreakFree(parts) && Glue(parts) == doc[..breaks[i]]
    ensures breaks[i] < breaks[i + 1]
    ensures var more := parts + [doc[breaks[i] + 1..breaks[i + 1]]];
      AllBreakFree(more) && Glue(more) == doc[..breaks[i + 1]]
  {
    var run := doc[breaks[i] + 1..breaks[i + 1]];
    GapsBreakFree(doc, breaks, breaks[i], breaks[i + 1], i);
    GlueSnoc(parts, run);
    CutPrefix(doc, breaks[i], breaks[i + 1]);
    SnocBreakFree(parts, run);
  }

  /** Up to a later position, the document is the part before a break, the break, and the run after it. */
  lemma CutPrefix(doc: seq<Block>, j: nat, h: nat)
    requires j < h <= |doc| && doc[j] == Break
    ensures doc[..h] == doc[..j] + [Break] + doc[j + 1..h]
  {
  }

  /** A break splits the document into the part before it, itself, and the part after it. */
  lemma CutAt(doc: seq<Block>, j: nat)
    requires j < |doc| && doc[j] == Break
    ensures doc == doc[..j] + [Break] + doc[j + 1..]
  {
  }

  /** Appending a break-free run keeps a segmentation break-free. */
  lemma SnocBreakFree(parts: seq<seq<Block>>, t: seq<Block>)
    requires AllBreakFree(parts) && BreakFree(t)
    ensures AllBreakFree(parts + [t])
  {
    var all := parts + [t];
    assert forall k :: 0 <= k < |parts| ==> all[k] == parts[k];
  }

  /** The source's last segment: the run after the final break closes the segmentation. */
  lemma FinishRuns(doc: seq<Block>, breaks: seq<nat>, parts: seq<seq<Block>>)
    requires breaks == BreakPositions(doc) && |breaks| > 0
    requires |parts| == |breaks| && AllBreakFree(parts) && Glue(parts) == doc[..breaks[|breaks| - 1]]
    ensures breaks[|breaks| - 1] < |doc|
    ensures parts + [doc[breaks[|breaks| - 1] + 1..]] == Segments(doc)
  {
    var i := |breaks| - 1;
    var last := doc[breaks[i] + 1..];
    GapsBreakFree(doc, breaks, breaks[i], |doc|, i);
    assert doc[breaks[i] + 1..|doc|] == last;
    GlueSnoc(parts, last);
    CutAt(doc, breaks[i]);
    SnocBreakFree(parts, last);
    SegmentationIsSegments(doc, parts + [last]);
  }

  /** Without a break, the whole document is the one segment. */
  lemma WholeDocument(doc: seq<Block>, breaks: seq<nat>)
    requires breaks == BreakPositions(doc) && |breaks| == 0
    ensures Segments(doc) == [doc]
  {
    GapsBreakFree(doc, breaks, -1, |doc|, -1);
    assert doc[0..|doc|] == doc;
    SegmentationIsSegments(doc, [doc]);
  }

  /** The source's first segment: the run before the first break. */
  lemma FirstRun(doc: seq<Block>, breaks: seq<nat>)
    requires breaks == BreakPositions(doc) && |breaks| > 0
    ensures breaks[0] <= |doc|
    ensures AllBreakFree([doc[..breaks[0]]]) && Glue([doc[..breaks[0]]]) == doc[..breaks[0]]
  {
    GapsBreakFree(doc, breaks, -1, breaks[0], -1);
    assert doc[0..breaks[0]] == doc[..breaks[0]];
  }

  /**
   * `splitAtPageBreaks`: with no break, the whole document; otherwise the run
   * before the first break, the runs between neighbouring breaks and the run
   * after the last break. The source's empty-list branch for an empty root with a
   * break is unreachable here, since a break is itself a top-level node.
   */
  method SplitAtPageBreaks(doc: seq<Block>) returns (segs: seq<string>)
    ensures |segs| == BreakCount(doc) + 1
    ensures segs == Pages(doc)
  {
    var breaks := BreakPositions(doc);
    var parts: seq<seq<Block>>;
    if |breaks| == 0 {
      WholeDocument(doc, breaks);
      parts := [doc];
    } else {
      FirstRun(doc, breaks);
      parts := [doc[..breaks[0]]];
      var i := 0;
      while i < |breaks| - 1
        invariant 0 <= i <= |breaks| - 1
        invariant |parts| == i + 1 && AllBreakFree(parts)
        invariant Glue(parts) == doc[..breaks[i]]
      {
        ExtendRuns(doc, breaks, parts, i);
        parts := parts + [doc[breaks[i] + 1..breaks[i + 1]]];
        i := i + 1;
      }
      FinishRuns(doc, breaks, parts);
      parts := parts + [doc[breaks[i] + 1..]];
    }
    segs := seq(|parts|, k requires 0 <= k < |parts| => Serialize(parts[k]));
    SerializedPages(doc, parts, segs);
  }

  /** Serialising the reference segments one by one gives the pages. */
  lemma SerializedPages(doc: seq<Block>, parts: seq<seq<Block>>, segs: seq<string>)
    requires parts == Segments(doc)
    requires segs == seq(|parts|, k requires 0 <= k < |parts| => Serialize(parts[k]))
    ensures |segs| == BreakCount(doc) + 1 && segs == Pages(doc)
  {
    SegmentsSound(doc);
  }
}

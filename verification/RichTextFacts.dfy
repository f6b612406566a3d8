/** What the V2 rich text promises about the V1 document it came from. */
module RichTextFacts {
  import opened Basics
  import opened V1RichText
  import opened RichText

  // ---------------------------------------------------------------- where marks come from

  /** Where piece k starts in the document. */
  function Position(ps: seq<Piece>, k: nat): nat
    requires k <= |ps|
  {
    |Render(ps[..k]).text|
  }

  /** m is the mark that one of the span's images puts on the span's whole text at `start`. */
  ghost predicate MarksSpan(span: Span, start: int, m: Mark) {
    && span.text != ""
    && m.start == start && m.end == start + |span.text|
    && Image(m.kind, m.href) in Images(span.marks)
  }

  /** Mark m comes from piece k. */
  ghost predicate Origin(ps: seq<Piece>, k: nat, m: Mark)
    requires k < |ps|
  {
    ps[k].Body? && MarksSpan(ps[k].span, Position(ps, k), m)
  }

  lemma {:induction false} PlaceMembers(images: seq<Image>, start: int, end: int, m: Mark)
    ensures m in Place(images, start, end) <==>
      m.start == start && m.end == end && Image(m.kind, m.href) in images
    decreases |images|
  {
    if images != [] {
      var init, last := images[..|images| - 1], images[|images| - 1];
      PlaceMembers(init, start, end, m);
      assert images == init + [last];
    }
  }

  lemma ChunkMarks(p: Piece, delta: int, m: Mark)
    ensures m in Shift(Chunk(p).marks, delta) <==> p.Body? && MarksSpan(p.span, delta, m)
  {
    if p.Body? {
      SpanMarksShift(p.span, delta);
      PlaceMembers(Images(p.span.marks), delta, delta + |p.span.text|, m);
    }
  }

  lemma RenderSnoc(ps: seq<Piece>, p: Piece)
    ensures Render(ps + [p]) == Append(Render(ps), Chunk(p))
  {
    RenderAppend(ps, [p]);
    RenderOne(p);
  }

  lemma PositionOfFront(ps: seq<Piece>, p: Piece, k: nat)
    requires k <= |ps|
    ensures Position(ps + [p], k) == Position(ps, k)
  {
    assert (ps + [p])[..k] == ps[..k];
  }

  /** The marks of the rendered pieces are exactly those with an origin. */
  lemma {:induction false} MarksHaveOrigins(ps: seq<Piece>, m: Mark)
    ensures m in Render(ps).marks <==> exists k :: 0 <= k < |ps| && Origin(ps, k, m)
    decreases |ps|
  {
    if ps != [] {
      var front, last := Unsnoc(ps);
      MarksHaveOrigins(front, m);
      RenderSnoc(front, last);
      ChunkMarks(last, |Render(front).text|, m);
      assert ps[..|front|] == front;
      assert Position(ps, |front|) == |Render(front).text|;
      assert ps[|front|] == last;
      assert m in Render(ps).marks <==> m in Render(front).marks || Origin(ps, |front|, m);
      forall k | 0 <= k < |front| ensures Origin(ps, k, m) <==> Origin(front, k, m) {
        PositionOfFront(front, last, k);
        assert ps[k] == front[k];
      }
      if k :| 0 <= k < |front| && Origin(front, k, m) {
        assert Origin(ps, k, m);
      }
    }
  }

  /** Piece k stands in the text at its position. */
  lemma PieceInText(ps: seq<Piece>, k: nat)
    requires k < |ps|
    ensures var n, t := Position(ps, k), Chunk(ps[k]).text;
      n + |t| <= |Render(ps).text| && Render(ps).text[n..n + |t|] == t
  {
    var before, rest := ps[..k], ps[k + 1..];
    assert ps == (before + [ps[k]]) + rest;
    RenderAppend(before + [ps[k]], rest);
    RenderSnoc(before, ps[k]);
    var a, b, c := Render(before).text, Chunk(ps[k]).text, Render(rest).text;
    assert Render(ps).text == (a + b) + c;
  }

  // ---------------------------------------------------------------- one span's images

  predicate IsLinkImage(i: Image) { i.kind == Link }

  /** The image of a mark on its own. */
  function FullImage(m: SourceMark): Image
    requires !m.Unmapped? && (m.Linked? ==> m.href.Some?)
  {
    match m
    case Bold => Image(Strong, None)
    case Italic => Image(Emphasis, None)
    case Linked(href) => Image(Link, href)
  }

  lemma {:induction false} AtMostOneLink(marks: seq<SourceMark>)
    ensures forall i, j | 0 <= i < j < |Images(marks)| ::
      !(IsLinkImage(Images(marks)[i]) && IsLinkImage(Images(marks)[j]))
    ensures (exists i | 0 <= i < |Images(marks)| :: IsLinkImage(Images(marks)[i])) ==> HasLink(marks)
    decreases |marks|
  {
    if marks != [] {
      var init, last := marks[..|marks| - 1], marks[|marks| - 1];
      AtMostOneLink(init);
      assert HasLink(init) ==> HasLink(marks) by {
        if i :| 0 <= i < |init| && KeepsLink(init[i]) {
          assert KeepsLink(marks[i]);
        }
      }
      assert KeepsLink(last) ==> HasLink(marks);
    }
  }

  /** The source mark has this image of its own. */
  predicate HasImage(m: SourceMark, image: Image) {
    !m.Unmapped? && (m.Linked? ==> m.href.Some?) && FullImage(m) == image
  }

  /** Every image is the image of one of the span's marks. */
  lemma {:induction false} ImagesComeFromMarks(marks: seq<SourceMark>, image: Image)
    requires image in Images(marks)
    ensures exists i :: 0 <= i < |marks| && HasImage(marks[i], image)
    decreases |marks|
  {
    var init, last := marks[..|marks| - 1], marks[|marks| - 1];
    if image in Images(init) {
      ImagesComeFromMarks(init, image);
      var i :| 0 <= i < |init| && HasImage(init[i], image);
      assert HasImage(marks[i], image);
    } else {
      assert HasImage(marks[|marks| - 1], image);
    }
  }

  /** When nothing is lossy, every mark of the span has its image. */
  lemma {:induction false} LosslessImages(marks: seq<SourceMark>, i: nat)
    requires !MarksLossy(marks) && i < |marks|
    ensures !marks[i].Unmapped? && (marks[i].Linked? ==> marks[i].href.Some?)
    ensures FullImage(marks[i]) in Images(marks)
    decreases |marks|
  {
    var init, last := marks[..|marks| - 1], marks[|marks| - 1];
    assert !(marks[i].Unmapped? || (marks[i].Linked? && (marks[i].href.None? || HasLink(marks[..i]))));
    if i < |init| {
      forall k | 0 <= k < |init|
        ensures !(init[k].Unmapped? || (init[k].Linked? && (init[k].href.None? || HasLink(init[..k]))))
      {
        assert init[k] == marks[k] && init[..k] == marks[..k];
      }
      LosslessImages(init, i);
      assert init[i] == marks[i];
    } else {
      assert marks[..i] == init;
    }
  }

  // ---------------------------------------------------------------- what each stage keeps, in order

  /** `out` is made, in order, of the members of `from` at the positions `at`, each in relation to its origin. */
  ghost predicate Picks<T, U>(from: seq<T>, at: seq<nat>, out: seq<U>, rel: (T, U) -> bool) {
    && |at| == |out|
    && (forall i | 0 <= i < |at| :: at[i] < |from| && rel(from[at[i]], out[i]))
    && (forall i, j | 0 <= i < j < |at| :: at[i] < at[j])
  }

  lemma PicksSnoc<T, U>(from: seq<T>, last: T, at: seq<nat>, out: seq<U>, rel: (T, U) -> bool)
    requires Picks(from, at, out, rel)
    ensures Picks(from + [last], at, out, rel) && |from| !in at
    ensures forall u | rel(last, u) :: Picks(from + [last], at + [|from|], out + [u], rel)
    ensures forall k :: k in at + [|from|] <==> k in at || k == |from|
  {
    var all := from + [last];
    assert forall i | 0 <= i < |at| :: all[at[i]] == from[at[i]];
  }

  /** Mark k is bold, italic, or the first link of the span that has a URL. */
  predicate IsKept(marks: seq<SourceMark>, k: nat)
    requires k < |marks|
  {
    || marks[k] == Bold
    || marks[k] == Italic
    || (&& marks[k].Linked? && marks[k].href.Some?
        && forall i | 0 <= i < k :: !(marks[i].Linked? && marks[i].href.Some?))
  }

  /** Bold becomes strong, italic emphasis, a link a link to the same URL. */
  predicate Becomes(m: SourceMark, image: Image) {
    && (m == Bold ==> image == Image(Strong, None))
    && (m == Italic ==> image == Image(Emphasis, None))
    && (m.Linked? ==> image == Image(Link, m.href))
  }

  lemma ImagesGrow(front: seq<SourceMark>, last: SourceMark)
    ensures forall k | 0 <= k < |front| :: IsKept(front + [last], k) <==> IsKept(front, k)
    ensures !IsKept(front + [last], |front|) ==> Images(front + [last]) == Images(front)
    ensures IsKept(front + [last], |front|) ==>
      exists image :: Images(front + [last]) == Images(front) + [image] && Becomes(last, image)
  {
    var all := front + [last];
    FrontOfSnoc(front, last);
    assert forall k | 0 <= k < |front| :: all[k] == front[k];
    assert HasLink(front) <==> exists i :: 0 <= i < |front| && KeepsLink(front[i]);
    if IsKept(all, |front|) {
      var image := if last.Bold? then Image(Strong, None) else if last.Italic? then Image(Emphasis, None)
                   else Image(Link, last.href);
      assert Images(all) == Images(front) + [image] && Becomes(last, image);
    }
  }

  /** The images of a span stand in the order of its marks: the first link with a URL, every bold and every
      italic mark has one, and no other mark. */
  lemma {:induction false} ImagesKeepOrder(marks: seq<SourceMark>) returns (at: seq<nat>)
    ensures Picks(marks, at, Images(marks), Becomes)
    ensures forall k | 0 <= k < |marks| :: k in at <==> IsKept(marks, k)
    decreases |marks|
  {
    hide IsKept, Images, Becomes, Picks;
    at := [];
    if marks == [] {
      NoImages();
    } else {
      var front, last := Unsnoc(marks);
      at := ImagesKeepOrder(front);
      PicksSnoc(front, last, at, Images(front), Becomes);
      ImagesGrow(front, last);
      if IsKept(marks, |front|) {
        at := at + [|front|];
      }
    }
  }

  lemma NoImages()
    ensures Picks([], [], Images([]), Becomes)
  {
  }

  /** A span is lossy exactly if some mark of it has no image. */
  lemma {:induction false} LossyIffDropped(marks: seq<SourceMark>)
    ensures |Images(marks)| <= |marks|
    ensures MarksLossy(marks) <==> |Images(marks)| < |marks|
    decreases |marks|
  {
    if marks != [] {
      var n := |marks| - 1;
      var init := marks[..n];
      LossyIffDropped(init);
      assert forall k | 0 <= k < n :: marks[k] == init[k] && marks[..k] == init[..k];
      assert marks[..n] == init;
    }
  }

  predicate IsCut(m: Mark, cut: Mark) {
    cut == m.(end := if m.end < 20_000 then m.end else 20_000)
  }

  lemma CutSnoc(front: seq<Mark>, last: Mark)
    ensures last.start >= 20_000 ==> CutMarks(front + [last]) == CutMarks(front)
    ensures last.start < 20_000 ==>
      exists cut :: CutMarks(front + [last]) == CutMarks(front) + [cut] && IsCut(last, cut)
  {
    FrontOfSnoc(front, last);
    var cut := last.(end := if last.end < 20_000 then last.end else 20_000);
    assert IsCut(last, cut);
  }

  /** The cut keeps the marks that start before it, in order, and ends them at the cut. */
  lemma {:induction false} CutKeepsOrder(marks: seq<Mark>) returns (at: seq<nat>)
    ensures Picks(marks, at, CutMarks(marks), IsCut)
    ensures forall k | 0 <= k < |marks| :: k in at <==> marks[k].start < 20_000
    decreases |marks|
  {
    hide CutMarks, IsCut, Picks;
    at := [];
    if marks == [] {
      NoCutMarks();
    } else {
      var front, last := Unsnoc(marks);
      at := CutKeepsOrder(front);
      PicksSnoc(front, last, at, CutMarks(front), IsCut);
      CutSnoc(front, last);
      if last.start < 20_000 {
        at := at + [|front|];
      }
    }
  }

  lemma NoCutMarks()
    ensures Picks([], [], CutMarks([]), IsCut)
  {
  }

  /** The mark is not empty, and new. */
  predicate IsNew(marks: seq<Mark>, k: nat)
    requires k < |marks|
  {
    marks[k].start < marks[k].end && forall i | 0 <= i < k :: marks[i] != marks[k]
  }

  lemma DedupSnoc(front: seq<Mark>, last: Mark)
    ensures IsNew(front + [last], |front|) <==> last !in front && last.start < last.end
    ensures forall k | 0 <= k < |front| :: IsNew(front + [last], k) <==> IsNew(front, k)
    ensures Dedup(front + [last]) == if IsNew(front + [last], |front|) then Dedup(front) + [last] else Dedup(front)
  {
    DedupMembers(front, last);
    FrontOfSnoc(front, last);
    var all := front + [last];
    assert forall k | 0 <= k < |front| :: all[k] == front[k];
    if last.start < last.end && last !in front {
      assert IsNew(all, |front|);
    }
    if last in front {
      var i :| 0 <= i < |front| && front[i] == last;
      assert all[i] == all[|front|];
    }
  }

  /** Of equal marks the first is kept, in order, unless they are empty. */
  lemma {:induction false} DedupKeepsFirst(marks: seq<Mark>) returns (at: seq<nat>)
    ensures Picks(marks, at, Dedup(marks), IsSame)
    ensures forall k | 0 <= k < |marks| :: k in at <==> IsNew(marks, k)
    decreases |marks|
  {
    hide IsNew, Dedup, Picks;
    at := [];
    if marks == [] {
      NoMarksLeft();
    } else {
      var front, last := Unsnoc(marks);
      at := DedupKeepsFirst(front);
      PicksSnoc(front, last, at, Dedup(front), IsSame);
      DedupSnoc(front, last);
      if IsNew(marks, |front|) {
        at := at + [|front|];
      }
    }
  }

  predicate IsSame(m: Mark, out: Mark) { out == m }

  lemma NoMarksLeft()
    ensures Picks([], [], Dedup([]), IsSame)
  {
  }

  // ---------------------------------------------------------------- shape of the marks

  /** Marks in a text of the given length: proper ranges, ordered by start, links apart. */
  ghost predicate WellPlaced(marks: seq<Mark>, length: int) {
    && (forall i | 0 <= i < |marks| :: 0 <= marks[i].start < marks[i].end <= length)
    && (forall i, j | 0 <= i < j < |marks| :: Before(marks[i], marks[j]))
  }

  predicate Before(a: Mark, b: Mark) {
    a.start <= b.start && (a.kind == Link && b.kind == Link ==> a.end <= b.start)
  }

  lemma {:induction false} ShiftAt(marks: seq<Mark>, delta: int)
    ensures |Shift(marks, delta)| == |marks|
    ensures forall i | 0 <= i < |marks| :: Shift(marks, delta)[i] == Moved(marks[i], delta)
    decreases |marks|
  {
    if marks != [] {
      ShiftAt(marks[..|marks| - 1], delta);
    }
  }

  lemma {:induction false} PlaceAt(images: seq<Image>, start: int, end: int)
    ensures |Place(images, start, end)| == |images|
    ensures forall i | 0 <= i < |images| ::
      Place(images, start, end)[i] == Mark(start, end, images[i].kind, images[i].href)
    decreases |images|
  {
    if images != [] {
      PlaceAt(images[..|images| - 1], start, end);
    }
  }

  lemma AppendWellPlaced(a: Line, b: Line)
    requires WellPlaced(a.marks, |a.text|) && WellPlaced(b.marks, |b.text|)
    ensures WellPlaced(Append(a, b).marks, |Append(a, b).text|)
  {
    ShiftAt(b.marks, |a.text|);
  }

  lemma ChunkWellPlaced(p: Piece)
    ensures WellPlaced(Chunk(p).marks, |Chunk(p).text|)
  {
    if p.Body? {
      AtMostOneLink(p.span.marks);
      PlaceAt(Images(p.span.marks), 0, |p.span.text|);
    }
  }

  lemma {:induction false} RenderWellPlaced(ps: seq<Piece>)
    ensures WellPlaced(Render(ps).marks, |Render(ps).text|)
    decreases |ps|
  {
    if ps != [] {
      var front, last := Unsnoc(ps);
      RenderWellPlaced(front);
      RenderSnoc(front, last);
      ChunkWellPlaced(last);
      AppendWellPlaced(Render(front), Chunk(last));
    }
  }

  /** Each mark that survives the cut is an original one, ended at the cut. */
  lemma {:induction false} CutMembers(marks: seq<Mark>, m: Mark)
    ensures m in CutMarks(marks) <==>
      exists o :: o in marks && o.start < MAX_TEXT && m == o.(end := Min(o.end, MAX_TEXT))
    decreases |marks|
  {
    if marks != [] {
      var init, last := marks[..|marks| - 1], marks[|marks| - 1];
      assert marks == init + [last];
      CutMembers(init, m);
    }
  }

  lemma {:induction false} CutWellPlaced(marks: seq<Mark>, length: int)
    requires WellPlaced(marks, length) && length >= MAX_TEXT
    ensures WellPlaced(CutMarks(marks), MAX_TEXT)
    decreases |marks|
  {
    if marks != [] {
      var init, last := marks[..|marks| - 1], marks[|marks| - 1];
      assert marks == init + [last];
      CutWellPlaced(init, length);
      forall i | 0 <= i < |CutMarks(init)| ensures Before(CutMarks(init)[i], last) {
        var m := CutMarks(init)[i];
        CutMembers(init, m);
        assert m in CutMarks(init);
        var o :| o in init && o.start < MAX_TEXT && m == o.(end := Min(o.end, MAX_TEXT));
        var k :| 0 <= k < |init| && init[k] == o;
        assert Before(marks[k], marks[|init|]);
      }
    }
  }

  lemma {:induction false} DedupMembers(marks: seq<Mark>, m: Mark)
    ensures m in Dedup(marks) <==> m in marks && m.start < m.end
    decreases |marks|
  {
    if marks != [] {
      var init, last := marks[..|marks| - 1], marks[|marks| - 1];
      assert marks == init + [last];
      DedupMembers(init, m);
      DedupMembers(init, last);
    }
  }

  lemma {:induction false} DedupWellPlaced(marks: seq<Mark>, length: int)
    requires WellPlaced(marks, length)
    ensures WellPlaced(Dedup(marks), length)
    ensures forall i, j | 0 <= i < j < |Dedup(marks)| :: Dedup(marks)[i] != Dedup(marks)[j]
    decreases |marks|
  {
    if marks != [] {
      var init, last := marks[..|marks| - 1], marks[|marks| - 1];
      assert marks == init + [last];
      DedupWellPlaced(init, length);
      forall i | 0 <= i < |Dedup(init)| ensures Before(Dedup(init)[i], last) {
        var m := Dedup(init)[i];
        DedupMembers(init, m);
        assert m in Dedup(init);
        var k :| 0 <= k < |init| && init[k] == m;
        assert Before(marks[k], marks[|init|]);
      }
    }
  }

  // ---------------------------------------------------------------- main results

  /** The text before truncation. */
  function FullText(rich: Rich): string {
    Join(BlocksLines(rich.blocks)).text
  }

  /** Every output is well formed: bounded text, at most 1,000 distinct marks with proper ranges
      in it, ordered by start, and no two link marks overlapping. */
  lemma OutputWellFormed(rich: Rich)
    ensures var out := Converted(rich).0;
      && |out.text| <= 20_000
      && |out.marks| <= 1_000
      && WellPlaced(out.marks, |out.text|)
      && (forall i, j | 0 <= i < j < |out.marks| :: out.marks[i] != out.marks[j])
  {
    var ps := Pieces(rich.blocks);
    ConverterRefinesPieces(rich.blocks);
    RenderWellPlaced(ps);
    var joined := Render(ps);
    var cut := Truncate(joined);
    if |joined.text| > MAX_TEXT {
      CutWellPlaced(joined.marks, |joined.text|);
    }
    DedupWellPlaced(cut.marks, |cut.text|);
  }

  /** The output text is the document's text, cut at 20,000 characters. */
  lemma OutputText(rich: Rich)
    ensures FullText(rich) == Render(Pieces(rich.blocks)).text
    ensures Converted(rich).0.text == FullText(rich)[..Min(|FullText(rich)|, 20_000)]
  {
    ConverterRefinesPieces(rich.blocks);
    hide Join, BlocksLines, Render, Dedup, CutMarks, Cap, BlocksLossy;
  }

  /** The cap keeps the first 1,000 marks. */
  lemma OutputMarks(rich: Rich)
    ensures var unique := Dedup(Truncate(Join(BlocksLines(rich.blocks))).marks);
      Converted(rich).0.marks == unique[..Min(|unique|, 1_000)]
  {
    var unique := Dedup(Truncate(Join(BlocksLines(rich.blocks))).marks);
    hide Dedup, Truncate, Join, BlocksLines;
    assert unique[..|unique|] == unique;
  }

  /** Which marks there are before the cap: the origins' marks, ended at the cut. */
  lemma UncappedMarks(rich: Rich, m: Mark)
    ensures m in Dedup(Truncate(Join(BlocksLines(rich.blocks))).marks) <==>
      exists k, o :: 0 <= k < |Pieces(rich.blocks)| && Origin(Pieces(rich.blocks), k, o)
                     && o.start < MAX_TEXT && m == o.(end := Min(o.end, MAX_TEXT))
  {
    var ps := Pieces(rich.blocks);
    ConverterRefinesPieces(rich.blocks);
    var joined := Render(ps);
    var cut := Truncate(joined);
    DedupMembers(cut.marks, m);
    RenderWellPlaced(ps);
    if |joined.text| > MAX_TEXT {
      CutMembers(joined.marks, m);
      if o :| o in joined.marks && o.start < MAX_TEXT && m == o.(end := Min(o.end, MAX_TEXT)) {
        MarksHaveOrigins(ps, o);
        InRange(joined, o);
      }
    } else {
      if m in joined.marks {
        MarksHaveOrigins(ps, m);
        InRange(joined, m);
        assert m == m.(end := Min(m.end, MAX_TEXT));
      }
    }
    if k, o :| 0 <= k < |ps| && Origin(ps, k, o) && o.start < MAX_TEXT && m == o.(end := Min(o.end, MAX_TEXT)) {
      MarksHaveOrigins(ps, o);
      InRange(joined, o);
      if |joined.text| <= MAX_TEXT {
        assert m == o;
      }
    }
  }

  lemma InRange(line: Line, m: Mark)
    requires WellPlaced(line.marks, |line.text|) && m in line.marks
    ensures 0 <= m.start < m.end <= |line.text|
  {
  }

  /** m covers the text of piece k, or its prefix when the cut falls inside it. */
  ghost predicate Covers(out: Line, ps: seq<Piece>, k: nat, m: Mark)
    requires k < |ps|
  {
    && ps[k].Body?
    && m.start == Position(ps, k) && m.end == Min(m.start + |ps[k].span.text|, MAX_TEXT)
    && 0 <= m.start < m.end <= |out.text|
    && out.text[m.start..m.end] == ps[k].span.text[..m.end - m.start]
    && Image(m.kind, m.href) in Images(ps[k].span.marks)
  }

  lemma OriginCovers(rich: Rich, k: nat, o: Mark, m: Mark)
    requires k < |Pieces(rich.blocks)| && Origin(Pieces(rich.blocks), k, o)
    requires o.start < MAX_TEXT && m == o.(end := Min(o.end, MAX_TEXT))
    requires 0 <= m.start < m.end <= |Converted(rich).0.text|
    ensures Covers(Converted(rich).0, Pieces(rich.blocks), k, m)
  {
    hide Pieces, Converted, FullText, Images, Position, Render;
    var ps := Pieces(rich.blocks);
    OutputText(rich);
    PieceInText(ps, k);
    SubText(FullText(rich), Position(ps, k), ps[k].span.text, |Converted(rich).0.text|, m.end);
  }

  /** Mark faithfulness: every output mark comes from one source span, carries the image of one of
      that span's marks, and covers exactly that span's text, or its prefix when the document is
      cut inside the span. */
  lemma MarkFaithful(rich: Rich, m: Mark)
    requires m in Converted(rich).0.marks
    ensures exists k :: 0 <= k < |Pieces(rich.blocks)| && Covers(Converted(rich).0, Pieces(rich.blocks), k, m)
  {
    UncappedMarks(rich, m);
    var k, o :| 0 <= k < |Pieces(rich.blocks)| && Origin(Pieces(rich.blocks), k, o)
             && o.start < MAX_TEXT && m == o.(end := Min(o.end, MAX_TEXT));
    OutputWellFormed(rich);
    InRange(Converted(rich).0, m);
    OriginCovers(rich, k, o, m);
  }

  lemma SubText(full: string, n: nat, t: string, cut: nat, end: nat)
    requires n + |t| <= |full| && full[n..n + |t|] == t
    requires n <= end <= n + |t| && end <= cut <= |full|
    ensures full[..cut][n..end] == t[..end - n]
  {
    forall i | 0 <= i < end - n ensures full[..cut][n..end][i] == t[..end - n][i] {
      assert full[n..n + |t|][i] == full[n + i];
    }
  }

  ghost predicate Misaligned(blocks: seq<Block>) {
    exists i | 0 <= i < |blocks| :: blocks[i].Paragraph? && !blocks[i].startAligned
  }

  lemma SpansLossyAppend(a: seq<Span>, b: seq<Span>)
    ensures SpansLossy(a + b) <==> SpansLossy(a) || SpansLossy(b)
  {
    if i :| 0 <= i < |a| && MarksLossy(a[i].marks) {
      assert (a + b)[i] == a[i];
    }
    if i :| 0 <= i < |b| && MarksLossy(b[i].marks) {
      assert (a + b)[|a| + i] == b[i];
    }
  }

  lemma {:induction false} ItemLossyIffSpans(item: Item)
    ensures ItemLossy(item) <==> SpansLossy(ItemSpans(item))
    decreases item, 0
  {
    ItemsLossyIffSpans(item.children);
    SpansLossyAppend(item.spans, ItemsSpans(item.children));
  }

  lemma {:induction false} ItemsLossyIffSpans(items: seq<Item>)
    ensures (exists i | 0 <= i < |items| :: ItemLossy(items[i])) <==> SpansLossy(ItemsSpans(items))
    decreases items, 1
  {
    if items != [] {
      ItemLossyIffSpans(items[0]);
      ItemsLossyIffSpans(items[1..]);
      SpansLossyAppend(ItemSpans(items[0]), ItemsSpans(items[1..]));
      if i :| 0 <= i < |items[1..]| && ItemLossy(items[1..][i]) {
        assert ItemLossy(items[i + 1]);
      }
      if i :| 0 <= i < |items| && ItemLossy(items[i]) {
        assert i == 0 || ItemLossy(items[1..][i - 1]);
      }
    }
  }

  /** The lossy flag that the recursion gathers is about the spans at every depth, and alignment. */
  lemma {:induction false} BlocksLossyIff(blocks: seq<Block>)
    ensures BlocksLossy(blocks) <==> SpansLossy(SourceSpans(blocks)) || Misaligned(blocks)
  {
    if blocks != [] {
      var first, rest := blocks[0], blocks[1..];
      BlocksLossyIff(rest);
      SpansLossyAppend(BlockSpans(first), SourceSpans(rest));
      if first.Listing? {
        ItemsLossyIffSpans(first.items);
      }
      FirstOrRest(blocks);
    }
  }

  lemma FirstOrRest(blocks: seq<Block>)
    requires blocks != []
    ensures BlocksLossy(blocks) <==> BlockLossy(blocks[0]) || BlocksLossy(blocks[1..])
    ensures Misaligned(blocks) <==> (blocks[0].Paragraph? && !blocks[0].startAligned) || Misaligned(blocks[1..])
  {
    var rest := blocks[1..];
    if i :| 0 <= i < |rest| && BlockLossy(rest[i]) {
      assert BlockLossy(blocks[i + 1]);
    }
    if i :| 0 <= i < |blocks| && BlockLossy(blocks[i]) {
      assert i == 0 || BlockLossy(rest[i - 1]);
    }
    if i :| 0 <= i < |rest| && rest[i].Paragraph? && !rest[i].startAligned {
      assert blocks[i + 1].Paragraph?;
    }
    if i :| 0 <= i < |blocks| && blocks[i].Paragraph? && !blocks[i].startAligned {
      assert i == 0 || rest[i - 1].Paragraph?;
    }
  }

  /** When the flag is raised: unkept fields, a mark somewhere without an image, an alignment,
      a cut or a cap; and never otherwise. */
  lemma LossyExactly(rich: Rich)
    ensures Converted(rich).1 <==>
      || rich.extras
      || SpansLossy(SourceSpans(rich.blocks))
      || Misaligned(rich.blocks)
      || |FullText(rich)| > MAX_TEXT
      || |Dedup(Truncate(Join(BlocksLines(rich.blocks))).marks)| > MAX_MARKS
  {
    BlocksLossyIff(rich.blocks);
  }

  lemma {:induction false} BodyIsSource(ps: seq<Piece>, k: nat) returns (j: nat)
    requires k < |ps| && ps[k].Body?
    ensures j < |Bodies(ps)| && Bodies(ps)[j] == ps[k].span
  {
    if k == 0 {
      j := 0;
    } else {
      j := BodyIsSource(ps[1..], k - 1);
      if ps[0].Body? {
        j := j + 1;
      }
    }
  }

  lemma LosslessSpan(rich: Rich, k: nat)
    requires !Converted(rich).1 && k < |Pieces(rich.blocks)| && Pieces(rich.blocks)[k].Body?
    ensures !MarksLossy(Pieces(rich.blocks)[k].span.marks)
  {
    LossyExactly(rich);
    PiecesHoldSourceSpans(rich.blocks);
    var j := BodyIsSource(Pieces(rich.blocks), k);
  }

  lemma LosslessOutput(rich: Rich)
    requires !Converted(rich).1
    ensures Converted(rich).0 == Line(FullText(rich), Dedup(Truncate(Join(BlocksLines(rich.blocks))).marks))
    ensures |FullText(rich)| <= MAX_TEXT
  {
    LossyExactly(rich);
  }

  /** The mark that an image puts on piece k. */
  function MarkOn(ps: seq<Piece>, k: nat, image: Image): Mark
    requires k < |ps|
  {
    Mark(Position(ps, k), Position(ps, k) + |Chunk(ps[k]).text|, image.kind, image.href)
  }

  lemma PresentImage(rich: Rich, k: nat, image: Image)
    requires !Converted(rich).1
    requires k < |Pieces(rich.blocks)| && Pieces(rich.blocks)[k].Body? && Pieces(rich.blocks)[k].span.text != ""
    ensures MarkOn(Pieces(rich.blocks), k, image) in Converted(rich).0.marks <==>
      image in Images(Pieces(rich.blocks)[k].span.marks)
  {
    hide Pieces, Converted, FullText, Images, Position, Truncate, Dedup, Join;
    var ps := Pieces(rich.blocks);
    var m := MarkOn(ps, k, image);
    LosslessOutput(rich);
    OutputText(rich);
    PieceInText(ps, k);
    UncappedMarks(rich, m);
    if m in Converted(rich).0.marks {
      var k', o :| 0 <= k' < |ps| && Origin(ps, k', o) && o.start < MAX_TEXT && m == o.(end := Min(o.end, MAX_TEXT));
      SameStart(ps, k, k');
    } else {
      assert image in Images(ps[k].span.marks) ==> Origin(ps, k, m);
      assert m == m.(end := Min(m.end, MAX_TEXT));
    }
  }

  /** With lossy == false the text is whole, and on each non-empty span's range the output has
      exactly the images of all that span's marks, at every nesting depth. */
  lemma LosslessMarks(rich: Rich, k: nat, image: Image)
    requires !Converted(rich).1
    requires k < |Pieces(rich.blocks)| && Pieces(rich.blocks)[k].Body? && Pieces(rich.blocks)[k].span.text != ""
    ensures Converted(rich).0.text == FullText(rich)
    ensures var marks := Pieces(rich.blocks)[k].span.marks;
      MarkOn(Pieces(rich.blocks), k, image) in Converted(rich).0.marks <==>
      exists i :: 0 <= i < |marks| && HasImage(marks[i], image)
  {
    var marks := Pieces(rich.blocks)[k].span.marks;
    LosslessOutput(rich);
    LosslessSpan(rich, k);
    PresentImage(rich, k, image);
    if image in Images(marks) {
      ImagesComeFromMarks(marks, image);
    }
    if i :| 0 <= i < |marks| && HasImage(marks[i], image) {
      LosslessImages(marks, i);
    }
  }

  /** Which marks have a given image. */
  lemma StylesOfMarks(marks: seq<SourceMark>, url: string)
    ensures (exists i :: 0 <= i < |marks| && HasImage(marks[i], Image(Strong, None))) <==> Bold in marks
    ensures (exists i :: 0 <= i < |marks| && HasImage(marks[i], Image(Emphasis, None))) <==> Italic in marks
    ensures (exists i :: 0 <= i < |marks| && HasImage(marks[i], Image(Link, Some(url)))) <==> Linked(Some(url)) in marks
  {
    assert forall m :: HasImage(m, Image(Strong, None)) <==> m == Bold;
    assert forall m :: HasImage(m, Image(Emphasis, None)) <==> m == Italic;
    assert forall m :: HasImage(m, Image(Link, Some(url))) <==> m == Linked(Some(url));
  }

  /** With lossy == false, the strong, emphasis and link marks on a non-empty span are its bold, italic and
      link marks. */
  lemma LosslessStyles(rich: Rich, k: nat, url: string)
    requires !Converted(rich).1
    requires k < |Pieces(rich.blocks)| && Pieces(rich.blocks)[k].Body? && Pieces(rich.blocks)[k].span.text != ""
    ensures var start, marks := Position(Pieces(rich.blocks), k), Pieces(rich.blocks)[k].span.marks;
      var end, out := start + |Pieces(rich.blocks)[k].span.text|, Converted(rich).0.marks;
      && (Mark(start, end, Strong, None) in out <==> Bold in marks)
      && (Mark(start, end, Emphasis, None) in out <==> Italic in marks)
      && (Mark(start, end, Link, Some(url)) in out <==> Linked(Some(url)) in marks)
  {
    hide Converted, Pieces, Position, HasImage, FullText;
    LosslessMarks(rich, k, Image(Strong, None));
    LosslessMarks(rich, k, Image(Emphasis, None));
    LosslessMarks(rich, k, Image(Link, Some(url)));
    StylesOfMarks(Pieces(rich.blocks)[k].span.marks, url);
  }

  lemma {:induction false} PositionsGrow(ps: seq<Piece>, k: nat, j: nat)
    requires k < j <= |ps|
    ensures Position(ps, k) + |Chunk(ps[k]).text| <= Position(ps, j)
    decreases j
  {
    RenderSnoc(ps[..j - 1], ps[j - 1]);
    assert ps[..j] == ps[..j - 1] + [ps[j - 1]];
    if k < j - 1 {
      PositionsGrow(ps, k, j - 1);
    }
  }

  /** Two non-empty pieces never start at the same offset. */
  lemma SameStart(ps: seq<Piece>, k: nat, j: nat)
    requires k < |ps| && j < |ps| && Chunk(ps[k]).text != "" && Chunk(ps[j]).text != ""
    requires Position(ps, k) == Position(ps, j)
    ensures k == j
  {
    if k < j {
      PositionsGrow(ps, k, j);
    } else if j < k {
      PositionsGrow(ps, j, k);
    }
  }

  /** Some mark of the document has no counterpart in the output. */
  ghost predicate DropsMark(rich: Rich) {
    exists k, i :: 0 <= k < |Pieces(rich.blocks)| && Pieces(rich.blocks)[k].Body?
      && 0 <= i < |Pieces(rich.blocks)[k].span.marks| && Unrepresented(rich, k, i)
  }

  ghost predicate Unrepresented(rich: Rich, k: nat, i: nat)
    requires k < |Pieces(rich.blocks)| && Pieces(rich.blocks)[k].Body? && i < |Pieces(rich.blocks)[k].span.marks|
  {
    var ps := Pieces(rich.blocks);
    !exists m :: m in Converted(rich).0.marks && m.start == Position(ps, k)
              && m.end == m.start + |ps[k].span.text| && HasImage(ps[k].span.marks[i], Image(m.kind, m.href))
  }

  /** The flag does not speak for empty spans: with lossy == false, marks are dropped exactly
      when an empty span carries some. */
  lemma DropsOnlyEmptySpanMarks(rich: Rich)
    requires !Converted(rich).1
    ensures DropsMark(rich) <==>
      exists k :: 0 <= k < |Pieces(rich.blocks)| && MarkedEmpty(Pieces(rich.blocks)[k])
  {
    var ps := Pieces(rich.blocks);
    OutputWellFormed(rich);
    if k :| 0 <= k < |ps| && MarkedEmpty(ps[k]) {
      assert Unrepresented(rich, k, 0);
    }
    forall k, i | 0 <= k < |ps| && ps[k].Body? && 0 <= i < |ps[k].span.marks| && !MarkedEmpty(ps[k])
      ensures !Unrepresented(rich, k, i)
    {
      LosslessSpan(rich, k);
      LosslessImages(ps[k].span.marks, i);
      var image := FullImage(ps[k].span.marks[i]);
      assert HasImage(ps[k].span.marks[i], image);
      LosslessMarks(rich, k, image);
      assert MarkOn(ps, k, image) in Converted(rich).0.marks;
    }
  }

  predicate MarkedEmpty(p: Piece) {
    p.Body? && p.span.text == "" && p.span.marks != []
  }

  /** Such a document: one paragraph with one empty bold span. */
  lemma EmptyBoldSpanIsDropped()
    ensures var rich := Rich([Paragraph([Span("", [Bold])], true)], false);
      Converted(rich) == (Line("", []), false) && MarkedEmpty(Pieces(rich.blocks)[0])
  {
    var span := Span("", [Bold]);
    var block := Paragraph([span], true);
    var rich := Rich([block], false);
    SpanLineSnoc([], span);
    assert [] + [span] == [span];
    assert SpanLine([span]) == Line("", []);
    BlocksSnoc([], block);
    assert [] + [block] == [block];
    assert BlocksLines([block]) == [Line("", [])];
    JoinSnoc([], Line("", []));
    assert [] + [Line("", [])] == [Line("", [])];
    FlattenSnoc([], [Body(span)]);
    assert [] + [[Body(span)]] == [[Body(span)]];
    assert BodyPieces([span]) == [Body(span)];
    assert Pieces([block]) == [Body(span)];
    assert !BlocksLossy([block]);
  }
}

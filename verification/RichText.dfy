/** The V2 form of a rich text: one string with range marks.

    The converter shifts offsets three times: a span within its line, a list line behind its
    prefix, a line within the document; then it truncates, drops duplicates and caps.  The
    functions here follow those stages.  `Pieces` is the reference they are proved against:
    the document as one flat list of text pieces, in which a piece starts where the text of
    the pieces before it ends. */
module RichText {
  import opened Basics
  import opened V1RichText

  datatype Mark = Mark(start: int, end: int, kind: Kind, href: Option<string>)

  /** What a source mark becomes, without its range. */
  datatype Image = Image(kind: Kind, href: Option<string>)

  /** Text with marks relative to its start: a line, or a whole document. */
  datatype Line = Line(text: string, marks: seq<Mark>)

  // ---------------------------------------------------------------- marks of one span

  /** A link mark that is kept; only the first kept link of a span survives. */
  predicate KeepsLink(m: SourceMark) { m.Linked? && m.href.Some? }

  predicate HasLink(marks: seq<SourceMark>) {
    exists i | 0 <= i < |marks| :: KeepsLink(marks[i])
  }

  /** The images of a span's marks in order, the later links dropped. */
  function Images(marks: seq<SourceMark>): seq<Image> {
    if marks == [] then []
    else
      var init, last := marks[..|marks| - 1], marks[|marks| - 1];
      match last
      case Unmapped => Images(init)
      case Bold => Images(init) + [Image(Strong, None)]
      case Italic => Images(init) + [Image(Emphasis, None)]
      case Linked(href) =>
        if href.Some? && !HasLink(init) then Images(init) + [Image(Link, href)] else Images(init)
  }

  /** Some mark of the span has no image of its own. */
  predicate MarksLossy(marks: seq<SourceMark>) {
    exists i | 0 <= i < |marks| ::
      || marks[i].Unmapped?
      || (marks[i].Linked? && (marks[i].href.None? || HasLink(marks[..i])))
  }

  predicate SpansLossy(spans: seq<Span>) {
    exists i | 0 <= i < |spans| :: MarksLossy(spans[i].marks)
  }

  function Place(images: seq<Image>, start: int, end: int): seq<Mark> {
    if images == [] then []
    else
      var init, last := images[..|images| - 1], images[|images| - 1];
      Place(init, start, end) + [Mark(start, end, last.kind, last.href)]
  }

  /** The marks of a span whose text starts at `start`; an empty span has none. */
  function SpanMarks(span: Span, start: int): seq<Mark> {
    if span.text == "" then [] else Place(Images(span.marks), start, start + |span.text|)
  }

  function Moved(m: Mark, delta: int): Mark {
    m.(start := m.start + delta, end := m.end + delta)
  }

  function Shift(marks: seq<Mark>, delta: int): seq<Mark> {
    if marks == [] then [] else Shift(marks[..|marks| - 1], delta) + [Moved(marks[|marks| - 1], delta)]
  }

  // ---------------------------------------------------------------- the stages of the converter

  /** The text and marks of a span sequence, offsets from its own start. */
  function SpanLine(spans: seq<Span>): Line {
    if spans == [] then Line("", [])
    else
      var init, last := SpanLine(spans[..|spans| - 1]), spans[|spans| - 1];
      Line(init.text + last.text, init.marks + SpanMarks(last, |init.text|))
  }

  function Spaces(n: nat): string { seq(n, _ => ' ') }

  /** `str(n)` */
  function Decimal(n: nat): (s: string)
    ensures s != ""
    decreases n
  {
    if n < 10 then [DigitChar(n)] else Decimal(n / 10) + [DigitChar(n % 10)]
  }

  function DigitChar(n: nat): (c: char)
    requires n < 10
    ensures Digit(c)
  {
    "0123456789"[n]
  }

  function Marker(ordered: bool, ordinal: nat): string {
    if ordered then Decimal(ordinal) + ". " else "• "
  }

  function Prefix(ordered: bool, depth: nat, ordinal: nat): string {
    Spaces(2 * depth) + Marker(ordered, ordinal)
  }

  function ItemLine(item: Item, ordered: bool, depth: nat, ordinal: nat): Line {
    var prefix, line := Prefix(ordered, depth, ordinal), SpanLine(item.spans);
    Line(prefix + line.text, Shift(line.marks, |prefix|))
  }

  /** The pre-order lines of one list item. */
  function ItemLines(item: Item, ordered: bool, depth: nat, ordinal: nat): seq<Line>
    decreases item, 0
  {
    [ItemLine(item, ordered, depth, ordinal)] + ItemsLines(item.children, ordered, depth + 1)
  }

  function ItemsLines(items: seq<Item>, ordered: bool, depth: nat): seq<Line>
    decreases items, 1
  {
    if items == [] then []
    else
      var init, last := items[..|items| - 1], items[|items| - 1];
      ItemsLines(init, ordered, depth) + ItemLines(last, ordered, depth, |items|)
  }

  function BlockLines(block: Block): seq<Line> {
    match block
    case Paragraph(spans, _) => [SpanLine(spans)]
    case Listing(ordered, items) => ItemsLines(items, ordered, 0)
  }

  function BlocksLines(blocks: seq<Block>): seq<Line> {
    if blocks == [] then []
    else BlocksLines(blocks[..|blocks| - 1]) + BlockLines(blocks[|blocks| - 1])
  }

  /** Lines joined by newlines, marks moved to their line's offset. */
  function Join(lines: seq<Line>): Line {
    if lines == [] then Line("", [])
    else
      var init, last := Join(lines[..|lines| - 1]), lines[|lines| - 1];
      var before := if |lines| == 1 then init.text else init.text + "\n";
      Line(before + last.text, init.marks + Shift(last.marks, |before|))
  }

  /** Cut at 20,000 characters: later marks go, marks across the cut end there. */
  function CutMarks(marks: seq<Mark>): seq<Mark> {
    if marks == [] then []
    else
      var init, last := CutMarks(marks[..|marks| - 1]), marks[|marks| - 1];
      if last.start < MAX_TEXT then init + [last.(end := Min(last.end, MAX_TEXT))] else init
  }

  function Truncate(r: Line): Line {
    if |r.text| > MAX_TEXT then Line(r.text[..MAX_TEXT], CutMarks(r.marks)) else r
  }

  /** First occurrences of the non-empty marks. */
  function Dedup(marks: seq<Mark>): seq<Mark> {
    if marks == [] then []
    else
      var init, last := Dedup(marks[..|marks| - 1]), marks[|marks| - 1];
      if last !in init && last.start < last.end then init + [last] else init
  }

  function Cap(marks: seq<Mark>): seq<Mark> {
    if |marks| > MAX_MARKS then marks[..MAX_MARKS] else marks
  }

  predicate ItemLossy(item: Item)
    decreases item
  {
    SpansLossy(item.spans) || exists i | 0 <= i < |item.children| :: ItemLossy(item.children[i])
  }

  predicate BlockLossy(block: Block) {
    match block
    case Paragraph(spans, startAligned) => SpansLossy(spans) || !startAligned
    case Listing(_, items) => exists i | 0 <= i < |items| :: ItemLossy(items[i])
  }

  predicate BlocksLossy(blocks: seq<Block>) {
    exists i | 0 <= i < |blocks| :: BlockLossy(blocks[i])
  }

  function Converted(rich: Rich): (Line, bool) {
    var joined := Join(BlocksLines(rich.blocks));
    var cut := Truncate(joined);
    var unique := Dedup(cut.marks);
    (Line(cut.text, Cap(unique)),
     rich.extras || BlocksLossy(rich.blocks) || |joined.text| > MAX_TEXT || |unique| > MAX_MARKS)
  }

  // ---------------------------------------------------------------- the flat reference

  /** Text the converter adds (newlines, prefixes), or a span of the source. */
  datatype Piece = Glue(text: string) | Body(span: Span)

  /** A piece on its own: its text, and its marks from offset 0. */
  function Chunk(p: Piece): Line {
    match p
    case Glue(text) => Line(text, [])
    case Body(span) => Line(span.text, SpanMarks(span, 0))
  }

  function Chunks(ps: seq<Piece>): (ls: seq<Line>)
    ensures |ls| == |ps|
    ensures forall i | 0 <= i < |ls| :: ls[i] == Chunk(ps[i])
  {
    seq(|ps|, i requires 0 <= i < |ps| => Chunk(ps[i]))
  }

  const EMPTY: Line := Line("", [])

  /** b written behind a. */
  function Append(a: Line, b: Line): Line {
    Line(a.text + b.text, a.marks + Shift(b.marks, |a.text|))
  }

  /** Chunks written one behind the other: each starts where the text before it ends. */
  function Fold(ls: seq<Line>): Line {
    if ls == [] then EMPTY else Append(Fold(ls[..|ls| - 1]), ls[|ls| - 1])
  }

  function Render(ps: seq<Piece>): Line {
    Fold(Chunks(ps))
  }

  function BodyPieces(spans: seq<Span>): (ps: seq<Piece>)
    ensures |ps| == |spans|
    ensures forall i | 0 <= i < |ps| :: ps[i] == Body(spans[i])
  {
    seq(|spans|, i requires 0 <= i < |spans| => Body(spans[i]))
  }

  function ItemPieces(item: Item, ordered: bool, depth: nat, ordinal: nat): seq<seq<Piece>>
    decreases item, 0
  {
    [[Glue(Prefix(ordered, depth, ordinal))] + BodyPieces(item.spans)]
    + ItemsPieces(item.children, ordered, depth + 1)
  }

  function ItemsPieces(items: seq<Item>, ordered: bool, depth: nat): seq<seq<Piece>>
    decreases items, 1
  {
    if items == [] then []
    else
      var init, last := items[..|items| - 1], items[|items| - 1];
      ItemsPieces(init, ordered, depth) + ItemPieces(last, ordered, depth, |items|)
  }

  function BlockPieces(block: Block): seq<seq<Piece>> {
    match block
    case Paragraph(spans, _) => [BodyPieces(spans)]
    case Listing(ordered, items) => ItemsPieces(items, ordered, 0)
  }

  function BlocksPieces(blocks: seq<Block>): seq<seq<Piece>> {
    if blocks == [] then []
    else BlocksPieces(blocks[..|blocks| - 1]) + BlockPieces(blocks[|blocks| - 1])
  }

  /** Piece lists joined by newline pieces. */
  function Flatten(lines: seq<seq<Piece>>): seq<Piece> {
    if lines == [] then []
    else
      var init := Flatten(lines[..|lines| - 1]);
      (if |lines| == 1 then init else init + [Glue("\n")]) + lines[|lines| - 1]
  }

  /** The whole document as pieces. */
  function Pieces(blocks: seq<Block>): seq<Piece> {
    Flatten(BlocksPieces(blocks))
  }

  // ---------------------------------------------------------------- the stages refine the reference

  lemma ShiftSnoc(marks: seq<Mark>, last: Mark, delta: int)
    ensures Shift(marks + [last], delta) == Shift(marks, delta) + [Moved(last, delta)]
  {
    FrontOfSnoc(marks, last);
  }

  lemma {:induction false} ShiftAppend(a: seq<Mark>, b: seq<Mark>, delta: int)
    ensures Shift(a + b, delta) == Shift(a, delta) + Shift(b, delta)
    decreases |b|
  {
    if b == [] {
      assert a + b == a;
    } else {
      var front, last := Unsnoc(b);
      ShiftAppend(a, front, delta);
      ShiftSnoc(front, last, delta);
      ShiftSnoc(a + front, last, delta);
      Assoc(a, front, [last]);
    }
  }

  lemma {:induction false} PlaceShift(images: seq<Image>, start: int, end: int, delta: int)
    ensures Place(images, start + delta, end + delta) == Shift(Place(images, start, end), delta)
  {
    if images != [] {
      var init, last := images[..|images| - 1], images[|images| - 1];
      PlaceShift(init, start, end, delta);
      ShiftSnoc(Place(init, start, end), Mark(start, end, last.kind, last.href), delta);
    }
  }

  lemma SpanMarksShift(span: Span, delta: int)
    ensures SpanMarks(span, delta) == Shift(SpanMarks(span, 0), delta)
  {
    PlaceShift(Images(span.marks), 0, |span.text|, delta);
  }

  lemma {:induction false} ShiftTwice(marks: seq<Mark>, x: int, y: int)
    ensures Shift(Shift(marks, x), y) == Shift(marks, x + y)
    decreases |marks|
  {
    if marks != [] {
      var front, last := Unsnoc(marks);
      ShiftTwice(front, x, y);
      ShiftSnoc(front, last, x);
      ShiftSnoc(front, last, x + y);
      ShiftSnoc(Shift(front, x), Moved(last, x), y);
    }
  }

  lemma {:induction false} ShiftZero(marks: seq<Mark>)
    ensures Shift(marks, 0) == marks
    decreases |marks|
  {
    if marks != [] {
      var front, last := Unsnoc(marks);
      ShiftZero(front);
      ShiftSnoc(front, last, 0);
    }
  }

  /** Writing lines one behind the other is associative, so nested offset shifts add up. */
  lemma AppendAssoc(a: Line, b: Line, c: Line)
    ensures Append(Append(a, b), c) == Append(a, Append(b, c))
  {
    var n, m := |a.text|, |b.text|;
    Assoc(a.text, b.text, c.text);
    ShiftTwice(c.marks, m, n);
    ShiftAppend(b.marks, Shift(c.marks, m), n);
    Assoc(a.marks, Shift(b.marks, n), Shift(c.marks, n + m));
  }

  lemma AppendEmpty(a: Line)
    ensures Append(a, EMPTY) == a && Append(EMPTY, a) == a
  {
    ShiftZero(a.marks);
  }

  lemma FoldSnoc(ls: seq<Line>, last: Line)
    ensures Fold(ls + [last]) == Append(Fold(ls), last)
  {
    FrontOfSnoc(ls, last);
  }

  lemma FoldOne(l: Line)
    ensures Fold([l]) == l
  {
    FoldSnoc([], l);
    AppendEmpty(l);
    assert [] + [l] == [l];
  }

  lemma {:induction false} FoldAppend(a: seq<Line>, b: seq<Line>)
    ensures Fold(a + b) == Append(Fold(a), Fold(b))
    decreases |b|
  {
    if b == [] {
      assert a + b == a;
      AppendEmpty(Fold(a));
    } else {
      var front, last := Unsnoc(b);
      FoldAppend(a, front);
      FoldSnoc(front, last);
      FoldSnoc(a + front, last);
      Assoc(a, front, [last]);
      AppendAssoc(Fold(a), Fold(front), last);
    }
  }

  lemma ChunksAppend(a: seq<Piece>, b: seq<Piece>)
    ensures Chunks(a + b) == Chunks(a) + Chunks(b)
  {
    hide Chunk;
  }

  lemma RenderAppend(a: seq<Piece>, b: seq<Piece>)
    ensures Render(a + b) == Append(Render(a), Render(b))
  {
    hide Chunks, Fold, Append;
    ChunksAppend(a, b);
    FoldAppend(Chunks(a), Chunks(b));
  }

  lemma RenderOne(p: Piece)
    ensures Render([p]) == Chunk(p)
  {
    FoldOne(Chunk(p));
    assert Chunks([p]) == [Chunk(p)];
  }

  lemma {:induction false} SpanLineRenders(spans: seq<Span>)
    ensures SpanLine(spans) == Render(BodyPieces(spans))
    decreases |spans|
  {
    if spans != [] {
      var front, last := Unsnoc(spans);
      SpanLineRenders(front);
      SpanLineSnoc(front, last);
      RenderAppend(BodyPieces(front), [Body(last)]);
      RenderOne(Body(last));
      assert BodyPieces(spans) == BodyPieces(front) + [Body(last)];
    }
  }

  lemma SpanLineSnoc(spans: seq<Span>, last: Span)
    ensures SpanLine(spans + [last]) == Append(SpanLine(spans), Chunk(Body(last)))
  {
    FrontOfSnoc(spans, last);
    SpanMarksShift(last, |SpanLine(spans).text|);
  }

  ghost predicate LinesRender(lines: seq<Line>, pieces: seq<seq<Piece>>) {
    |lines| == |pieces| && forall i | 0 <= i < |lines| :: lines[i] == Render(pieces[i])
  }

  lemma ItemLineRenders(item: Item, ordered: bool, depth: nat, ordinal: nat)
    ensures ItemLine(item, ordered, depth, ordinal)
         == Render([Glue(Prefix(ordered, depth, ordinal))] + BodyPieces(item.spans))
  {
    hide Prefix, SpanLine, Render, BodyPieces, Shift;
    var prefix := Glue(Prefix(ordered, depth, ordinal));
    SpanLineRenders(item.spans);
    RenderOne(prefix);
    RenderAppend([prefix], BodyPieces(item.spans));
  }

  lemma {:induction false} ItemLinesRender(item: Item, ordered: bool, depth: nat, ordinal: nat)
    ensures LinesRender(ItemLines(item, ordered, depth, ordinal), ItemPieces(item, ordered, depth, ordinal))
    decreases item, 0
  {
    var head := [Glue(Prefix(ordered, depth, ordinal))] + BodyPieces(item.spans);
    ItemLineRenders(item, ordered, depth, ordinal);
    ItemsLinesRender(item.children, ordered, depth + 1);
    LinesRenderAppend([ItemLine(item, ordered, depth, ordinal)], [head],
                      ItemsLines(item.children, ordered, depth + 1), ItemsPieces(item.children, ordered, depth + 1));
  }

  lemma {:induction false} ItemsLinesRender(items: seq<Item>, ordered: bool, depth: nat)
    ensures LinesRender(ItemsLines(items, ordered, depth), ItemsPieces(items, ordered, depth))
    decreases items, 1
  {
    if items != [] {
      var init, last := items[..|items| - 1], items[|items| - 1];
      ItemsLinesRender(init, ordered, depth);
      ItemLinesRender(last, ordered, depth, |items|);
      LinesRenderAppend(ItemsLines(init, ordered, depth), ItemsPieces(init, ordered, depth),
                        ItemLines(last, ordered, depth, |items|), ItemPieces(last, ordered, depth, |items|));
    }
  }

  lemma BlockLinesRender(block: Block)
    ensures LinesRender(BlockLines(block), BlockPieces(block))
  {
    match block
    case Paragraph(spans, _) => SpanLineRenders(spans);
    case Listing(ordered, items) => ItemsLinesRender(items, ordered, 0);
  }

  lemma LinesRenderAppend(a: seq<Line>, pa: seq<seq<Piece>>, b: seq<Line>, pb: seq<seq<Piece>>)
    requires LinesRender(a, pa) && LinesRender(b, pb)
    ensures LinesRender(a + b, pa + pb)
  {
    forall i | 0 <= i < |a + b| ensures (a + b)[i] == Render((pa + pb)[i]) {
      if i < |a| {
        assert (pa + pb)[i] == pa[i];
      } else {
        assert (pa + pb)[i] == pb[i - |a|] && (a + b)[i] == b[i - |a|];
      }
    }
  }

  lemma BlocksSnoc(blocks: seq<Block>, last: Block)
    ensures BlocksLines(blocks + [last]) == BlocksLines(blocks) + BlockLines(last)
    ensures BlocksPieces(blocks + [last]) == BlocksPieces(blocks) + BlockPieces(last)
  {
    FrontOfSnoc(blocks, last);
  }

  lemma {:induction false} BlocksLinesRender(blocks: seq<Block>)
    ensures LinesRender(BlocksLines(blocks), BlocksPieces(blocks))
    decreases |blocks|
  {
    if blocks != [] {
      var front, last := Unsnoc(blocks);
      BlocksLinesRender(front);
      BlockLinesRender(last);
      BlocksSnoc(front, last);
      LinesRenderAppend(BlocksLines(front), BlocksPieces(front), BlockLines(last), BlockPieces(last));
    }
  }

  lemma JoinSnoc(lines: seq<Line>, last: Line)
    ensures lines == [] ==> Join(lines + [last]) == Append(EMPTY, last)
    ensures lines != [] ==> Join(lines + [last]) == Append(Append(Join(lines), Line("\n", [])), last)
  {
    FrontOfSnoc(lines, last);
    AppendEmpty(Join(lines));
  }

  lemma FlattenSnoc(lines: seq<seq<Piece>>, last: seq<Piece>)
    ensures Flatten(lines + [last])
         == (if lines == [] then Flatten(lines) else Flatten(lines) + [Glue("\n")]) + last
  {
    FrontOfSnoc(lines, last);
  }

  lemma {:induction false} JoinRenders(lines: seq<Line>, pieces: seq<seq<Piece>>)
    requires LinesRender(lines, pieces)
    ensures Join(lines) == Render(Flatten(pieces))
    decreases |lines|
  {
    if lines != [] {
      var front, line := Unsnoc(lines);
      var before, last := Unsnoc(pieces);
      assert lines[|front|] == line && pieces[|before|] == last;
      assert forall i | 0 <= i < |front| :: front[i] == lines[i] && before[i] == pieces[i];
      JoinRenders(front, before);
      JoinSnoc(front, line);
      FlattenSnoc(before, last);
      var ps := Flatten(before);
      if front == [] {
        RenderAppend(ps, last);
      } else {
        RenderOne(Glue("\n"));
        RenderAppend(ps, [Glue("\n")]);
        RenderAppend(ps + [Glue("\n")], last);
      }
    }
  }

  /** All three offset shifts together put every span where the flat document has it. */
  lemma ConverterRefinesPieces(blocks: seq<Block>)
    ensures Join(BlocksLines(blocks)) == Render(Pieces(blocks))
  {
    BlocksLinesRender(blocks);
    JoinRenders(BlocksLines(blocks), BlocksPieces(blocks));
  }

  // ---------------------------------------------------------------- the reference has every span

  function Bodies(ps: seq<Piece>): seq<Span> {
    if ps == [] then []
    else if ps[0].Body? then [ps[0].span] + Bodies(ps[1..]) else Bodies(ps[1..])
  }

  lemma BodiesCons(p: Piece, rest: seq<Piece>)
    ensures Bodies([p] + rest) == (if p.Body? then [p.span] else []) + Bodies(rest)
  {
    assert ([p] + rest)[1..] == rest;
  }

  lemma {:induction false} BodiesAppend(a: seq<Piece>, b: seq<Piece>)
    ensures Bodies(a + b) == Bodies(a) + Bodies(b)
  {
    if a == [] {
      assert a + b == b;
    } else {
      hide Bodies;
      var first, rest := a[0], a[1..];
      assert a == [first] + rest;
      BodiesAppend(rest, b);
      BodiesCons(first, rest);
      BodiesCons(first, rest + b);
      Assoc([first], rest, b);
      Assoc(if first.Body? then [first.span] else [], Bodies(rest), Bodies(b));
    }
  }

  lemma {:induction false} BodiesOfSpans(spans: seq<Span>)
    ensures Bodies(BodyPieces(spans)) == spans
  {
    if spans != [] {
      BodiesOfSpans(spans[1..]);
      assert BodyPieces(spans)[1..] == BodyPieces(spans[1..]);
    }
  }

  /** The spans of piece lists, line by line. */
  function LineBodies(lines: seq<seq<Piece>>): seq<Span> {
    if lines == [] then [] else LineBodies(lines[..|lines| - 1]) + Bodies(lines[|lines| - 1])
  }

  lemma LineBodiesSnoc(lines: seq<seq<Piece>>, last: seq<Piece>)
    ensures LineBodies(lines + [last]) == LineBodies(lines) + Bodies(last)
  {
    hide Bodies;
    FrontOfSnoc(lines, last);
  }

  lemma {:induction false} LineBodiesAppend(a: seq<seq<Piece>>, b: seq<seq<Piece>>)
    ensures LineBodies(a + b) == LineBodies(a) + LineBodies(b)
    decreases |b|
  {
    if b == [] {
      assert a + b == a;
    } else {
      hide LineBodies, Bodies;
      var front, last := Unsnoc(b);
      LineBodiesAppend(a, front);
      LineBodiesSnoc(front, last);
      LineBodiesSnoc(a + front, last);
      Assoc(a, front, [last]);
      Assoc(LineBodies(a), LineBodies(front), Bodies(last));
    }
  }

  lemma {:induction false} FlattenBodies(lines: seq<seq<Piece>>)
    ensures Bodies(Flatten(lines)) == LineBodies(lines)
  {
    if lines != [] {
      var n := |lines| - 1;
      var init := Flatten(lines[..n]);
      FlattenBodies(lines[..n]);
      BodiesAppend(init, [Glue("\n")]);
      assert Bodies([Glue("\n")]) == [];
      BodiesAppend(if n == 0 then init else init + [Glue("\n")], lines[n]);
    }
  }

  lemma ItemsSpansCons(first: Item, rest: seq<Item>)
    ensures ItemsSpans([first] + rest) == ItemSpans(first) + ItemsSpans(rest)
  {
    hide ItemSpans;
    assert ([first] + rest)[1..] == rest;
  }

  lemma {:induction false} ItemsSpansSnoc(items: seq<Item>, last: Item)
    ensures ItemsSpans(items + [last]) == ItemsSpans(items) + ItemSpans(last)
  {
    if items == [] {
      ItemsSpansCons(last, []);
      assert [] + [last] == [last] + [] && ItemSpans(last) + [] == [] + ItemSpans(last);
    } else {
      hide ItemSpans, ItemsSpans;
      var first, rest := items[0], items[1..];
      assert items == [first] + rest;
      ItemsSpansSnoc(rest, last);
      ItemsSpansCons(first, rest);
      ItemsSpansCons(first, rest + [last]);
      Assoc([first], rest, [last]);
      Assoc(ItemSpans(first), ItemsSpans(rest), ItemSpans(last));
    }
  }

  lemma HeadBodies(prefix: string, spans: seq<Span>)
    ensures LineBodies([[Glue(prefix)] + BodyPieces(spans)]) == spans
  {
    var head := [Glue(prefix)] + BodyPieces(spans);
    BodiesOfSpans(spans);
    BodiesCons(Glue(prefix), BodyPieces(spans));
    LineBodiesSnoc([], head);
    assert [] + [head] == [head];
  }

  lemma {:induction false} ItemBodies(item: Item, ordered: bool, depth: nat, ordinal: nat)
    ensures LineBodies(ItemPieces(item, ordered, depth, ordinal)) == ItemSpans(item)
    decreases item, 0
  {
    var prefix := Prefix(ordered, depth, ordinal);
    hide Prefix, LineBodies, BodyPieces, ItemsPieces, ItemsSpans;
    HeadBodies(prefix, item.spans);
    LineBodiesAppend([[Glue(prefix)] + BodyPieces(item.spans)], ItemsPieces(item.children, ordered, depth + 1));
    ItemsBodies(item.children, ordered, depth + 1);
  }

  lemma ItemsPiecesSnoc(items: seq<Item>, last: Item, ordered: bool, depth: nat)
    ensures ItemsPieces(items + [last], ordered, depth)
         == ItemsPieces(items, ordered, depth) + ItemPieces(last, ordered, depth, |items| + 1)
  {
    hide ItemPieces;
    FrontOfSnoc(items, last);
  }

  lemma {:induction false} ItemsBodies(items: seq<Item>, ordered: bool, depth: nat)
    ensures LineBodies(ItemsPieces(items, ordered, depth)) == ItemsSpans(items)
    decreases items, 1
  {
    if items != [] {
      hide ItemsPieces, ItemPieces, LineBodies, ItemsSpans, ItemSpans;
      var init, last := items[..|items| - 1], items[|items| - 1];
      assert items == init + [last];
      ItemsBodies(init, ordered, depth);
      ItemBodies(last, ordered, depth, |items|);
      ItemsPiecesSnoc(init, last, ordered, depth);
      LineBodiesAppend(ItemsPieces(init, ordered, depth), ItemPieces(last, ordered, depth, |items|));
      ItemsSpansSnoc(init, last);
    }
  }

  lemma SourceSpansCons(first: Block, rest: seq<Block>)
    ensures SourceSpans([first] + rest) == BlockSpans(first) + SourceSpans(rest)
  {
    hide BlockSpans;
    assert ([first] + rest)[1..] == rest;
  }

  lemma {:induction false} SourceSpansSnoc(blocks: seq<Block>, last: Block)
    ensures SourceSpans(blocks + [last]) == SourceSpans(blocks) + BlockSpans(last)
  {
    if blocks == [] {
      SourceSpansCons(last, []);
      assert [] + [last] == [last] + [] && BlockSpans(last) + [] == [] + BlockSpans(last);
    } else {
      hide BlockSpans, SourceSpans;
      var first, rest := blocks[0], blocks[1..];
      assert blocks == [first] + rest;
      SourceSpansSnoc(rest, last);
      SourceSpansCons(first, rest);
      SourceSpansCons(first, rest + [last]);
      Assoc([first], rest, [last]);
      Assoc(BlockSpans(first), SourceSpans(rest), BlockSpans(last));
    }
  }

  lemma BlockBodies(block: Block)
    ensures LineBodies(BlockPieces(block)) == BlockSpans(block)
  {
    match block
    case Paragraph(spans, _) =>
      BodiesOfSpans(spans);
      assert [BodyPieces(spans)][..0] == [];
    case Listing(ordered, items) =>
      ItemsBodies(items, ordered, 0);
  }

  lemma {:induction false} BlocksBodies(blocks: seq<Block>)
    ensures LineBodies(BlocksPieces(blocks)) == SourceSpans(blocks)
    decreases |blocks|
  {
    if blocks != [] {
      var front, last := Unsnoc(blocks);
      BlocksBodies(front);
      BlocksSnoc(front, last);
      LineBodiesAppend(BlocksPieces(front), BlockPieces(last));
      BlockBodies(last);
      SourceSpansSnoc(front, last);
    }
  }

  /** The pieces hold every span of the document, at every depth, once and in order. */
  lemma PiecesHoldSourceSpans(blocks: seq<Block>)
    ensures Bodies(Pieces(blocks)) == SourceSpans(blocks)
  {
    BlocksBodies(blocks);
    FlattenBodies(BlocksPieces(blocks));
  }
}

/** The converter itself, working on JSON in the loops and the recursion of the migration.

    Each method is proved against the stage functions of module RichText on the document that
    the JSON describes, and fails exactly when the JSON describes none. */
module RichTextConverter {
  import opened Basics
  import opened V1RichText
  import opened RichText

  /** Reading `whole` succeeds exactly if reading `rest` does, and puts `done` before it. */
  ghost predicate Reads<T>(whole: Option<seq<T>>, done: seq<T>, rest: Option<seq<T>>) {
    && (whole.None? <==> rest.None?)
    && (whole.Some? ==> whole.value == done + rest.value)
  }

  lemma ReadsNext<T>(whole: Option<seq<T>>, done: seq<T>, rest: Option<seq<T>>, first: Option<T>, tail: Option<seq<T>>)
    requires Reads(whole, done, rest)
    requires rest == if first.None? || tail.None? then None else Some([first.value] + tail.value)
    ensures first.None? ==> whole.None?
    ensures first.Some? ==> Reads(whole, done + [first.value], tail)
  {
    if first.Some? && tail.Some? {
      Assoc(done, [first.value], tail.value);
    }
  }

  lemma ReadsStart<T>(whole: Option<seq<T>>)
    ensures Reads(whole, [], whole)
  {
    if whole.Some? {
      assert [] + whole.value == whole.value;
    }
  }

  lemma ReadsEnd<T>(whole: Option<seq<T>>, done: seq<T>)
    requires Reads(whole, done, Some([]))
    ensures whole == Some(done)
  {
    assert done + [] == done;
  }

  // ---------------------------------------------------------------- spans

  /** What the next mark of a span adds; None when it is lost. */
  function NewImage(m: SourceMark, linkAdded: bool): Option<Image> {
    match m
    case Unmapped => None
    case Bold => Some(Image(Strong, None))
    case Italic => Some(Image(Emphasis, None))
    case Linked(href) => if href.Some? && !linkAdded then Some(Image(Link, href)) else None
  }

  lemma ImagesSnoc(marks: seq<SourceMark>, m: SourceMark)
    ensures var image := NewImage(m, HasLink(marks));
      Images(marks + [m]) == if image.Some? then Images(marks) + [image.value] else Images(marks)
  {
    FrontOfSnoc(marks, m);
  }

  lemma LinkSnoc(marks: seq<SourceMark>, m: SourceMark)
    ensures HasLink(marks + [m]) <==> HasLink(marks) || KeepsLink(m)
  {
    var all := marks + [m];
    assert all[|marks|] == m;
    if i :| 0 <= i < |marks| && KeepsLink(marks[i]) {
      assert KeepsLink(all[i]);
    }
  }

  lemma LossySnoc(marks: seq<SourceMark>, m: SourceMark)
    ensures MarksLossy(marks + [m]) <==> MarksLossy(marks) || NewImage(m, HasLink(marks)).None?
  {
    var all := marks + [m];
    assert all[..|marks|] == marks && all[|marks|] == m;
    assert forall i | 0 <= i < |marks| :: all[i] == marks[i] && all[..i] == marks[..i];
  }

  lemma PlaceSnoc(images: seq<Image>, last: Image, start: int, end: int)
    ensures Place(images + [last], start, end) == Place(images, start, end) + [Mark(start, end, last.kind, last.href)]
  {
    FrontOfSnoc(images, last);
  }

  /** What one more mark does to the marks of a span, its flag and its link. */
  lemma SpanMarksStep(text: string, marks: seq<SourceMark>, m: SourceMark, start: int)
    ensures var image, before := NewImage(m, HasLink(marks)), SpanMarks(Span(text, marks), start);
      && SpanMarks(Span(text, marks + [m]), start)
         == (if image.Some? && text != ""
             then before + [Mark(start, start + |text|, image.value.kind, image.value.href)] else before)
      && (MarksLossy(marks + [m]) <==> MarksLossy(marks) || image.None?)
      && (HasLink(marks + [m]) <==> HasLink(marks) || (image.Some? && image.value.kind == Link))
  {
    ImagesSnoc(marks, m);
    LinkSnoc(marks, m);
    LossySnoc(marks, m);
    var image := NewImage(m, HasLink(marks));
    if image.Some? {
      PlaceSnoc(Images(marks), image.value, start, start + |text|);
    }
  }

  /** The body of the mark loop: the image of one raw mark, if it keeps one. */
  method ConvertMark(raw: Json, linkAdded: bool, safe: string -> LinkVerdict) returns (r: Result<Option<Image>>)
    ensures r.Failure? <==> ViewMark(raw, safe).None?
    ensures r.Success? ==> r.value == NewImage(ViewMark(raw, safe).value, linkAdded)
  {
    if !raw.Obj? {
      return Failure;
    }
    var kind := Get(raw.fields, "type", Null);
    if kind == Str("bold") {
      return Success(Some(Image(Strong, None)));
    } else if kind == Str("italic") {
      return Success(Some(Image(Emphasis, None)));
    } else if kind == Str("link") {
      var href := ViewLink(Get(raw.fields, "href", Null), safe);
      if href.None? {
        return Failure;
      }
      if href.value.None? || linkAdded {
        return Success(None);
      }
      return Success(Some(Image(Link, href.value)));
    } else {
      return Success(None);
    }
  }

  lemma MarksNext(raw: seq<Json>, done: seq<SourceMark>, i: nat, safe: string -> LinkVerdict)
    requires i < |raw| && Reads(ViewMarks(raw, safe), done, ViewMarks(raw[i..], safe))
    ensures ViewMark(raw[i], safe).None? ==> ViewMarks(raw, safe).None?
    ensures ViewMark(raw[i], safe).Some? ==>
      Reads(ViewMarks(raw, safe), done + [ViewMark(raw[i], safe).value], ViewMarks(raw[i + 1..], safe))
  {
    hide ViewMark, Reads;
    assert raw[i..][0] == raw[i] && raw[i..][1..] == raw[i + 1..];
    ReadsNext(ViewMarks(raw, safe), done, ViewMarks(raw[i..], safe), ViewMark(raw[i], safe),
              ViewMarks(raw[i + 1..], safe));
  }

  lemma MarksDone(raw: seq<Json>, done: seq<SourceMark>, i: nat, safe: string -> LinkVerdict)
    requires i == |raw| && Reads(ViewMarks(raw, safe), done, ViewMarks(raw[i..], safe))
    ensures ViewMarks(raw, safe) == Some(done)
  {
    assert raw[i..] == [];
    ReadsEnd(ViewMarks(raw, safe), done);
  }

  /** The mark loop of one span. */
  method ConvertMarks(raw: seq<Json>, text: string, offset: nat, safe: string -> LinkVerdict)
    returns (r: Result<(seq<Mark>, bool)>)
    ensures r.Failure? <==> ViewMarks(raw, safe).None?
    ensures r.Success? ==> var marks := ViewMarks(raw, safe).value;
      r.value == (SpanMarks(Span(text, marks), offset), MarksLossy(marks))
  {
    hide Reads, ViewMarks, ViewMark, NewImage, HasLink, MarksLossy, SpanMarks;
    var placed, lossy, linkAdded := [], false, false;
    ghost var done: seq<SourceMark> := [];
    NoMarks(text, offset);
    ReadsStart(ViewMarks(raw, safe));
    assert raw[0..] == raw;
    var i := 0;
    while i < |raw|
      invariant 0 <= i <= |raw|
      invariant Reads(ViewMarks(raw, safe), done, ViewMarks(raw[i..], safe))
      invariant placed == SpanMarks(Span(text, done), offset)
      invariant lossy == MarksLossy(done) && linkAdded == HasLink(done)
    {
      MarksNext(raw, done, i, safe);
      var image := ConvertMark(raw[i], linkAdded, safe);
      if image.Failure? {
        return Failure;
      }
      ghost var first := ViewMark(raw[i], safe).value;
      SpanMarksStep(text, done, first, offset);
      if image.value.None? {
        lossy := true;
      } else {
        linkAdded := linkAdded || image.value.value.kind == Link;
        if text != "" {
          placed := placed + [Mark(offset, offset + |text|, image.value.value.kind, image.value.value.href)];
        }
      }
      done := done + [first];
      i := i + 1;
    }
    MarksDone(raw, done, i, safe);
    return Success((placed, lossy));
  }

  lemma NoMarks(text: string, offset: nat)
    ensures SpanMarks(Span(text, []), offset) == [] && !MarksLossy([]) && !HasLink([])
  {
  }

  lemma SpanLineStep(spans: seq<Span>, last: Span)
    ensures SpanLine(spans + [last]).text == SpanLine(spans).text + last.text
    ensures SpanLine(spans + [last]).marks == SpanLine(spans).marks + SpanMarks(last, |SpanLine(spans).text|)
    ensures SpansLossy(spans + [last]) <==> SpansLossy(spans) || MarksLossy(last.marks)
  {
    FrontOfSnoc(spans, last);
    var all := spans + [last];
    assert all[|spans|] == last;
    if i :| 0 <= i < |spans| && MarksLossy(spans[i].marks) {
      assert MarksLossy(all[i].marks);
    }
  }

  /** One turn of the span loop. */
  method ConvertSpan(raw: Json, offset: nat, safe: string -> LinkVerdict) returns (r: Result<(string, seq<Mark>, bool)>)
    ensures r.Failure? <==> ViewSpan(raw, safe).None?
    ensures r.Success? ==> var span := ViewSpan(raw, safe).value;
      r.value == (span.text, SpanMarks(span, offset), MarksLossy(span.marks))
  {
    hide ViewMarks, SpanMarks, MarksLossy;
    if !raw.Obj? {
      return Failure;
    }
    var text := Get(raw.fields, "text", Null);
    if !text.Str? || |text.s| > MAX_TEXT {
      return Failure;
    }
    var marks := Iterate(Get(raw.fields, "marks", Arr([])));
    if marks.None? {
      return Failure;
    }
    var converted := ConvertMarks(marks.value, text.s, offset, safe);
    if converted.Failure? {
      return Failure;
    }
    return Success((text.s, converted.value.0, converted.value.1));
  }

  lemma SpansNext(raw: seq<Json>, done: seq<Span>, i: nat, safe: string -> LinkVerdict)
    requires i < |raw| && Reads(ViewSpanList(raw, safe), done, ViewSpanList(raw[i..], safe))
    ensures ViewSpan(raw[i], safe).None? ==> ViewSpanList(raw, safe).None?
    ensures ViewSpan(raw[i], safe).Some? ==>
      Reads(ViewSpanList(raw, safe), done + [ViewSpan(raw[i], safe).value], ViewSpanList(raw[i + 1..], safe))
  {
    hide ViewSpan, Reads;
    assert raw[i..][0] == raw[i] && raw[i..][1..] == raw[i + 1..];
    ReadsNext(ViewSpanList(raw, safe), done, ViewSpanList(raw[i..], safe), ViewSpan(raw[i], safe),
              ViewSpanList(raw[i + 1..], safe));
  }

  lemma SpansDone(raw: seq<Json>, done: seq<Span>, i: nat, safe: string -> LinkVerdict)
    requires i == |raw| && Reads(ViewSpanList(raw, safe), done, ViewSpanList(raw[i..], safe))
    ensures ViewSpanList(raw, safe) == Some(done)
  {
    assert raw[i..] == [];
    ReadsEnd(ViewSpanList(raw, safe), done);
  }

  /** `_v1_span_text` */
  method ConvertSpans(spans: Json, safe: string -> LinkVerdict) returns (r: Result<(Line, bool)>)
    ensures r.Failure? <==> ViewSpans(spans, safe).None?
    ensures r.Success? ==> r.value == (SpanLine(ViewSpans(spans, safe).value), SpansLossy(ViewSpans(spans, safe).value))
  {
    hide Reads, ViewSpanList, ViewSpan, SpanLine, SpansLossy, SpanMarks, MarksLossy;
    if !spans.Arr? {
      return Failure;
    }
    var values := spans.items;
    var text, marks, offset, lossy := "", [], 0, false;
    ghost var done: seq<Span> := [];
    NoSpans();
    ReadsStart(ViewSpanList(values, safe));
    assert values[0..] == values;
    var i := 0;
    while i < |values|
      invariant 0 <= i <= |values|
      invariant Reads(ViewSpanList(values, safe), done, ViewSpanList(values[i..], safe))
      invariant Line(text, marks) == SpanLine(done) && offset == |text|
      invariant lossy == SpansLossy(done)
    {
      SpansNext(values, done, i, safe);
      var converted := ConvertSpan(values[i], offset, safe);
      if converted.Failure? {
        return Failure;
      }
      ghost var first := ViewSpan(values[i], safe).value;
      SpanLineStep(done, first);
      text := text + converted.value.0;
      marks := marks + converted.value.1;
      lossy := lossy || converted.value.2;
      offset := offset + |converted.value.0|;
      done := done + [first];
      i := i + 1;
    }
    SpansDone(values, done, i, safe);
    return Success((Line(text, marks), lossy));
  }

  lemma NoSpans()
    ensures SpanLine([]) == Line("", []) && !SpansLossy([])
  {
  }

  // ---------------------------------------------------------------- list items

  predicate AnyItemLossy(items: seq<Item>) {
    exists i | 0 <= i < |items| :: ItemLossy(items[i])
  }

  lemma ItemsStep(items: seq<Item>, last: Item, ordered: bool, depth: nat)
    ensures ItemsLines(items + [last], ordered, depth)
         == ItemsLines(items, ordered, depth) + ItemLines(last, ordered, depth, |items| + 1)
    ensures AnyItemLossy(items + [last]) <==> AnyItemLossy(items) || ItemLossy(last)
  {
    FrontOfSnoc(items, last);
    var all := items + [last];
    assert all[|items|] == last;
    if i :| 0 <= i < |items| && ItemLossy(items[i]) {
      assert ItemLossy(all[i]);
    }
  }

  /** `_v1_list_item_lines` */
  method ConvertItem(raw: Json, ordered: bool, depth: nat, ordinal: nat, safe: string -> LinkVerdict)
    returns (r: Result<(seq<Line>, bool)>)
    ensures r.Failure? <==> ViewItem(raw, safe).None?
    ensures r.Success? ==> var item := ViewItem(raw, safe).value;
      r.value == (ItemLines(item, ordered, depth, ordinal), ItemLossy(item))
    decreases raw, 0
  {
    if !raw.Obj? {
      return Failure;
    }
    var converted := ConvertSpans(Get(raw.fields, "spans", Null), safe);
    if converted.Failure? {
      return Failure;
    }
    var (line, lossy) := converted.value;
    var prefix := Prefix(ordered, depth, ordinal);
    var lines := [Line(prefix + line.text, Shift(line.marks, |prefix|))];
    if "children" !in raw.fields {
      assert lines + [] == lines;
      return Success((lines, lossy));
    }
    var children := raw.fields["children"];
    if !children.Arr? {
      return Failure;
    }
    var below := ConvertItems(children.items, ordered, depth + 1, safe);
    if below.Failure? {
      return Failure;
    }
    return Success((lines + below.value.0, lossy || below.value.1));
  }

  lemma ItemsNext(raw: seq<Json>, done: seq<Item>, i: nat, safe: string -> LinkVerdict)
    requires i < |raw| && Reads(ViewItems(raw, safe), done, ViewItems(raw[i..], safe))
    ensures ViewItem(raw[i], safe).None? ==> ViewItems(raw, safe).None?
    ensures ViewItem(raw[i], safe).Some? ==>
      Reads(ViewItems(raw, safe), done + [ViewItem(raw[i], safe).value], ViewItems(raw[i + 1..], safe))
  {
    hide ViewItem, Reads;
    assert raw[i..][0] == raw[i] && raw[i..][1..] == raw[i + 1..];
    ReadsNext(ViewItems(raw, safe), done, ViewItems(raw[i..], safe), ViewItem(raw[i], safe),
              ViewItems(raw[i + 1..], safe));
  }

  lemma ItemsDone(raw: seq<Json>, done: seq<Item>, i: nat, safe: string -> LinkVerdict)
    requires i == |raw| && Reads(ViewItems(raw, safe), done, ViewItems(raw[i..], safe))
    ensures ViewItems(raw, safe) == Some(done)
  {
    assert raw[i..] == [];
    ReadsEnd(ViewItems(raw, safe), done);
  }

  /** The loop over the items of a list, or over the children of an item; ordinals start at 1. */
  method ConvertItems(raw: seq<Json>, ordered: bool, depth: nat, safe: string -> LinkVerdict)
    returns (r: Result<(seq<Line>, bool)>)
    ensures r.Failure? <==> ViewItems(raw, safe).None?
    ensures r.Success? ==> var items := ViewItems(raw, safe).value;
      r.value == (ItemsLines(items, ordered, depth), AnyItemLossy(items))
    decreases raw, 1
  {
    hide Reads, ViewItems, ViewItem, ItemsLines, ItemLines, AnyItemLossy, ItemLossy;
    var lines, lossy := [], false;
    ghost var done: seq<Item> := [];
    NoItems(ordered, depth);
    ReadsStart(ViewItems(raw, safe));
    assert raw[0..] == raw;
    var i := 0;
    while i < |raw|
      invariant 0 <= i <= |raw|
      invariant Reads(ViewItems(raw, safe), done, ViewItems(raw[i..], safe))
      invariant |done| == i
      invariant lines == ItemsLines(done, ordered, depth) && lossy == AnyItemLossy(done)
    {
      ItemsNext(raw, done, i, safe);
      var converted := ConvertItem(raw[i], ordered, depth, i + 1, safe);
      if converted.Failure? {
        return Failure;
      }
      ghost var first := ViewItem(raw[i], safe).value;
      ItemsStep(done, first, ordered, depth);
      lines := lines + converted.value.0;
      lossy := lossy || converted.value.1;
      done := done + [first];
      i := i + 1;
    }
    ItemsDone(raw, done, i, safe);
    return Success((lines, lossy));
  }

  lemma NoItems(ordered: bool, depth: nat)
    ensures ItemsLines([], ordered, depth) == [] && !AnyItemLossy([])
  {
  }

  // ---------------------------------------------------------------- the document

  lemma BlocksStep(blocks: seq<Block>, last: Block)
    ensures BlocksLines(blocks + [last]) == BlocksLines(blocks) + BlockLines(last)
    ensures BlocksLossy(blocks + [last]) <==> BlocksLossy(blocks) || BlockLossy(last)
  {
    FrontOfSnoc(blocks, last);
    var all := blocks + [last];
    assert all[|blocks|] == last;
    if i :| 0 <= i < |blocks| && BlockLossy(blocks[i]) {
      assert BlockLossy(all[i]);
    }
  }

  method ConvertBlock(raw: Json, safe: string -> LinkVerdict) returns (r: Result<(seq<Line>, bool)>)
    ensures r.Failure? <==> ViewBlock(raw, safe).None?
    ensures r.Success? ==> r.value == (BlockLines(ViewBlock(raw, safe).value), BlockLossy(ViewBlock(raw, safe).value))
  {
    if !raw.Obj? {
      return Failure;
    }
    var kind := Get(raw.fields, "type", Null);
    if kind == Str("paragraph") {
      var converted := ConvertSpans(Get(raw.fields, "spans", Null), safe);
      if converted.Failure? {
        return Failure;
      }
      var aligned := Get(raw.fields, "align", Str("start")) == Str("start");
      return Success(([converted.value.0], converted.value.1 || !aligned));
    } else if kind == Str("list") {
      var ordered, items := Get(raw.fields, "ordered", Null), Get(raw.fields, "items", Null);
      if !ordered.Bool? || !items.Arr? {
        return Failure;
      }
      r := ConvertItems(items.items, ordered.b, 0, safe);
    } else {
      return Failure;
    }
  }

  lemma BlocksNext(raw: seq<Json>, done: seq<Block>, i: nat, safe: string -> LinkVerdict)
    requires i < |raw| && Reads(ViewBlocks(raw, safe), done, ViewBlocks(raw[i..], safe))
    ensures ViewBlock(raw[i], safe).None? ==> ViewBlocks(raw, safe).None?
    ensures ViewBlock(raw[i], safe).Some? ==>
      Reads(ViewBlocks(raw, safe), done + [ViewBlock(raw[i], safe).value], ViewBlocks(raw[i + 1..], safe))
  {
    hide ViewBlock, Reads;
    assert raw[i..][0] == raw[i] && raw[i..][1..] == raw[i + 1..];
    ReadsNext(ViewBlocks(raw, safe), done, ViewBlocks(raw[i..], safe), ViewBlock(raw[i], safe),
              ViewBlocks(raw[i + 1..], safe));
  }

  lemma BlocksDone(raw: seq<Json>, done: seq<Block>, i: nat, safe: string -> LinkVerdict)
    requires i == |raw| && Reads(ViewBlocks(raw, safe), done, ViewBlocks(raw[i..], safe))
    ensures ViewBlocks(raw, safe) == Some(done)
  {
    assert raw[i..] == [];
    ReadsEnd(ViewBlocks(raw, safe), done);
  }

  method ConvertBlocks(raw: seq<Json>, safe: string -> LinkVerdict) returns (r: Result<(seq<Line>, bool)>)
    ensures r.Failure? <==> ViewBlocks(raw, safe).None?
    ensures r.Success? ==> var blocks := ViewBlocks(raw, safe).value;
      r.value == (BlocksLines(blocks), BlocksLossy(blocks))
  {
    hide Reads, ViewBlocks, ViewBlock, BlocksLines, BlockLines, BlocksLossy, BlockLossy;
    var lines, lossy := [], false;
    ghost var done: seq<Block> := [];
    NoBlocks();
    ReadsStart(ViewBlocks(raw, safe));
    assert raw[0..] == raw;
    var i := 0;
    while i < |raw|
      invariant 0 <= i <= |raw|
      invariant Reads(ViewBlocks(raw, safe), done, ViewBlocks(raw[i..], safe))
      invariant lines == BlocksLines(done) && lossy == BlocksLossy(done)
    {
      BlocksNext(raw, done, i, safe);
      var converted := ConvertBlock(raw[i], safe);
      if converted.Failure? {
        return Failure;
      }
      ghost var first := ViewBlock(raw[i], safe).value;
      BlocksStep(done, first);
      lines := lines + converted.value.0;
      lossy := lossy || converted.value.1;
      done := done + [first];
      i := i + 1;
    }
    BlocksDone(raw, done, i, safe);
    return Success((lines, lossy));
  }

  lemma NoBlocks()
    ensures BlocksLines([]) == [] && !BlocksLossy([])
  {
  }

  /** The loop that joins the lines and moves their marks. */
  method JoinLines(lines: seq<Line>) returns (r: Line)
    ensures r == Join(lines)
  {
    var text, marks, offset := "", [], 0;
    var i := 0;
    ghost var done := [];
    while i < |lines|
      invariant 0 <= i == |done| <= |lines|
      invariant forall k | 0 <= k < i :: done[k] == lines[k]
      invariant Line(text, marks) == Join(done) && offset == |text|
    {
      FrontOfSnoc(done, lines[i]);
      if i > 0 {
        text := text + "\n";
        offset := offset + 1;
      }
      text := text + lines[i].text;
      marks := marks + Shift(lines[i].marks, offset);
      offset := offset + |lines[i].text|;
      done := done + [lines[i]];
      i := i + 1;
    }
    assert done == lines;
    r := Line(text, marks);
  }

  lemma DedupStep(marks: seq<Mark>, m: Mark)
    ensures Dedup(marks + [m]) == if m !in Dedup(marks) && m.start < m.end then Dedup(marks) + [m] else Dedup(marks)
  {
    FrontOfSnoc(marks, m);
  }

  /** The loop that drops repeated and empty marks. */
  method DropDuplicates(marks: seq<Mark>) returns (r: seq<Mark>)
    ensures r == Dedup(marks)
  {
    r := [];
    var identities: set<Mark> := {};
    var i := 0;
    ghost var done := [];
    while i < |marks|
      invariant 0 <= i == |done| <= |marks|
      invariant forall k | 0 <= k < i :: done[k] == marks[k]
      invariant r == Dedup(done)
      invariant forall m :: m in identities <==> m in r
    {
      DedupStep(done, marks[i]);
      if marks[i] !in identities && marks[i].start < marks[i].end {
        identities := identities + {marks[i]};
        r := r + [marks[i]];
      }
      done := done + [marks[i]];
      i := i + 1;
    }
    assert done == marks;
  }

  /** `_convert_rich_text`: NULL stays NULL; a malformed value aborts; any other value becomes the
      converted form of the document it describes. */
  method ConvertRichText(value: Json, safe: string -> LinkVerdict) returns (r: Result<(Option<Line>, bool)>)
    ensures value.Null? ==> r == Success((None, false))
    ensures !value.Null? ==> (r.Failure? <==> ViewRich(value, safe).None?)
    ensures !value.Null? && r.Success? ==>
      var (out, lossy) := Converted(ViewRich(value, safe).value);
      r.value == (Some(out), lossy)
  {
    if value.Null? {
      return Success((None, false));
    }
    if !value.Obj? || Get(value.fields, "schema_version", Null) != Str("1.0") {
      return Failure;
    }
    var blocks := Get(value.fields, "blocks", Null);
    if !blocks.Arr? {
      return Failure;
    }
    var lossy := HasExtras(value.fields);
    var converted := ConvertBlocks(blocks.items, safe);
    if converted.Failure? {
      return Failure;
    }
    lossy := lossy || converted.value.1;
    var out := JoinLines(converted.value.0);
    if |out.text| > MAX_TEXT {
      out := Line(out.text[..MAX_TEXT], CutMarks(out.marks));
      lossy := true;
    }
    var unique := DropDuplicates(out.marks);
    if |unique| > MAX_MARKS {
      unique := unique[..MAX_MARKS];
      lossy := true;
    }
    return Success((Some(Line(out.text, unique)), lossy));
  }
}

/** V1 documents written as JSON, key by key, and what reading them gives back.

    A document has many spellings: keys with a default may be left out, and unknown mark types, refused
    links, other alignments and additional keys may be any JSON.  All of them read as that document. */
module V1Writing {
  import opened Basics
  import opened V1RichText

  /** What a spelling is free to choose; `sparse` leaves out every key that has a default. */
  datatype Spelling = Spelling(
    sparse: bool,
    otherType: Json,
    refusedHref: Json,
    otherAlign: Json,
    extraKey: string,
    extraValue: Json)

  predicate SpellingOk(sp: Spelling, safe: string -> LinkVerdict) {
    && sp.otherType != Str("bold") && sp.otherType != Str("italic") && sp.otherType != Str("link")
    && (sp.refusedHref.Str? ==> safe(sp.refusedHref.s) == Refused)
    && sp.otherAlign != Str("start")
    && sp.extraKey != "schema_version" && sp.extraKey != "blocks"
    && (sp.extraKey == "plain_text" ==> sp.extraValue != Null && sp.extraValue != Str(""))
  }

  function WriteMark(m: SourceMark, sp: Spelling): Json {
    match m
    case Bold => Obj(map["type" := Str("bold")])
    case Italic => Obj(map["type" := Str("italic")])
    case Linked(Some(href)) => Obj(map["type" := Str("link"), "href" := Str(href)])
    case Linked(None) => Obj(map["type" := Str("link"), "href" := sp.refusedHref])
    case Unmapped => Obj(map["type" := sp.otherType])
  }

  function WriteMarks(marks: seq<SourceMark>, sp: Spelling): seq<Json> {
    if marks == [] then [] else [WriteMark(marks[0], sp)] + WriteMarks(marks[1..], sp)
  }

  function WriteSpan(span: Span, sp: Spelling): Json {
    if sp.sparse && span.marks == [] then Obj(map["text" := Str(span.text)])
    else Obj(map["text" := Str(span.text), "marks" := Arr(WriteMarks(span.marks, sp))])
  }

  function WriteSpans(spans: seq<Span>, sp: Spelling): seq<Json> {
    if spans == [] then [] else [WriteSpan(spans[0], sp)] + WriteSpans(spans[1..], sp)
  }

  function WriteItem(item: Item, sp: Spelling): Json
    decreases item, 0
  {
    if sp.sparse && item.children == [] then Obj(map["spans" := Arr(WriteSpans(item.spans, sp))])
    else Obj(map["spans" := Arr(WriteSpans(item.spans, sp)), "children" := Arr(WriteItems(item.children, sp))])
  }

  function WriteItems(items: seq<Item>, sp: Spelling): seq<Json>
    decreases items, 1
  {
    if items == [] then [] else [WriteItem(items[0], sp)] + WriteItems(items[1..], sp)
  }

  function WriteBlock(block: Block, sp: Spelling): Json {
    match block
    case Paragraph(spans, aligned) =>
      if sp.sparse && aligned then Obj(map["type" := Str("paragraph"), "spans" := Arr(WriteSpans(spans, sp))])
      else Obj(map["type" := Str("paragraph"), "spans" := Arr(WriteSpans(spans, sp)),
                   "align" := if aligned then Str("start") else sp.otherAlign])
    case Listing(ordered, items) =>
      Obj(map["type" := Str("list"), "ordered" := Bool(ordered), "items" := Arr(WriteItems(items, sp))])
  }

  function WriteBlocks(blocks: seq<Block>, sp: Spelling): seq<Json> {
    if blocks == [] then [] else [WriteBlock(blocks[0], sp)] + WriteBlocks(blocks[1..], sp)
  }

  function WriteRich(rich: Rich, sp: Spelling): Json {
    var fields := map["schema_version" := Str("1.0"), "blocks" := Arr(WriteBlocks(rich.blocks, sp))];
    if rich.extras then Obj(fields[sp.extraKey := sp.extraValue])
    else if sp.sparse then Obj(fields)
    else Obj(fields["plain_text" := Str("")])
  }

  /** A span that V1 allows: short enough, and every link it keeps passes the filter. */
  predicate SpanFits(span: Span, safe: string -> LinkVerdict) {
    && |span.text| <= 20_000
    && forall i | 0 <= i < |span.marks| :: MarkFits(span.marks[i], safe)
  }

  predicate MarkFits(m: SourceMark, safe: string -> LinkVerdict) {
    m.Linked? && m.href.Some? ==> safe(m.href.value) == Accepted
  }

  predicate AllFit(spans: seq<Span>, safe: string -> LinkVerdict) {
    forall i | 0 <= i < |spans| :: SpanFits(spans[i], safe)
  }

  // ---------------------------------------------------------------- reading what was written

  lemma KeysDiffer()
    ensures "type" != "href" && "spans" != "align" && "bold" != "link" && "spans" != "items"
  {
    assert "type"[0] != "href"[0] && "spans"[0] != "align"[0] && "bold"[0] != "link"[0] && "spans"[0] != "items"[0];
  }

  lemma MarkReadBack(m: SourceMark, sp: Spelling, safe: string -> LinkVerdict)
    requires SpellingOk(sp, safe) && MarkFits(m, safe)
    ensures ViewMark(WriteMark(m, sp), safe) == Some(m)
  {
    KeysDiffer();
  }

  lemma {:induction false} MarksReadBack(marks: seq<SourceMark>, sp: Spelling, safe: string -> LinkVerdict)
    requires SpellingOk(sp, safe) && forall i | 0 <= i < |marks| :: MarkFits(marks[i], safe)
    ensures ViewMarks(WriteMarks(marks, sp), safe) == Some(marks)
  {
    if marks != [] {
      hide ViewMark, WriteMark, SpellingOk;
      MarkReadBack(marks[0], sp, safe);
      MarksReadBack(marks[1..], sp, safe);
      assert WriteMarks(marks, sp)[1..] == WriteMarks(marks[1..], sp);
      assert marks == [marks[0]] + marks[1..];
    }
  }

  lemma SpanReadBack(span: Span, sp: Spelling, safe: string -> LinkVerdict)
    requires SpellingOk(sp, safe) && SpanFits(span, safe)
    ensures ViewSpan(WriteSpan(span, sp), safe) == Some(span)
  {
    hide SpellingOk, WriteMark, ViewMark;
    MarksReadBack(span.marks, sp, safe);
  }

  lemma {:induction false} SpansReadBack(spans: seq<Span>, sp: Spelling, safe: string -> LinkVerdict)
    requires SpellingOk(sp, safe) && AllFit(spans, safe)
    ensures ViewSpanList(WriteSpans(spans, sp), safe) == Some(spans)
  {
    if spans != [] {
      hide ViewSpan, WriteSpan, SpellingOk;
      SpanReadBack(spans[0], sp, safe);
      SpansReadBack(spans[1..], sp, safe);
      assert WriteSpans(spans, sp)[1..] == WriteSpans(spans[1..], sp);
      assert spans == [spans[0]] + spans[1..];
    }
  }

  lemma FitsApart(a: seq<Span>, b: seq<Span>, safe: string -> LinkVerdict)
    ensures AllFit(a + b, safe) <==> AllFit(a, safe) && AllFit(b, safe)
  {
    hide SpanFits;
    assert forall i | 0 <= i < |a| :: (a + b)[i] == a[i];
    assert forall i | 0 <= i < |b| :: (a + b)[|a| + i] == b[i];
  }

  lemma {:induction false} ItemReadBack(item: Item, sp: Spelling, safe: string -> LinkVerdict)
    requires SpellingOk(sp, safe) && AllFit(ItemSpans(item), safe)
    ensures ViewItem(WriteItem(item, sp), safe) == Some(item)
    decreases item, 0
  {
    hide AllFit, SpellingOk, WriteSpans, ViewSpanList, WriteItems, ViewItems;
    FitsApart(item.spans, ItemsSpans(item.children), safe);
    SpansReadBack(item.spans, sp, safe);
    ItemsReadBack(item.children, sp, safe);
  }

  lemma {:induction false} ItemsReadBack(items: seq<Item>, sp: Spelling, safe: string -> LinkVerdict)
    requires SpellingOk(sp, safe) && AllFit(ItemsSpans(items), safe)
    ensures ViewItems(WriteItems(items, sp), safe) == Some(items)
    decreases items, 1
  {
    if items != [] {
      hide AllFit, SpellingOk, WriteItem, ViewItem, ItemSpans;
      FitsApart(ItemSpans(items[0]), ItemsSpans(items[1..]), safe);
      ItemReadBack(items[0], sp, safe);
      ItemsReadBack(items[1..], sp, safe);
      assert WriteItems(items, sp)[1..] == WriteItems(items[1..], sp);
      assert items == [items[0]] + items[1..];
    }
  }

  lemma BlockReadBack(block: Block, sp: Spelling, safe: string -> LinkVerdict)
    requires SpellingOk(sp, safe) && AllFit(BlockSpans(block), safe)
    ensures ViewBlock(WriteBlock(block, sp), safe) == Some(block)
  {
    hide AllFit, WriteSpans, ViewSpanList, WriteItems, ViewItems;
    KeysDiffer();
    match block
    case Paragraph(spans, _) => SpansReadBack(spans, sp, safe);
    case Listing(_, items) => ItemsReadBack(items, sp, safe);
  }

  lemma {:induction false} BlocksReadBack(blocks: seq<Block>, sp: Spelling, safe: string -> LinkVerdict)
    requires SpellingOk(sp, safe) && AllFit(SourceSpans(blocks), safe)
    ensures ViewBlocks(WriteBlocks(blocks, sp), safe) == Some(blocks)
  {
    if blocks != [] {
      hide AllFit, SpellingOk, WriteBlock, ViewBlock, BlockSpans;
      FitsApart(BlockSpans(blocks[0]), SourceSpans(blocks[1..]), safe);
      BlockReadBack(blocks[0], sp, safe);
      BlocksReadBack(blocks[1..], sp, safe);
      assert WriteBlocks(blocks, sp)[1..] == WriteBlocks(blocks[1..], sp);
      assert blocks == [blocks[0]] + blocks[1..];
    }
  }

  /** Every document that V1 allows, at every depth and in every spelling, is read back as it was written. */
  lemma RichReadBack(rich: Rich, sp: Spelling, safe: string -> LinkVerdict)
    requires SpellingOk(sp, safe) && AllFit(SourceSpans(rich.blocks), safe)
    ensures ViewRich(WriteRich(rich, sp), safe) == Some(rich)
  {
    hide AllFit, SourceSpans, WriteBlocks, ViewBlocks;
    BlocksReadBack(rich.blocks, sp, safe);
    var fields := WriteRich(rich, sp).fields;
    if rich.extras {
      assert sp.extraKey in fields && fields[sp.extraKey] == sp.extraValue;
    }
  }

  // ---------------------------------------------------------------- what can be read at all

  /** The value is an object, and if it is a link its URL can be parsed. */
  predicate MarkReads(j: Json, safe: string -> LinkVerdict) {
    && j.Obj?
    && (("type" in j.fields && j.fields["type"] == Str("link") && "href" in j.fields && j.fields["href"].Str?) ==>
          safe(j.fields["href"].s) != Malformed)
  }

  /** A list of such values; an empty string or object passes as an empty list. */
  predicate MarkListReads(j: Json, safe: string -> LinkVerdict) {
    || (j.Arr? && forall i | 0 <= i < |j.items| :: MarkReads(j.items[i], safe))
    || j == Str("")
    || j == Obj(map[])
  }

  predicate SpanReads(j: Json, safe: string -> LinkVerdict) {
    && j.Obj?
    && "text" in j.fields && j.fields["text"].Str? && |j.fields["text"].s| <= 20_000
    && ("marks" in j.fields ==> MarkListReads(j.fields["marks"], safe))
  }

  predicate SpansRead(j: Json, safe: string -> LinkVerdict) {
    j.Arr? && forall i | 0 <= i < |j.items| :: SpanReads(j.items[i], safe)
  }

  predicate ItemReads(j: Json, safe: string -> LinkVerdict)
    decreases j
  {
    && j.Obj?
    && "spans" in j.fields && SpansRead(j.fields["spans"], safe)
    && ("children" in j.fields ==>
          && j.fields["children"].Arr?
          && forall i | 0 <= i < |j.fields["children"].items| :: ItemReads(j.fields["children"].items[i], safe))
  }

  predicate BlockReads(j: Json, safe: string -> LinkVerdict) {
    && j.Obj? && "type" in j.fields
    && (|| (&& j.fields["type"] == Str("paragraph")
            && "spans" in j.fields && SpansRead(j.fields["spans"], safe))
        || (&& j.fields["type"] == Str("list")
            && "ordered" in j.fields && j.fields["ordered"].Bool?
            && "items" in j.fields && j.fields["items"].Arr?
            && forall i | 0 <= i < |j.fields["items"].items| :: ItemReads(j.fields["items"].items[i], safe)))
  }

  predicate RichReads(j: Json, safe: string -> LinkVerdict) {
    && j.Obj? && "schema_version" in j.fields && j.fields["schema_version"] == Str("1.0")
    && "blocks" in j.fields && j.fields["blocks"].Arr?
    && forall i | 0 <= i < |j.fields["blocks"].items| :: BlockReads(j.fields["blocks"].items[i], safe)
  }

  lemma {:induction false} MarksViewed(js: seq<Json>, safe: string -> LinkVerdict)
    ensures ViewMarks(js, safe).Some? <==> forall i | 0 <= i < |js| :: MarkReads(js[i], safe)
    ensures ViewMarks(js, safe).Some? ==>
      forall i | 0 <= i < |ViewMarks(js, safe).value| :: MarkFits(ViewMarks(js, safe).value[i], safe)
  {
    if js != [] {
      var first, rest := js[0], js[1..];
      assert ViewMark(first, safe).Some? <==> MarkReads(first, safe);
      assert ViewMark(first, safe).Some? ==> MarkFits(ViewMark(first, safe).value, safe);
      MarksViewed(rest, safe);
      hide ViewMark, MarkReads, MarkFits;
      assert forall i | 1 <= i < |js| :: js[i] == rest[i - 1];
    }
  }

  lemma MarkListViewed(j: Json, safe: string -> LinkVerdict)
    ensures MarkListReads(j, safe) <==> Iterate(j).Some? && ViewMarks(Iterate(j).value, safe).Some?
  {
    if Iterate(j).Some? {
      var raw := Iterate(j).value;
      MarksViewed(raw, safe);
      if raw != [] && !j.Arr? {
        assert raw[0].Str?;
      }
    }
  }

  lemma SpanViewed(j: Json, safe: string -> LinkVerdict)
    ensures ViewSpan(j, safe).Some? <==> SpanReads(j, safe)
    ensures ViewSpan(j, safe).Some? ==> SpanFits(ViewSpan(j, safe).value, safe)
  {
    if j.Obj? {
      var marks := Get(j.fields, "marks", Arr([]));
      MarkListViewed(marks, safe);
      assert "marks" !in j.fields ==> MarkListReads(marks, safe);
      if Iterate(marks).Some? {
        MarksViewed(Iterate(marks).value, safe);
      }
      hide ViewMarks, MarkListReads, Iterate;
    }
  }

  lemma {:induction false} SpanListViewed(js: seq<Json>, safe: string -> LinkVerdict)
    ensures ViewSpanList(js, safe).Some? <==> forall i | 0 <= i < |js| :: SpanReads(js[i], safe)
    ensures ViewSpanList(js, safe).Some? ==> AllFit(ViewSpanList(js, safe).value, safe)
  {
    if js != [] {
      hide ViewSpan, SpanReads, SpanFits;
      SpanViewed(js[0], safe);
      SpanListViewed(js[1..], safe);
      assert forall i | 1 <= i < |js| :: js[i] == js[1..][i - 1];
    }
  }

  lemma SpansViewed(fields: map<string, Json>, safe: string -> LinkVerdict)
    ensures var spans := ViewSpans(Get(fields, "spans", Null), safe);
      && (spans.Some? <==> "spans" in fields && SpansRead(fields["spans"], safe))
      && (spans.Some? ==> AllFit(spans.value, safe))
  {
    var j := Get(fields, "spans", Null);
    if j.Arr? {
      SpanListViewed(j.items, safe);
    }
  }

  lemma {:induction false} ItemViewed(j: Json, safe: string -> LinkVerdict)
    ensures ViewItem(j, safe).Some? <==> ItemReads(j, safe)
    ensures ViewItem(j, safe).Some? ==> AllFit(ItemSpans(ViewItem(j, safe).value), safe)
    decreases j, 0
  {
    if j.Obj? {
      SpansViewed(j.fields, safe);
      hide AllFit, SpansRead, ViewSpans;
      FitsApart([], [], safe);
      if "children" in j.fields && j.fields["children"].Arr? {
        ItemsViewed(j.fields["children"].items, safe);
      }
      if ViewItem(j, safe).Some? {
        var item := ViewItem(j, safe).value;
        FitsApart(item.spans, ItemsSpans(item.children), safe);
        NothingFits(safe);
      }
    }
  }

  lemma NothingFits(safe: string -> LinkVerdict)
    ensures AllFit(ItemsSpans([]), safe)
  {
  }

  lemma {:induction false} ItemsViewed(js: seq<Json>, safe: string -> LinkVerdict)
    ensures ViewItems(js, safe).Some? <==> forall i | 0 <= i < |js| :: ItemReads(js[i], safe)
    ensures ViewItems(js, safe).Some? ==> AllFit(ItemsSpans(ViewItems(js, safe).value), safe)
    decreases js, 1
  {
    if js == [] {
      NothingFits(safe);
    } else {
      hide ViewItem, ItemReads, AllFit, ItemSpans;
      ItemViewed(js[0], safe);
      ItemsViewed(js[1..], safe);
      assert forall i | 1 <= i < |js| :: js[i] == js[1..][i - 1];
      if ViewItems(js, safe).Some? {
        var first, rest := ViewItem(js[0], safe).value, ViewItems(js[1..], safe).value;
        assert ([first] + rest)[1..] == rest;
        FitsApart(ItemSpans(first), ItemsSpans(rest), safe);
      }
    }
  }

  lemma BlockViewed(j: Json, safe: string -> LinkVerdict)
    ensures ViewBlock(j, safe).Some? <==> BlockReads(j, safe)
    ensures ViewBlock(j, safe).Some? ==> AllFit(BlockSpans(ViewBlock(j, safe).value), safe)
  {
    if j.Obj? {
      assert "paragraph" != "list";
      SpansViewed(j.fields, safe);
      hide AllFit, SpansRead, ViewSpans, ItemReads, ViewItems, ItemsSpans;
      var items := Get(j.fields, "items", Null);
      if items.Arr? {
        ItemsViewed(items.items, safe);
      }
    }
  }

  lemma {:induction false} BlocksViewed(js: seq<Json>, safe: string -> LinkVerdict)
    ensures ViewBlocks(js, safe).Some? <==> forall i | 0 <= i < |js| :: BlockReads(js[i], safe)
    ensures ViewBlocks(js, safe).Some? ==> AllFit(SourceSpans(ViewBlocks(js, safe).value), safe)
  {
    if js != [] {
      hide ViewBlock, BlockReads, AllFit, BlockSpans;
      BlockViewed(js[0], safe);
      BlocksViewed(js[1..], safe);
      assert forall i | 1 <= i < |js| :: js[i] == js[1..][i - 1];
      if ViewBlocks(js, safe).Some? {
        var first, rest := ViewBlock(js[0], safe).value, ViewBlocks(js[1..], safe).value;
        assert ([first] + rest)[1..] == rest;
        FitsApart(BlockSpans(first), SourceSpans(rest), safe);
      }
    }
  }

  /** Exactly the values that meet the V1 shape at every depth are read, all others abort; and whatever
      is read is a document that V1 allows. */
  lemma RichViewedIff(j: Json, safe: string -> LinkVerdict)
    ensures ViewRich(j, safe).Some? <==> RichReads(j, safe)
    ensures ViewRich(j, safe).Some? ==> AllFit(SourceSpans(ViewRich(j, safe).value.blocks), safe)
  {
    if j.Obj? && Get(j.fields, "blocks", Null).Arr? {
      hide AllFit, BlockReads, ViewBlocks, SourceSpans, HasExtras;
      BlocksViewed(j.fields["blocks"].items, safe);
    }
  }
}

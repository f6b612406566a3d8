/** The block-based V1 RichText value: the JSON it is stored as, and the document that JSON describes.

    `View...` reads a JSON value as a V1 document.  None means that the migration aborts on it. */
module V1RichText {
  import opened Basics

  datatype Json =
    | Null
    | Bool(b: bool)
    | Int(i: int)
    | Num(n: real)  // any number that Python does not read as an int
    | Str(s: string)
    | Arr(items: seq<Json>)
    | Obj(fields: map<string, Json>)

  /** What the link filter says of a URL string; parsing a malformed one aborts. */
  datatype LinkVerdict = Accepted | Refused | Malformed

  datatype Kind = Strong | Emphasis | Link

  /** One mark of a V1 span: of an unknown type, a style, or a link with the URL it may keep. */
  datatype SourceMark = Unmapped | Bold | Italic | Linked(href: Option<string>)

  datatype Span = Span(text: string, marks: seq<SourceMark>)

  datatype Item = Item(spans: seq<Span>, children: seq<Item>)

  datatype Block =
    | Paragraph(spans: seq<Span>, startAligned: bool)
    | Listing(ordered: bool, items: seq<Item>)

  /** `extras`: the value has plain_text or unknown keys, which V2 does not keep. */
  datatype Rich = Rich(blocks: seq<Block>, extras: bool)

  const MAX_TEXT: nat := 20_000
  const MAX_MARKS: nat := 1_000

  /** `value.get(key, default)` on an object. */
  function Get(fields: map<string, Json>, key: string, default: Json): Json {
    if key in fields then fields[key] else default
  }

  /** What the value holds at a path of keys; None where a key is missing. */
  function At(j: Json, path: seq<string>): Option<Json> {
    if path == [] then Some(j)
    else if j.Obj? && path[0] in j.fields then At(j.fields[path[0]], path[1..])
    else None
  }

  lemma {:induction false} AtSnoc(j: Json, path: seq<string>, key: string)
    ensures At(j, path + [key])
         == if At(j, path).Some? && At(j, path).value.Obj? && key in At(j, path).value.fields
            then Some(At(j, path).value.fields[key]) else None
  {
    if path == [] {
      assert path + [key] == [key] && [key][1..] == [];
    } else {
      assert (path + [key])[1..] == path[1..] + [key];
      if j.Obj? && path[0] in j.fields {
        AtSnoc(j.fields[path[0]], path[1..], key);
      }
    }
  }

  /** The elements that a `for` loop over the value yields; None when it cannot be iterated.  A string
      yields its characters.  An object yields its keys; one string stands for them here, because all
      that follows from a key is that it is a string and so no mark. */
  function Iterate(j: Json): Option<seq<Json>> {
    match j
    case Arr(items) => Some(items)
    case Str(s) => Some(seq(|s|, i requires 0 <= i < |s| => Str([s[i]])))
    case Obj(fields) => if fields == map[] then Some([]) else Some([Str("")])
    case _ => None
  }

  function ViewLink(j: Json, safe: string -> LinkVerdict): Option<Option<string>> {
    if !j.Str? then Some(None)
    else match safe(j.s)
      case Accepted => Some(Some(j.s))
      case Refused => Some(None)
      case Malformed => None
  }

  function ViewMark(j: Json, safe: string -> LinkVerdict): Option<SourceMark> {
    if !j.Obj? then None
    else
      var kind := Get(j.fields, "type", Null);
      if kind == Str("bold") then Some(Bold)
      else if kind == Str("italic") then Some(Italic)
      else if kind == Str("link") then
        match ViewLink(Get(j.fields, "href", Null), safe)
        case None => None
        case Some(href) => Some(Linked(href))
      else Some(Unmapped)
  }

  function ViewMarks(js: seq<Json>, safe: string -> LinkVerdict): Option<seq<SourceMark>> {
    if js == [] then Some([])
    else
      var first, rest := ViewMark(js[0], safe), ViewMarks(js[1..], safe);
      if first.None? || rest.None? then None else Some([first.value] + rest.value)
  }

  function ViewSpan(j: Json, safe: string -> LinkVerdict): Option<Span> {
    if !j.Obj? then None
    else
      var text := Get(j.fields, "text", Null);
      if !text.Str? || |text.s| > MAX_TEXT then None
      else
        var raw := Iterate(Get(j.fields, "marks", Arr([])));
        if raw.None? then None
        else
          var marks := ViewMarks(raw.value, safe);
          if marks.None? then None else Some(Span(text.s, marks.value))
  }

  function ViewSpanList(js: seq<Json>, safe: string -> LinkVerdict): Option<seq<Span>> {
    if js == [] then Some([])
    else
      var first, rest := ViewSpan(js[0], safe), ViewSpanList(js[1..], safe);
      if first.None? || rest.None? then None else Some([first.value] + rest.value)
  }

  function ViewSpans(j: Json, safe: string -> LinkVerdict): Option<seq<Span>> {
    if j.Arr? then ViewSpanList(j.items, safe) else None
  }

  function ViewItem(j: Json, safe: string -> LinkVerdict): Option<Item>
    decreases j, 0
  {
    if !j.Obj? then None
    else
      var spans := ViewSpans(Get(j.fields, "spans", Null), safe);
      if spans.None? then None
      else if "children" !in j.fields then Some(Item(spans.value, []))
      else if !j.fields["children"].Arr? then None
      else
        var children := ViewItems(j.fields["children"].items, safe);
        if children.None? then None else Some(Item(spans.value, children.value))
  }

  function ViewItems(js: seq<Json>, safe: string -> LinkVerdict): Option<seq<Item>>
    decreases js, 1
  {
    if js == [] then Some([])
    else
      var first, rest := ViewItem(js[0], safe), ViewItems(js[1..], safe);
      if first.None? || rest.None? then None else Some([first.value] + rest.value)
  }

  function ViewBlock(j: Json, safe: string -> LinkVerdict): Option<Block> {
    if !j.Obj? then None
    else
      var kind := Get(j.fields, "type", Null);
      if kind == Str("paragraph") then
        var spans := ViewSpans(Get(j.fields, "spans", Null), safe);
        if spans.None? then None
        else Some(Paragraph(spans.value, Get(j.fields, "align", Str("start")) == Str("start")))
      else if kind == Str("list") then
        var ordered, items := Get(j.fields, "ordered", Null), Get(j.fields, "items", Null);
        if !ordered.Bool? || !items.Arr? then None
        else
          var listed := ViewItems(items.items, safe);
          if listed.None? then None else Some(Listing(ordered.b, listed.value))
      else None
  }

  function ViewBlocks(js: seq<Json>, safe: string -> LinkVerdict): Option<seq<Block>> {
    if js == [] then Some([])
    else
      var first, rest := ViewBlock(js[0], safe), ViewBlocks(js[1..], safe);
      if first.None? || rest.None? then None else Some([first.value] + rest.value)
  }

  predicate HasExtras(fields: map<string, Json>) {
    || Get(fields, "plain_text", Null) !in [Null, Str("")]
    || exists k | k in fields :: k !in ["schema_version", "blocks", "plain_text"]
  }

  /** A non-null RichText value. */
  function ViewRich(j: Json, safe: string -> LinkVerdict): Option<Rich> {
    if !j.Obj? || Get(j.fields, "schema_version", Null) != Str("1.0") then None
    else
      var blocks := Get(j.fields, "blocks", Null);
      if !blocks.Arr? then None
      else
        var viewed := ViewBlocks(blocks.items, safe);
        if viewed.None? then None else Some(Rich(viewed.value, HasExtras(j.fields)))
  }

  // ---------------------------------------------------------------- the spans of a document

  function ItemSpans(item: Item): seq<Span>
    decreases item, 0
  {
    item.spans + ItemsSpans(item.children)
  }

  function ItemsSpans(items: seq<Item>): seq<Span>
    decreases items, 1
  {
    if items == [] then [] else ItemSpans(items[0]) + ItemsSpans(items[1..])
  }

  function BlockSpans(block: Block): seq<Span> {
    match block
    case Paragraph(spans, _) => spans
    case Listing(_, items) => ItemsSpans(items)
  }

  /** Every span of the document, at every depth, in reading order. */
  function SourceSpans(blocks: seq<Block>): seq<Span> {
    if blocks == [] then [] else BlockSpans(blocks[0]) + SourceSpans(blocks[1..])
  }
}

/** Flattening a list loses nothing: its lines give back the whole forest of items.

    A reader of the lines counts two spaces per level, reads the marker, and nests every
    deeper line under the nearest shallower one before it. */
module ListOutline {
  import opened Basics
  import opened V1RichText
  import opened RichText

  /** A list item as a reader sees it: its marker, its text, its sub-items. */
  datatype Tree = Tree(marker: string, text: string, children: seq<Tree>)

  /** One line as a reader sees it. */
  datatype Entry = Entry(depth: nat, marker: string, text: string)

  /** The forest that a V1 list describes. */
  function Outline(item: Item, ordered: bool, ordinal: nat): Tree
    decreases item, 0
  {
    Tree(Marker(ordered, ordinal), SpanLine(item.spans).text, Outlines(item.children, ordered))
  }

  function Outlines(items: seq<Item>, ordered: bool): seq<Tree>
    decreases items, 1
  {
    if items == [] then []
    else
      var init, last := items[..|items| - 1], items[|items| - 1];
      Outlines(init, ordered) + [Outline(last, ordered, |items|)]
  }

  // ---------------------------------------------------------------- reading one line

  function LeadingSpaces(s: string): (n: nat)
    ensures n <= |s|
  {
    if s != "" && s[0] == ' ' then 1 + LeadingSpaces(s[1..]) else 0
  }

  function LeadingDigits(s: string): (n: nat)
    ensures n <= |s|
  {
    if s != "" && Digit(s[0]) then 1 + LeadingDigits(s[1..]) else 0
  }

  /** Two spaces per level, then a bullet or a number with its dot, a blank, and the text. */
  function ReadLine(s: string): Entry {
    var spaces := LeadingSpaces(s);
    var body := s[spaces..];
    var width := Min(LeadingDigits(body) + 2, |body|);
    Entry(spaces / 2, body[..width], body[width..])
  }

  lemma {:induction false} SpacesRead(n: nat, rest: string)
    requires rest == "" || rest[0] != ' '
    ensures LeadingSpaces(Spaces(n) + rest) == n
  {
    var s := Spaces(n) + rest;
    if n == 0 {
      assert s == rest;
    } else {
      SpacesRead(n - 1, rest);
      assert s[0] == ' ';
      assert s[1..] == Spaces(n - 1) + rest;
    }
  }

  lemma {:induction false} DigitsRead(digits: string, rest: string)
    requires forall i | 0 <= i < |digits| :: Digit(digits[i])
    requires rest == "" || !Digit(rest[0])
    ensures LeadingDigits(digits + rest) == |digits|
  {
    var s := digits + rest;
    if digits == "" {
      assert s == rest;
    } else {
      DigitsRead(digits[1..], rest);
      assert s[0] == digits[0];
      assert s[1..] == digits[1..] + rest;
    }
  }

  lemma {:induction false} DecimalDigits(n: nat)
    ensures forall i | 0 <= i < |Decimal(n)| :: Digit(Decimal(n)[i])
    decreases n
  {
    if n >= 10 {
      DecimalDigits(n / 10);
    }
  }

  lemma MarkerRead(ordered: bool, ordinal: nat, text: string)
    ensures var body := Marker(ordered, ordinal) + text;
      LeadingDigits(body) + 2 == |Marker(ordered, ordinal)| && body != "" && body[0] != ' '
  {
    if ordered {
      DecimalDigits(ordinal);
      DigitsRead(Decimal(ordinal), ". " + text);
      assert Marker(ordered, ordinal) + text == Decimal(ordinal) + (". " + text);
      assert Digit(Decimal(ordinal)[0]);
    } else {
      assert (Marker(ordered, ordinal) + text)[0] == '•';
    }
  }

  /** A line is read back as what it was written from, whatever its text. */
  lemma LineRead(ordered: bool, depth: nat, ordinal: nat, text: string)
    ensures ReadLine(Prefix(ordered, depth, ordinal) + text) == Entry(depth, Marker(ordered, ordinal), text)
  {
    var marker := Marker(ordered, ordinal);
    var body := marker + text;
    var s := Spaces(2 * depth) + body;
    assert Prefix(ordered, depth, ordinal) + text == s;
    MarkerRead(ordered, ordinal, text);
    SpacesRead(2 * depth, body);
    assert s[2 * depth..] == body;
    assert body[..|marker|] == marker && body[|marker|..] == text;
  }

  /** The number that a text of digits denotes. */
  function NumberOf(digits: string): int {
    if digits == "" then 0
    else 10 * NumberOf(digits[..|digits| - 1]) + (digits[|digits| - 1] as int - '0' as int)
  }

  lemma {:induction false} DecimalDenotes(n: nat)
    ensures NumberOf(Decimal(n)) == n && (n > 0 ==> Decimal(n)[0] != '0')
    decreases n
  {
    if n >= 10 {
      DecimalDenotes(n / 10);
      FrontOfSnoc(Decimal(n / 10), DigitChar(n % 10));
    }
  }

  /** An ordered marker is its ordinal in decimal digits, without leading zeros, with a dot and a blank;
      any other is a bullet and a blank. */
  lemma MarkerDenotes(ordered: bool, ordinal: nat)
    ensures !ordered ==> Marker(ordered, ordinal) == "• "
    ensures ordered ==>
      var m := Marker(ordered, ordinal);
      && |m| > 2 && m[|m| - 2..] == ". "
      && (forall i | 0 <= i < |m| - 2 :: Digit(m[i]))
      && NumberOf(m[..|m| - 2]) == ordinal && (ordinal > 0 ==> m[0] != '0')
  {
    if ordered {
      DecimalDigits(ordinal);
      DecimalDenotes(ordinal);
      assert (Decimal(ordinal) + ". ")[..|Decimal(ordinal)|] == Decimal(ordinal);
    }
  }

  // ---------------------------------------------------------------- entries of a forest

  function TreeEntries(t: Tree, depth: nat): seq<Entry>
    decreases t, 0
  {
    [Entry(depth, t.marker, t.text)] + ForestEntries(t.children, depth + 1)
  }

  function ForestEntries(ts: seq<Tree>, depth: nat): seq<Entry>
    decreases ts, 1
  {
    if ts == [] then [] else TreeEntries(ts[0], depth) + ForestEntries(ts[1..], depth)
  }

  function ReadAll(lines: seq<Line>): (es: seq<Entry>)
    ensures |es| == |lines|
  {
    if lines == [] then [] else ReadAll(lines[..|lines| - 1]) + [ReadLine(lines[|lines| - 1].text)]
  }

  lemma ReadAllSnoc(front: seq<Line>, last: Line)
    ensures ReadAll(front + [last]) == ReadAll(front) + [ReadLine(last.text)]
  {
    hide ReadLine;
    FrontOfSnoc(front, last);
  }

  lemma {:induction false} ReadAllAppend(a: seq<Line>, b: seq<Line>)
    ensures ReadAll(a + b) == ReadAll(a) + ReadAll(b)
    decreases |b|
  {
    if b == [] {
      assert a + b == a;
    } else {
      hide ReadAll, ReadLine;
      var front, last := Unsnoc(b);
      ReadAllAppend(a, front);
      Assoc(a, front, [last]);
      ReadAllSnoc(a + front, last);
      ReadAllSnoc(front, last);
      Assoc(ReadAll(a), ReadAll(front), [ReadLine(last.text)]);
    }
  }

  lemma {:induction false} ForestSnoc(ts: seq<Tree>, last: Tree, depth: nat)
    ensures ForestEntries(ts + [last], depth) == ForestEntries(ts, depth) + TreeEntries(last, depth)
  {
    if ts == [] {
      assert ts + [last] == [last];
      assert ForestEntries([last], depth) == TreeEntries(last, depth) + ForestEntries([], depth);
    } else {
      ForestSnoc(ts[1..], last, depth);
      assert (ts + [last])[1..] == ts[1..] + [last];
    }
  }

  lemma {:induction false} ItemReads(item: Item, ordered: bool, depth: nat, ordinal: nat)
    ensures ReadAll(ItemLines(item, ordered, depth, ordinal)) == TreeEntries(Outline(item, ordered, ordinal), depth)
    decreases item, 0
  {
    var head := ItemLine(item, ordered, depth, ordinal);
    LineRead(ordered, depth, ordinal, SpanLine(item.spans).text);
    ReadAllAppend([head], ItemsLines(item.children, ordered, depth + 1));
    assert ReadAll([head]) == [ReadLine(head.text)] by {
      FrontOfSnoc([], head);
      assert [] + [head] == [head];
    }
    ItemsRead(item.children, ordered, depth + 1);
  }

  /** The lines of a list read back as the entries of its forest: one line per node, in pre-order. */
  lemma {:induction false} ItemsRead(items: seq<Item>, ordered: bool, depth: nat)
    ensures ReadAll(ItemsLines(items, ordered, depth)) == ForestEntries(Outlines(items, ordered), depth)
    decreases items, 1
  {
    if items != [] {
      var init, last := items[..|items| - 1], items[|items| - 1];
      ItemsRead(init, ordered, depth);
      ItemReads(last, ordered, depth, |items|);
      ReadAllAppend(ItemsLines(init, ordered, depth), ItemLines(last, ordered, depth, |items|));
      ForestSnoc(Outlines(init, ordered), Outline(last, ordered, |items|), depth);
    }
  }

  // ---------------------------------------------------------------- rebuilding the forest

  /** The forest at a depth that starts the entries, and the entries after it. */
  function Rebuild(es: seq<Entry>, depth: nat): (r: (seq<Tree>, seq<Entry>))
    ensures |r.1| <= |es|
    decreases |es|
  {
    if es == [] || es[0].depth != depth then ([], es)
    else
      var (children, rest) := Rebuild(es[1..], depth + 1);
      var (siblings, after) := Rebuild(rest, depth);
      ([Tree(es[0].marker, es[0].text, children)] + siblings, after)
  }

  ghost predicate Shallower(es: seq<Entry>, depth: nat) {
    es == [] || es[0].depth < depth
  }

  function TreeSize(t: Tree): nat
    decreases t, 0
  {
    1 + ForestSize(t.children)
  }

  function ForestSize(ts: seq<Tree>): nat
    decreases ts, 1
  {
    if ts == [] then 0 else TreeSize(ts[0]) + ForestSize(ts[1..])
  }

  lemma Uncons(ts: seq<Tree>) returns (t: Tree, others: seq<Tree>)
    requires ts != []
    ensures ts == [t] + others && ForestSize(ts) == 1 + ForestSize(t.children) + ForestSize(others)
  {
    t, others := ts[0], ts[1..];
  }

  /** The entries of a forest: its first root, what is below it, and the rest. */
  lemma ForestSplits(t: Tree, others: seq<Tree>, depth: nat, rest: seq<Entry>)
    ensures ForestEntries([t] + others, depth) + rest
         == [Entry(depth, t.marker, t.text)]
            + (ForestEntries(t.children, depth + 1) + (ForestEntries(others, depth) + rest))
  {
    var head, below := [Entry(depth, t.marker, t.text)], ForestEntries(t.children, depth + 1);
    var after := ForestEntries(others, depth);
    assert ForestEntries([t] + others, depth) == (head + below) + after by {
      assert ([t] + others)[1..] == others;
    }
    hide ForestEntries;
    Assoc(head + below, after, rest);
    Assoc(head, below, after + rest);
  }

  lemma RebuildFirst(head: Entry, below: seq<Entry>, children: seq<Tree>, more: seq<Entry>,
                     siblings: seq<Tree>, after: seq<Entry>)
    requires Rebuild(below, head.depth + 1) == (children, more) && Rebuild(more, head.depth) == (siblings, after)
    ensures Rebuild([head] + below, head.depth) == ([Tree(head.marker, head.text, children)] + siblings, after)
  {
    assert ([head] + below)[1..] == below;
  }

  /** Rebuilding undoes flattening, for every forest. */
  lemma {:induction false} RebuildForest(ts: seq<Tree>, depth: nat, rest: seq<Entry>)
    requires Shallower(rest, depth)
    ensures Rebuild(ForestEntries(ts, depth) + rest, depth) == (ts, rest)
    decreases ForestSize(ts)
  {
    if ts == [] {
      assert ForestEntries(ts, depth) + rest == rest;
    } else {
      hide ForestEntries, Rebuild, Shallower, ForestSize;
      var t, others := Uncons(ts);
      var more := ForestEntries(others, depth) + rest;
      ForestSplits(t, others, depth, rest);
      NextIsShallower(others, depth, rest);
      RebuildForest(t.children, depth + 1, more);
      RebuildForest(others, depth, rest);
      RebuildFirst(Entry(depth, t.marker, t.text), ForestEntries(t.children, depth + 1) + more, t.children, more,
                   others, rest);
    }
  }

  lemma NextIsShallower(ts: seq<Tree>, depth: nat, rest: seq<Entry>)
    requires Shallower(rest, depth)
    ensures Shallower(ForestEntries(ts, depth) + rest, depth + 1)
  {
    if ts == [] {
      assert ForestEntries(ts, depth) + rest == rest;
    }
  }

  lemma {:induction false} TreeEntryCount(t: Tree, depth: nat)
    ensures |TreeEntries(t, depth)| == TreeSize(t)
    decreases t, 0
  {
    EntryCount(t.children, depth + 1);
  }

  lemma {:induction false} EntryCount(ts: seq<Tree>, depth: nat)
    ensures |ForestEntries(ts, depth)| == ForestSize(ts)
    decreases ts, 1
  {
    if ts != [] {
      TreeEntryCount(ts[0], depth);
      EntryCount(ts[1..], depth);
    }
  }

  /** Items are numbered from 1 at every level, and keep their text and their children. */
  lemma {:induction false} OutlineAt(items: seq<Item>, ordered: bool, i: nat)
    requires i < |items|
    ensures |Outlines(items, ordered)| == |items|
    ensures Outlines(items, ordered)[i] == Tree(Marker(ordered, i + 1), SpanLine(items[i].spans).text,
                                                Outlines(items[i].children, ordered))
    decreases |items|
  {
    hide Marker, SpanLine;
    var n := |items| - 1;
    if n > 0 {
      OutlineAt(items[..n], ordered, if i < n then i else 0);
    }
  }

  /** From the lines of a list its whole forest is recovered: shape, markers and texts. */
  lemma ListIsRecovered(items: seq<Item>, ordered: bool)
    ensures Rebuild(ReadAll(BlockLines(Listing(ordered, items))), 0) == (Outlines(items, ordered), [])
    ensures |BlockLines(Listing(ordered, items))| == ForestSize(Outlines(items, ordered))
  {
    ItemsRead(items, ordered, 0);
    RebuildForest(Outlines(items, ordered), 0, []);
    EntryCount(Outlines(items, ordered), 0);
    assert ForestEntries(Outlines(items, ordered), 0) + [] == ForestEntries(Outlines(items, ordered), 0);
  }
}

/** The slug of a Workspace: its name in lower case with everything else squeezed to hyphens, cut to
    30 characters, and a digest of its id. */
module Slug {
  import opened Basics

  type WorkspaceId = string

  const BASE_LENGTH: nat := 30
  const MAX_LENGTH: nat := 63

  /** A lower-case hexadecimal MD5. */
  type Digest = s: string | IsHex(s, 32) witness seq(32, i => '0')

  /** lower(), which may leave characters of any kind, and md5(). */
  datatype Env = Env(lower: string -> string, md5: WorkspaceId -> Digest)

  predicate Alphanumeric(c: char) { Lower(c) || Digit(c) }

  /** regexp_replace(s, '[^a-z0-9]+', '-', 'g'): a maximal run of other characters becomes one hyphen. */
  function Squeeze(s: string): string {
    if s == "" then ""
    else
      var front, c := Squeeze(s[..|s| - 1]), s[|s| - 1];
      if Alphanumeric(c) then front + [c]
      else if front != "" && front[|front| - 1] == '-' then front
      else front + "-"
  }

  function TrimStart(s: string): string {
    if s != "" && s[0] == '-' then TrimStart(s[1..]) else s
  }

  function TrimEnd(s: string): string {
    if s != "" && s[|s| - 1] == '-' then TrimEnd(s[..|s| - 1]) else s
  }

  function Base(e: Env, name: string): string {
    var trimmed := TrimEnd(TrimStart(Squeeze(e.lower(name))));
    if trimmed == "" then "workspace" else trimmed
  }

  /** left(s, n) */
  function Left(s: string, n: nat): string { if |s| <= n then s else s[..n] }

  function SlugOf(e: Env, id: WorkspaceId, name: string): string {
    Left(Base(e, name), BASE_LENGTH) + "-" + e.md5(id)
  }

  /** `^[a-z0-9](?:[a-z0-9-]{0,61}[a-z0-9])?$` */
  predicate IsSlug(s: string) {
    && 1 <= |s| <= MAX_LENGTH
    && Alphanumeric(s[0]) && Alphanumeric(s[|s| - 1])
    && forall i | 0 <= i < |s| :: Alphanumeric(s[i]) || s[i] == '-'
  }

  // ---------------------------------------------------------------- what squeezing keeps

  predicate SlugChars(s: string) { forall i | 0 <= i < |s| :: Alphanumeric(s[i]) || s[i] == '-' }

  predicate NoDoubleHyphen(s: string) { forall i | 0 < i < |s| :: !(s[i - 1] == '-' && s[i] == '-') }

  function Letters(s: string): string {
    if s == "" then ""
    else if Alphanumeric(s[|s| - 1]) then Letters(s[..|s| - 1]) + [s[|s| - 1]]
    else Letters(s[..|s| - 1])
  }

  lemma LettersSnoc(s: string, c: char)
    ensures Letters(s + [c]) == if Alphanumeric(c) then Letters(s) + [c] else Letters(s)
  {
    FrontOfSnoc(s, c);
  }

  /** What one more character adds to the squeezed text. */
  lemma SqueezeSnoc(s: string, c: char)
    ensures var front := Squeeze(s);
      Squeeze(s + [c])
      == if Alphanumeric(c) then front + [c]
         else if front != "" && front[|front| - 1] == '-' then front else front + "-"
  {
    FrontOfSnoc(s, c);
  }

  lemma SlugCharsSnoc(s: string, c: char)
    requires SlugChars(s) && NoDoubleHyphen(s) && (Alphanumeric(c) || c == '-')
    requires c == '-' ==> s == "" || s[|s| - 1] != '-'
    ensures SlugChars(s + [c]) && NoDoubleHyphen(s + [c])
  {
  }

  /** Squeezing keeps every letter and digit in order, puts single hyphens for the rest, and nothing else. */
  lemma {:induction false} SqueezeKeepsLetters(s: string)
    ensures Letters(Squeeze(s)) == Letters(s)
    ensures SlugChars(Squeeze(s)) && NoDoubleHyphen(Squeeze(s))
    decreases |s|
  {
    if s != "" {
      hide Squeeze, Letters, SlugChars, NoDoubleHyphen;
      var front, c := Unsnoc(s);
      SqueezeKeepsLetters(front);
      SqueezeSnoc(front, c);
      LettersSnoc(front, c);
      var squeezed := Squeeze(front);
      if Alphanumeric(c) {
        LettersSnoc(squeezed, c);
        SlugCharsSnoc(squeezed, c);
      } else if squeezed == "" || squeezed[|squeezed| - 1] != '-' {
        LettersSnoc(squeezed, '-');
        SlugCharsSnoc(squeezed, '-');
      }
    }
  }

  lemma {:induction false} TrimStartFacts(s: string)
    requires SlugChars(s)
    ensures SlugChars(TrimStart(s))
    ensures TrimStart(s) != "" ==> Alphanumeric(TrimStart(s)[0])
  {
    if s != "" && s[0] == '-' {
      TrimStartFacts(s[1..]);
    }
  }

  lemma {:induction false} TrimEndFacts(s: string)
    requires SlugChars(s) && (s != "" ==> Alphanumeric(s[0]))
    ensures SlugChars(TrimEnd(s))
    ensures TrimEnd(s) != "" ==> Alphanumeric(TrimEnd(s)[0]) && Alphanumeric(TrimEnd(s)[|TrimEnd(s)| - 1])
    ensures s != "" ==> TrimEnd(s) != ""
  {
    if s != "" && s[|s| - 1] == '-' {
      TrimEndFacts(s[..|s| - 1]);
    }
  }

  lemma BaseFacts(e: Env, name: string)
    ensures Base(e, name) != "" && SlugChars(Base(e, name)) && Alphanumeric(Base(e, name)[0])
  {
    var squeezed := Squeeze(e.lower(name));
    SqueezeKeepsLetters(e.lower(name));
    TrimStartFacts(squeezed);
    TrimEndFacts(TrimStart(squeezed));
    assert forall i | 0 <= i < |"workspace"| :: Lower("workspace"[i]);
  }

  // ---------------------------------------------------------------- the words of a name

  /** The maximal runs of letters and digits. */
  function Words(s: string): seq<string> {
    if s == "" then []
    else
      var front, c := s[..|s| - 1], s[|s| - 1];
      var words := Words(front);
      if !Alphanumeric(c) then words
      else if words != [] && front != "" && Alphanumeric(front[|front| - 1])
      then words[..|words| - 1] + [words[|words| - 1] + [c]]
      else words + [[c]]
  }

  /** Words with single hyphens between them. */
  function Hyphenated(words: seq<string>): string {
    if words == [] then ""
    else if |words| == 1 then words[0]
    else Hyphenated(words[..|words| - 1]) + "-" + words[|words| - 1]
  }

  predicate StartsApart(s: string) { s != "" && !Alphanumeric(s[0]) }

  predicate EndsApart(s: string) { s != "" && !Alphanumeric(s[|s| - 1]) }

  /** The squeezed text: its words joined, with a hyphen for what stands before the first and behind the last. */
  function Joined(s: string): string {
    var words := Words(s);
    if words == [] then (if s == "" then "" else "-")
    else Wrap(Before(s), Hyphenated(words), Behind(s))
  }

  function Wrap(before: string, core: string, behind: string): string { before + core + behind }

  lemma WordsSnoc(s: string, c: char)
    ensures Words(s + [c])
         == if !Alphanumeric(c) then Words(s)
            else if Words(s) != [] && s != "" && !EndsApart(s)
            then Words(s)[..|Words(s)| - 1] + [Words(s)[|Words(s)| - 1] + [c]]
            else Words(s) + [[c]]
  {
    FrontOfSnoc(s, c);
  }

  predicate IsWord(w: string) { w != "" && forall k | 0 <= k < |w| :: Alphanumeric(w[k]) }

  predicate AreWords(words: seq<string>) { forall i | 0 <= i < |words| :: IsWord(words[i]) }

  lemma WordGrows(words: seq<string>, c: char)
    requires AreWords(words) && Alphanumeric(c)
    ensures AreWords(words + [[c]])
    ensures words != [] ==> AreWords(words[..|words| - 1] + [words[|words| - 1] + [c]])
  {
    assert IsWord([c]);
    assert words != [] ==> IsWord(words[|words| - 1] + [c]);
  }

  lemma {:induction false} WordsFacts(s: string)
    ensures Words(s) == [] ==> s == "" || (StartsApart(s) && EndsApart(s))
    ensures s == "" ==> Words(s) == []
    ensures AreWords(Words(s))
    decreases |s|
  {
    if s != "" {
      hide Words, AreWords;
      var front, c := Unsnoc(s);
      WordsFacts(front);
      WordsSnoc(front, c);
      if Alphanumeric(c) {
        WordGrows(Words(front), c);
      }
    } else {
      assert Words("") == [];
    }
  }

  lemma HyphenatedSnoc(words: seq<string>, last: string)
    ensures Hyphenated(words + [last]) == if words == [] then last else Hyphenated(words) + "-" + last
  {
    FrontOfSnoc(words, last);
  }

  lemma HyphenatedGrows(words: seq<string>, c: char)
    requires words != []
    ensures Hyphenated(words[..|words| - 1] + [words[|words| - 1] + [c]]) == Hyphenated(words) + [c]
  {
    var front, last := Unsnoc(words);
    HyphenatedSnoc(front, last);
    HyphenatedSnoc(front, last + [c]);
    if front != [] {
      Assoc(Hyphenated(front) + "-", last, [c]);
    }
  }

  lemma HyphenatedEnds(words: seq<string>)
    requires words != [] && AreWords(words)
    ensures Hyphenated(words) != ""
    ensures Alphanumeric(Hyphenated(words)[0]) && Alphanumeric(Hyphenated(words)[|Hyphenated(words)| - 1])
    decreases |words|
  {
    var front, last := Unsnoc(words);
    HyphenatedSnoc(front, last);
    assert words[|words| - 1] == last && IsWord(last);
    if front != [] {
      assert forall i | 0 <= i < |front| :: front[i] == words[i];
      HyphenatedEnds(front);
    }
  }

  function Before(s: string): string { if StartsApart(s) then "-" else "" }

  function Behind(s: string): string { if EndsApart(s) then "-" else "" }

  lemma EndsSnoc(s: string, c: char)
    ensures Before(s + [c]) == if s == "" then Behind([c]) else Before(s)
    ensures Behind(s + [c]) == if Alphanumeric(c) then "" else "-"
  {
  }

  lemma WrapLetter(before: string, core: string, c: char)
    ensures Wrap(before, core + [c], "") == Wrap(before, core, "") + [c]
    ensures Wrap(before, core + "-" + [c], "") == Wrap(before, core, "-") + [c]
    ensures Wrap(before, core, "-") == Wrap(before, core, "") + "-"
    ensures Wrap("", [c], "") == "" + [c] && Wrap("-", [c], "") == "-" + [c]
  {
  }

  lemma WrapEnds(before: string, core: string)
    requires core != ""
    ensures var plain, behind := Wrap(before, core, ""), Wrap(before, core, "-");
      && plain != "" && plain[|plain| - 1] == core[|core| - 1]
      && behind != "" && behind[|behind| - 1] == '-' && behind == plain + "-"
  {
  }

  lemma JoinedInWord(s: string, c: char)
    requires Alphanumeric(c) && s != "" && !EndsApart(s)
    ensures Joined(s + [c]) == Joined(s) + [c]
  {
    hide Wrap, Hyphenated, Words, Before, StartsApart;
    var words := Words(s);
    WordsSnoc(s, c);
    WordsFacts(s);
    EndsSnoc(s, c);
    HyphenatedGrows(words, c);
    WrapLetter(Before(s), Hyphenated(words), c);
  }

  lemma JoinedNewWord(s: string, c: char)
    requires Alphanumeric(c) && (s == "" || EndsApart(s))
    ensures Joined(s + [c]) == Joined(s) + [c]
  {
    hide Wrap, Hyphenated, Words;
    var words := Words(s);
    WordsSnoc(s, c);
    WordsFacts(s);
    EndsSnoc(s, c);
    HyphenatedSnoc(words, [c]);
    WrapLetter(Before(s), Hyphenated(words), c);
  }

  lemma JoinedOther(s: string, c: char)
    requires !Alphanumeric(c)
    ensures var front := Joined(s);
      Joined(s + [c]) == if front != "" && front[|front| - 1] == '-' then front else front + "-"
  {
    hide Hyphenated, Words, Before, StartsApart;
    var words := Words(s);
    WordsSnoc(s, c);
    WordsFacts(s);
    EndsSnoc(s, c);
    if words != [] {
      HyphenatedEnds(words);
      WrapEnds(Before(s), Hyphenated(words));
    } else {
      assert "" + "-" == "-";
    }
  }

  /** Squeezing a text joins its words, whatever stands between them, with one hyphen each. */
  lemma {:induction false} SqueezeJoinsWords(s: string)
    ensures Squeeze(s) == Joined(s)
    decreases |s|
  {
    if s != "" {
      hide Joined, Squeeze;
      var front, c := Unsnoc(s);
      SqueezeJoinsWords(front);
      SqueezeSnoc(front, c);
      if Alphanumeric(c) {
        if front == "" || EndsApart(front) {
          JoinedNewWord(front, c);
        } else {
          JoinedInWord(front, c);
        }
      } else {
        JoinedOther(front, c);
      }
    } else {
      assert Joined("") == "";
    }
  }

  /** The base of a slug is the words of the name with hyphens between them, or "workspace" if it has none. */
  lemma BaseIsWords(e: Env, name: string)
    ensures Base(e, name)
         == if Words(e.lower(name)) == [] then "workspace" else Hyphenated(Words(e.lower(name)))
  {
    var s := e.lower(name);
    SqueezeJoinsWords(s);
    WordsFacts(s);
    hide Words, Squeeze;
    var words := Words(s);
    if words != [] {
      HyphenatedEnds(words);
      hide Hyphenated;
      TrimsTo(Hyphenated(words), Before(s), Behind(s));
    } else {
      hide Hyphenated;
      NothingToTrim();
    }
  }

  lemma NothingToTrim()
    ensures TrimEnd(TrimStart("")) == "" && TrimEnd(TrimStart("-")) == ""
  {
    assert "-"[1..] == "";
  }

  lemma TrimStartTo(core: string)
    requires core != "" && core[0] != '-'
    ensures TrimStart(core) == core && TrimStart("-" + core) == core
  {
    assert ("-" + core)[1..] == core;
  }

  lemma TrimEndTo(core: string)
    requires core != "" && core[|core| - 1] != '-'
    ensures TrimEnd(core) == core && TrimEnd(core + "-") == core
  {
    assert (core + "-")[..|core|] == core;
  }

  lemma TrimsTo(core: string, before: string, behind: string)
    requires core != "" && Alphanumeric(core[0]) && Alphanumeric(core[|core| - 1])
    requires before in {"", "-"} && behind in {"", "-"}
    ensures TrimEnd(TrimStart(before + core + behind)) == core
  {
    hide TrimStart, TrimEnd;
    TrimStartTo(core + behind);
    TrimEndTo(core);
    Assoc(before, core, behind);
    assert "" + (core + behind) == core + behind;
    assert core + "" == core;
  }

  // ---------------------------------------------------------------- the backfill

  /** A slug is the first 30 characters of its base, a hyphen, and the digest. */
  lemma SlugIsBaseAndDigest(e: Env, id: WorkspaceId, name: string)
    ensures SlugOf(e, id, name) == Base(e, name)[..Min(|Base(e, name)|, 30)] + "-" + e.md5(id)
  {
    hide Base;
    assert Base(e, name)[..|Base(e, name)|] == Base(e, name);
  }

  /** For any name, also an empty one or one without a single letter, the slug meets its CHECK. */
  lemma SlugMeetsConstraint(e: Env, id: WorkspaceId, name: string)
    ensures IsSlug(SlugOf(e, id, name))
    ensures 34 <= |SlugOf(e, id, name)| <= MAX_LENGTH
  {
    BaseFacts(e, name);
    hide Base;
    var base, digest: string := Left(Base(e, name), BASE_LENGTH), e.md5(id);
    assert forall i | 0 <= i < |digest| :: LowerHex(digest[i]);
    var slug := SlugOf(e, id, name);
    assert slug == base + "-" + digest;
    forall i | 0 <= i < |slug| ensures Alphanumeric(slug[i]) || slug[i] == '-' {
      if i < |base| {
        assert slug[i] == base[i];
      } else if i > |base| {
        assert slug[i] == digest[i - |base| - 1];
      }
    }
    assert slug[0] == base[0] && slug[|slug| - 1] == digest[31];
  }

  /** The digest can be read off the end of a slug, so two slugs are equal only for equal digests. */
  lemma SlugEndsInDigest(e: Env, id: WorkspaceId, name: string)
    ensures |SlugOf(e, id, name)| >= 32
    ensures SlugOf(e, id, name)[|SlugOf(e, id, name)| - 32..] == e.md5(id)
  {
    hide Base;
  }

  lemma SameSlugIff(e: Env, a: WorkspaceId, nameA: string, b: WorkspaceId, nameB: string)
    ensures SlugOf(e, a, nameA) == SlugOf(e, b, nameB) <==>
      e.md5(a) == e.md5(b) && Left(Base(e, nameA), BASE_LENGTH) == Left(Base(e, nameB), BASE_LENGTH)
  {
    hide Base;
    var x, y: string := Left(Base(e, nameA), BASE_LENGTH), Left(Base(e, nameB), BASE_LENGTH);
    if SlugOf(e, a, nameA) == SlugOf(e, b, nameB) {
      SlugEndsInDigest(e, a, nameA);
      SlugEndsInDigest(e, b, nameB);
      assert |x| == |y|;
      assert x == SlugOf(e, a, nameA)[..|x|] && y == SlugOf(e, b, nameB)[..|y|];
    }
  }

  /** The UPDATE of identity.workspaces. */
  function Backfilled(e: Env, names: map<WorkspaceId, string>): map<WorkspaceId, string> {
    map id | id in names :: SlugOf(e, id, names[id])
  }

  /** No CHECK and, unless two ids share a digest, no unique index stands in the way. */
  lemma BackfillMeetsConstraints(e: Env, names: map<WorkspaceId, string>)
    requires forall a, b | a in names && b in names && a != b :: e.md5(a) != e.md5(b)
    ensures forall id | id in names :: IsSlug(Backfilled(e, names)[id])
    ensures forall a, b | a in names && b in names && a != b :: Backfilled(e, names)[a] != Backfilled(e, names)[b]
  {
    forall id | id in names ensures IsSlug(Backfilled(e, names)[id]) {
      SlugMeetsConstraint(e, id, names[id]);
    }
    forall a, b | a in names && b in names && a != b ensures Backfilled(e, names)[a] != Backfilled(e, names)[b] {
      SameSlugIff(e, a, names[a], b, names[b]);
    }
  }
}

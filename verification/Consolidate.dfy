/** consolidateItems and splitSentences of srv/scrapers/json_scraper.go. */
module Consolidate {
  import opened Options

  datatype Item = Item(guid: string, title: string, url: string, author: string, content: string, summary: string,
                       imageUrl: string, publishedAt: Option<int>)

  // ----- Trimming and splitting

  /** unicode.IsSpace */
  predicate IsSpace(c: char) {
    c in {'\t', '\n', '\U{0B}', '\U{0C}', '\r', ' ', '\U{85}', '\U{A0}', '\U{1680}', '\U{2028}', '\U{2029}',
          '\U{202F}', '\U{205F}', '\U{3000}'} ||
    '\U{2000}' <= c <= '\U{200A}'
  }

  function TrimLeft(s: string): string {
    if s != "" && IsSpace(s[0]) then TrimLeft(s[1..]) else s
  }

  function TrimRight(s: string): string {
    if s != "" && IsSpace(s[|s| - 1]) then TrimRight(s[..|s| - 1]) else s
  }

  function TrimSpace(s: string): string {
    TrimRight(TrimLeft(s))
  }

  /** The character in front of the first of a list of lines. */
  function Prepend(c: char, lines: seq<string>): seq<string>
    requires lines != []
  {
    [[c] + lines[0]] + lines[1..]
  }

  /** strings.Split with a non-empty separator */
  function Split(s: string, sep: string): (parts: seq<string>)
    requires sep != ""
    ensures parts != []
  {
    if s == "" then [""]
    else if sep <= s then [""] + Split(s[|sep|..], sep)
    else Prepend(s[0], Split(s[1..], sep))
  }

  // ----- What trimming and splitting mean

  predicate AllSpace(s: string) {
    forall c | c in s :: IsSpace(c)
  }

  /** The characters with the Unicode property White_Space. */
  lemma SpacesAre(c: char)
    ensures IsSpace(c) <==>
      var n := c as int;
      || 9 <= n <= 13 || n == 0x20 || n == 0x85 || n == 0xA0 || n == 0x1680 || 0x2000 <= n <= 0x200A
      || n == 0x2028 || n == 0x2029 || n == 0x202F || n == 0x205F || n == 0x3000
  {
    assert '\t' as int == 9 && '\n' as int == 10 && '\r' as int == 13 && ' ' as int == 0x20;
  }

  lemma {:induction false} TrimLeftCuts(s: string) returns (before: string)
    ensures s == before + TrimLeft(s) && AllSpace(before)
    ensures TrimLeft(s) != "" ==> !IsSpace(TrimLeft(s)[0])
  {
    if s != "" && IsSpace(s[0]) {
      var rest := TrimLeftCuts(s[1..]);
      before := [s[0]] + rest;
    } else {
      before := "";
    }
  }

  lemma {:induction false} TrimRightCuts(s: string) returns (after: string)
    ensures s == TrimRight(s) + after && AllSpace(after)
    ensures TrimRight(s) != "" ==> !IsSpace(TrimRight(s)[|TrimRight(s)| - 1])
  {
    if s != "" && IsSpace(s[|s| - 1]) {
      var init, last := s[..|s| - 1], s[|s| - 1];
      var rest := TrimRightCuts(init);
      hide IsSpace;
      after := rest + [last];
      assert s == init + [last];
      assert TrimRight(s) == TrimRight(init);
      hide TrimRight;
      assert TrimRight(init) + rest + [last] == TrimRight(init) + (rest + [last]);
    } else {
      after := "";
    }
  }

  /** Trimming cuts off spaces at both ends, and leaves none there. */
  lemma TrimCutsSpaces(s: string) returns (before: string, after: string)
    ensures s == before + TrimSpace(s) + after && AllSpace(before) && AllSpace(after)
    ensures TrimSpace(s) != "" ==> !IsSpace(TrimSpace(s)[0]) && !IsSpace(TrimSpace(s)[|TrimSpace(s)| - 1])
  {
    hide IsSpace, AllSpace;
    before := TrimLeftCuts(s);
    after := TrimRightCuts(TrimLeft(s));
    hide TrimLeft, TrimRight;
    assert before + (TrimSpace(s) + after) == before + TrimSpace(s) + after;
    if TrimSpace(s) != "" {
      assert TrimLeft(s)[0] == TrimSpace(s)[0];
    }
  }

  function JoinWith(parts: seq<string>, sep: string): string {
    if parts == [] then "" else if |parts| == 1 then parts[0] else parts[0] + sep + JoinWith(parts[1..], sep)
  }

  lemma JoinPrepended(c: char, parts: seq<string>, sep: string)
    requires parts != []
    ensures JoinWith(Prepend(c, parts), sep) == [c] + JoinWith(parts, sep)
  {
    assert Prepend(c, parts)[1..] == parts[1..];
  }

  lemma JoinEmptyFirst(parts: seq<string>, sep: string)
    requires parts != []
    ensures JoinWith([""] + parts, sep) == sep + JoinWith(parts, sep)
  {
    assert ([""] + parts)[1..] == parts;
    assert "" + sep == sep;
  }

  lemma SplitCases(s: string, sep: string)
    requires sep != "" && s != ""
    ensures Split(s, sep) ==
            if sep <= s then [""] + Split(s[|sep|..], sep) else Prepend(s[0], Split(s[1..], sep))
  {
  }

  /** Splitting loses nothing: the parts joined with the separator are the text. */
  lemma {:induction false} SplitJoins(s: string, sep: string)
    requires sep != ""
    ensures JoinWith(Split(s, sep), sep) == s
    decreases |s|
  {
    if s != "" {
      SplitCases(s, sep);
      hide Split, JoinWith, Prepend;
      if sep <= s {
        SplitJoins(s[|sep|..], sep);
        JoinEmptyFirst(Split(s[|sep|..], sep), sep);
        assert s == sep + s[|sep|..];
      } else {
        SplitJoins(s[1..], sep);
        JoinPrepended(s[0], Split(s[1..], sep), sep);
        assert s == [s[0]] + s[1..];
      }
    }
  }

  /** The non-empty trimmed lines, in order. */
  function Trimmed(lines: seq<string>): seq<string> {
    if lines == [] then []
    else (if TrimSpace(lines[0]) == "" then [] else [TrimSpace(lines[0])]) + Trimmed(lines[1..])
  }

  /** What splitSentences returns: every non-blank line, trimmed. */
  function Sentences(text: string): seq<string> {
    Trimmed(Split(text, "\n"))
  }

  /** The sentences of the paragraphs, paragraph by paragraph. */
  function OfParagraphs(paragraphs: seq<string>): seq<string> {
    if paragraphs == [] then [] else Sentences(paragraphs[0]) + OfParagraphs(paragraphs[1..])
  }

  lemma {:induction false} TrimmedConcat(a: seq<string>, b: seq<string>)
    ensures Trimmed(a + b) == Trimmed(a) + Trimmed(b)
  {
    if a == [] {
      assert a + b == b;
    } else {
      assert (a + b)[1..] == a[1..] + b;
      TrimmedConcat(a[1..], b);
    }
  }

  lemma LeadingSpace(c: char, s: string)
    requires IsSpace(c)
    ensures Sentences([c] + s) == Sentences(s)
  {
    assert ([c] + s)[1..] == s;
    if c == '\n' {
      assert "\n" <= [c] + s;
      assert TrimSpace("") == "";
    } else {
      var lines := Split(s, "\n");
      assert TrimLeft([c] + lines[0]) == TrimLeft(lines[0]) by {
        assert ([c] + lines[0])[1..] == lines[0];
      }
    }
  }

  lemma {:induction false} TrimTrailing(s: string, c: char)
    requires IsSpace(c)
    ensures TrimSpace(s + [c]) == TrimSpace(s)
    decreases |s|
  {
    if s == "" {
      assert [c][1..] == "" && s + [c] == [c];
    } else if IsSpace(s[0]) {
      assert (s + [c])[1..] == s[1..] + [c];
      TrimTrailing(s[1..], c);
    } else {
      assert (s + [c])[..|s|] == s;
    }
  }

  lemma SplitUnfolds(s: string)
    requires s != ""
    ensures Split(s, "\n") == if s[0] == '\n' then [""] + Split(s[1..], "\n") else Prepend(s[0], Split(s[1..], "\n"))
  {
    assert "\n" <= s <==> s[0] == '\n';
  }

  lemma {:induction false} SplitSnoc(s: string, c: char)
    ensures Split(s + [c], "\n") == Extended(Split(s, "\n"), c)
    decreases |s|
  {
    if s == "" {
      SplitOneChar(c);
      assert s + [c] == [c];
    } else {
      hide Split, Prepend, Extended;
      assert (s + [c])[0] == s[0] && (s + [c])[1..] == s[1..] + [c];
      SplitUnfolds(s + [c]);
      SplitUnfolds(s);
      SplitSnoc(s[1..], c);
      var rest := Split(s[1..], "\n");
      if s[0] != '\n' {
        PrependExtended(s[0], rest, c);
      } else {
        ExtendedRest("", rest, c);
        ExtendedIsAfter(rest, c);
      }
    }
  }

  lemma SplitOneChar(c: char)
    ensures Split([c], "\n") == Extended(Split("", "\n"), c)
  {
    SplitNothing();
    SplitUnfolds([c]);
    hide Split;
    assert [c][1..] == "" && [c] + "" == "" + [c];
  }

  lemma ExtendedIsAfter(rest: seq<string>, c: char)
    requires rest != []
    ensures ExtendedAfter(rest, c) == Extended(rest, c)
  {
  }

  /** The lines after one more character at the end of the text. */
  function Extended(lines: seq<string>, c: char): (r: seq<string>)
    requires lines != []
    ensures r != []
  {
    if c == '\n' then lines + [""] else lines[..|lines| - 1] + [lines[|lines| - 1] + [c]]
  }

  lemma PrependExtended(first: char, lines: seq<string>, c: char)
    requires lines != []
    ensures Prepend(first, Extended(lines, c)) == Extended(Prepend(first, lines), c)
  {
    var head, rest := lines[0], lines[1..];
    assert lines == [head] + rest;
    PrependTo(first, head, rest);
    if rest == [] && c != '\n' {
      assert lines[..0] == [] && [[first] + head][..0] == [];
      assert [first] + (head + [c]) == [first] + head + [c];
    } else {
      ExtendedRest(head, rest, c);
      ExtendedRest([first] + head, rest, c);
      PrependTo(first, head, ExtendedAfter(rest, c));
    }
  }

  function ExtendedAfter(rest: seq<string>, c: char): seq<string> {
    if rest == [] then [""] else Extended(rest, c)
  }

  lemma ExtendedRest(head: string, rest: seq<string>, c: char)
    requires rest != [] || c == '\n'
    ensures Extended([head] + rest, c) == [head] + ExtendedAfter(rest, c)
  {
    var lines := [head] + rest;
    if c == '\n' {
      assert lines + [""] == [head] + (rest + [""]);
    } else {
      assert lines[..|lines| - 1] == [head] + rest[..|rest| - 1];
    }
  }

  lemma TrailingSpace(s: string, c: char)
    requires IsSpace(c)
    ensures Sentences(s + [c]) == Sentences(s)
  {
    hide IsSpace, TrimSpace, Split;
    var parts := Split(s, "\n");
    var last := parts[|parts| - 1];
    SplitSnoc(s, c);
    assert parts == parts[..|parts| - 1] + [last];
    TrimmedConcat(parts[..|parts| - 1], [last]);
    TrimmedConcat(parts[..|parts| - 1], [last + [c]]);
    TrimmedConcat(parts, [""]);
    TrimTrailing(last, c);
    BlankIsTrimmed();
  }

  lemma BlankIsTrimmed()
    ensures TrimSpace("") == "" && Trimmed([""]) == [] && Sentences("") == []
  {
  }

  lemma {:induction false} TrimLeftKeepsSentences(s: string)
    ensures Sentences(TrimLeft(s)) == Sentences(s)
  {
    if s != "" && IsSpace(s[0]) {
      TrimLeftKeepsSentences(s[1..]);
      LeadingSpace(s[0], s[1..]);
      assert [s[0]] + s[1..] == s;
    }
  }

  lemma {:induction false} TrimRightKeepsSentences(s: string)
    ensures Sentences(TrimRight(s)) == Sentences(s)
  {
    if s != "" && IsSpace(s[|s| - 1]) {
      TrimRightKeepsSentences(s[..|s| - 1]);
      TrailingSpace(s[..|s| - 1], s[|s| - 1]);
      assert s[..|s| - 1] + [s[|s| - 1]] == s;
    }
  }

  /** Line by line, the first lines of the text and of its first paragraph agree, and so
      does everything after them. */
  ghost predicate SameLines(text: string) {
    var ps, lines := Split(text, "\n\n"), Split(text, "\n");
    && lines[0] == Split(ps[0], "\n")[0]
    && Trimmed(lines[1..]) == Trimmed(Split(ps[0], "\n")[1..]) + OfParagraphs(ps[1..])
  }

  lemma SameLinesSameSentences(text: string)
    requires SameLines(text)
    ensures OfParagraphs(Split(text, "\n\n")) == Sentences(text)
  {
    hide TrimSpace, Split, Trimmed;
    var ps, lines := Split(text, "\n\n"), Split(text, "\n");
    FirstLine(lines);
    FirstLine(Split(ps[0], "\n"));
  }

  lemma FirstLine(lines: seq<string>)
    requires lines != []
    ensures Trimmed(lines) == Trimmed([lines[0]]) + Trimmed(lines[1..])
  {
    TrimmedConcat([lines[0]], lines[1..]);
    assert lines == [lines[0]] + lines[1..];
  }

  lemma SameLinesAtBreak(text: string)
    requires "\n\n" <= text && SameLines(text[2..])
    ensures SameLines(text)
  {
    var rest := text[2..];
    SameLinesSameSentences(rest);
    assert text[1..][1..] == rest;
    SplitUnfolds(text);
    SplitUnfolds(text[1..]);
    assert Split(text, "\n\n") == [""] + Split(rest, "\n\n");
    assert Split("", "\n") == [""];
    hide TrimSpace, Split;
    TrimmedConcat([""], Split(rest, "\n"));
    BlankIsTrimmed();
  }

  lemma SameLinesWithinParagraph(text: string)
    requires text != "" && !("\n\n" <= text) && SameLines(text[1..])
    ensures SameLines(text)
  {
    var c, rest := text[0], text[1..];
    var qs := Split(rest, "\n\n");
    assert Split(text, "\n\n") == Prepend(c, qs);
    assert ([c] + qs[0])[1..] == qs[0];
    SplitUnfolds(text);
    SplitUnfolds([c] + qs[0]);
    SameLinesSameSentences(rest);
    hide TrimSpace, Split;
  }

  /** Splitting into paragraphs first makes no difference. */
  lemma {:induction false} ParagraphsDoNotMatter(text: string)
    ensures SameLines(text)
    ensures OfParagraphs(Split(text, "\n\n")) == Sentences(text)
    decreases |text|
  {
    if text == "" {
    } else if "\n\n" <= text {
      ParagraphsDoNotMatter(text[2..]);
      SameLinesAtBreak(text);
    } else {
      ParagraphsDoNotMatter(text[1..]);
      SameLinesWithinParagraph(text);
    }
    SameLinesSameSentences(text);
  }

  /** The trimmed paragraph has the same sentences; a blank one has none. */
  lemma TrimmedParagraph(paragraph: string)
    ensures Sentences(TrimSpace(paragraph)) == Sentences(paragraph)
    ensures TrimSpace(paragraph) == "" ==> Sentences(paragraph) == []
  {
    TrimLeftKeepsSentences(paragraph);
    TrimRightKeepsSentences(TrimLeft(paragraph));
    BlankIsTrimmed();
  }

  lemma OfParagraphsSnoc(paragraphs: seq<string>, p: string)
    ensures OfParagraphs(paragraphs + [p]) == OfParagraphs(paragraphs) + Sentences(p)
  {
    hide Sentences;
    if paragraphs == [] {
      assert paragraphs + [p] == [p] && [p][1..] == [];
    } else {
      assert (paragraphs + [p])[1..] == paragraphs[1..] + [p];
      OfParagraphsSnoc(paragraphs[1..], p);
    }
  }

  /** splitSentences: paragraphs, then lines; the result is the text's non-blank lines. */
  method SplitSentences(text: string) returns (sentences: seq<string>)
    ensures sentences == Sentences(text)
  {
    hide *;
    BlankIsTrimmed();
    if text == "" {
      return [];
    }
    var paragraphs := Split(text, "\n\n");
    sentences := [];
    OfNoParagraphs();
    for i := 0 to |paragraphs|
      invariant sentences == OfParagraphs(paragraphs[..i])
    {
      assert paragraphs[..i + 1] == paragraphs[..i] + [paragraphs[i]];
      OfParagraphsSnoc(paragraphs[..i], paragraphs[i]);
      TrimmedParagraph(paragraphs[i]);
      var para := TrimSpace(paragraphs[i]);
      if para == "" {
        continue;
      }
      var own := AppendLines(Split(para, "\n"));
      SentencesAreTrimmedLines(para);
      sentences := sentences + own;
    }
    assert paragraphs[..|paragraphs|] == paragraphs;
    ParagraphsDoNotMatter(text);
  }

  lemma OfNoParagraphs()
    ensures forall ps: seq<string> :: OfParagraphs(ps[..0]) == []
  {
  }

  lemma SentencesAreTrimmedLines(text: string)
    ensures Trimmed(Split(text, "\n")) == Sentences(text)
  {
  }

  /** The inner loop of splitSentences. */
  method AppendLines(lines: seq<string>) returns (sentences: seq<string>)
    ensures sentences == Trimmed(lines)
  {
    hide TrimSpace;
    sentences := [];
    for i := 0 to |lines|
      invariant sentences == Trimmed(lines[..i])
    {
      assert lines[..i + 1] == lines[..i] + [lines[i]];
      TrimmedConcat(lines[..i], [lines[i]]);
      var line := TrimSpace(lines[i]);
      if line != "" {
        sentences := sentences + [line];
      }
    }
    assert lines[..|lines|] == lines;
  }

  // ----- Deduplication

  /** Each sentence at its first occurrence. */
  function Distinct(s: seq<string>): (r: seq<string>)
    ensures forall x :: x in r <==> x in s
    ensures forall i, j | 0 <= i < j < |r| :: r[i] != r[j]
  {
    if s == [] then []
    else
      var init, last := Distinct(s[..|s| - 1]), s[|s| - 1];
      assert s == s[..|s| - 1] + [last];
      if last in init then init else init + [last]
  }

  const MAX_SENTENCES := 50

  function Capped(s: seq<string>): seq<string> {
    if |s| <= MAX_SENTENCES then s else s[..MAX_SENTENCES]
  }

  lemma {:induction false} DistinctGrows(a: seq<string>, b: seq<string>)
    ensures Distinct(a) <= Distinct(a + b)
    decreases |b|
  {
    if b == [] {
      assert a + b == a;
    } else {
      assert (a + b)[..|a + b| - 1] == a + b[..|b| - 1];
      DistinctGrows(a, b[..|b| - 1]);
    }
  }

  /** Once the cap is reached, later sentences no longer matter. */
  lemma CapReached(a: seq<string>, b: seq<string>)
    requires |Distinct(a)| >= MAX_SENTENCES
    ensures Capped(Distinct(a + b)) == Capped(Distinct(a))
  {
    DistinctGrows(a, b);
    hide Distinct;
    assert Distinct(a + b)[..MAX_SENTENCES] == Distinct(a)[..MAX_SENTENCES];
  }

  lemma DistinctSnoc(s: seq<string>, x: string)
    ensures Distinct(s + [x]) == if x in s then Distinct(s) else Distinct(s) + [x]
  {
    assert (s + [x])[..|s|] == s;
  }

  function Text(item: Item): string {
    if item.content == "" then item.summary else item.content
  }

  function AllSentences(run: seq<Item>): seq<string> {
    if run == [] then [] else AllSentences(run[..|run| - 1]) + Sentences(Text(run[|run| - 1]))
  }

  lemma AllSentencesConcat(a: seq<Item>, b: seq<Item>)
    ensures AllSentences(a + b) == AllSentences(a) + AllSentences(b)
    decreases |b|
  {
    hide Sentences;
    if b == [] {
      assert a + b == a;
    } else {
      assert (a + b)[..|a + b| - 1] == a + b[..|b| - 1];
      AllSentencesConcat(a, b[..|b| - 1]);
    }
  }

  ghost predicate SeenExactly(seen: set<string>, sentences: seq<string>) {
    forall x :: x in seen <==> x in sentences
  }

  lemma SeenSnoc(seen: set<string>, sentences: seq<string>, x: string)
    requires SeenExactly(seen, sentences)
    ensures x in seen <==> x in sentences
    ensures SeenExactly(seen + {x}, sentences + [x]) && (x in seen ==> SeenExactly(seen, sentences + [x]))
  {
  }

  /** The sentences of one text, added until the cap is reached. `before` stands for the
      sentences read so far, `added` for all of this text's. */
  method AddSentences(text: string, unique0: seq<string>, seen0: set<string>, ghost before: seq<string>)
    returns (unique: seq<string>, seen: set<string>)
    requires unique0 == Distinct(before) && |unique0| < MAX_SENTENCES
    requires SeenExactly(seen0, before)
    ensures unique == Capped(Distinct(before + Sentences(text)))
    ensures |unique| < MAX_SENTENCES ==> SeenExactly(seen, before + Sentences(text))
  {
    unique, seen := unique0, seen0;
    var sentences := SplitSentences(text);
    hide *;
    SentencesAreTrimmed(text);
    assert before + sentences[..0] == before;
    for i := 0 to |sentences|
      invariant unique == Distinct(before + sentences[..i]) && |unique| < MAX_SENTENCES
      invariant SeenExactly(seen, before + sentences[..i])
    {
      assert before + sentences[..i + 1] == before + sentences[..i] + [sentences[i]];
      DistinctSnoc(before + sentences[..i], sentences[i]);
      SeenSnoc(seen, before + sentences[..i], sentences[i]);
      var norm := TrimSpace(sentences[i]);
      assert norm == sentences[i] && norm != "" by {
        assert sentences[i] in sentences;
      }
      if norm == "" || norm in seen {
        continue;
      }
      seen := seen + {norm};
      unique := unique + [norm];
      if |unique| >= MAX_SENTENCES {
        LeftAtCap(before, sentences, i + 1, unique);
        return;
      }
    }
    assert sentences[..|sentences|] == sentences;
    CappedIsPrefix(unique);
  }

  /** Leaving the loop when the cap is just reached. */
  lemma LeftAtCap(before: seq<string>, sentences: seq<string>, i: nat, unique: seq<string>)
    requires i <= |sentences| && unique == Distinct(before + sentences[..i]) && |unique| == MAX_SENTENCES
    ensures unique == Capped(Distinct(before + sentences))
  {
    hide *;
    assert before + sentences == before + sentences[..i] + sentences[i..];
    CapReached(before + sentences[..i], sentences[i..]);
    CappedIsPrefix(unique);
  }

  lemma CappedIsPrefix(s: seq<string>)
    ensures |s| <= MAX_SENTENCES ==> Capped(s) == s
  {
  }

  lemma SentencesAreTrimmed(text: string)
    ensures forall x | x in Sentences(text) :: x != "" && TrimSpace(x) == x
  {
    TrimmedAreTrimmed(Split(text, "\n"));
  }

  lemma {:induction false} TrimmedAreTrimmed(lines: seq<string>)
    ensures forall x | x in Trimmed(lines) :: x != "" && TrimSpace(x) == x
  {
    if lines != [] {
      TrimmedAreTrimmed(lines[1..]);
      TrimIsIdempotent(lines[0]);
    }
  }

  lemma TrimIsIdempotent(s: string)
    ensures TrimSpace(TrimSpace(s)) == TrimSpace(s)
  {
    TrimLeftEnds(s);
    TrimRightEnds(TrimLeft(s));
    var t := TrimSpace(s);
  }

  lemma {:induction false} TrimLeftEnds(s: string)
    ensures TrimLeft(s) == "" || !IsSpace(TrimLeft(s)[0])
  {
    if s != "" && IsSpace(s[0]) {
      TrimLeftEnds(s[1..]);
    }
  }

  lemma {:induction false} TrimRightEnds(s: string)
    ensures TrimRight(s) == "" || !IsSpace(TrimRight(s)[|TrimRight(s)| - 1])
    ensures TrimRight(s) <= s
  {
    if s != "" && IsSpace(s[|s| - 1]) {
      TrimRightEnds(s[..|s| - 1]);
    }
  }

  // ----- Runs of one title

  /** Length of the run of equal titles at the start of the list. */
  function RunLength(items: seq<Item>): (n: nat)
    requires items != []
    ensures 1 <= n <= |items|
    ensures forall k | 0 <= k < n :: items[k].title == items[0].title
    ensures n < |items| ==> items[n].title != items[0].title
  {
    if |items| > 1 && items[1].title == items[0].title then 1 + RunLength(items[1..]) else 1
  }

  function Runs(items: seq<Item>): seq<seq<Item>> {
    if items == [] then [] else [items[..RunLength(items)]] + Runs(items[RunLength(items)..])
  }

  function Joined(runs: seq<seq<Item>>): seq<Item> {
    if runs == [] then [] else runs[0] + Joined(runs[1..])
  }

  function TotalLength(runs: seq<seq<Item>>): nat {
    if runs == [] then 0 else |runs[0]| + TotalLength(runs[1..])
  }

  ghost predicate OneTitle(run: seq<Item>) {
    run != [] && forall k | 0 <= k < |run| :: run[k].title == run[0].title
  }

  /** Non-empty runs of one title each, no two neighbours sharing a title. */
  ghost predicate MaximalRuns(runs: seq<seq<Item>>) {
    runs == [] ||
    (&& OneTitle(runs[0])
     && (|runs| > 1 && runs[1] != [] ==> runs[1][0].title != runs[0][0].title)
     && MaximalRuns(runs[1..]))
  }

  lemma {:induction false} RunsPartition(items: seq<Item>)
    ensures Joined(Runs(items)) == items && TotalLength(Runs(items)) == |items|
    ensures MaximalRuns(Runs(items))
    ensures items != [] ==> Runs(items) != [] && Runs(items)[0] != [] && Runs(items)[0][0] == items[0]
  {
    hide *;
    if items == [] {
      NoRuns();
    } else {
      RunsUnfold(items);
      var n := RunLength(items);
      var run, rest := items[..n], items[n..];
      RunsPartition(rest);
      assert n < |items| ==> rest[0] == items[n];
      assert rest == [] ==> Runs(rest) == [] by { NoRuns(); }
      RunInFront(run, Runs(rest));
      assert items == run + rest;
    }
  }

  lemma NoRuns()
    ensures Runs([]) == [] && Joined([]) == [] && TotalLength([]) == 0 && MaximalRuns([])
  {
  }

  lemma RunsUnfold(items: seq<Item>)
    requires items != []
    ensures Runs(items) == [items[..RunLength(items)]] + Runs(items[RunLength(items)..])
    ensures OneTitle(items[..RunLength(items)])
    ensures items[..RunLength(items)][0] == items[0]
  {
  }

  lemma RunInFront(run: seq<Item>, rest: seq<seq<Item>>)
    requires OneTitle(run) && MaximalRuns(rest)
    requires rest != [] && rest[0] != [] ==> rest[0][0].title != run[0].title
    ensures MaximalRuns([run] + rest)
    ensures Joined([run] + rest) == run + Joined(rest) && TotalLength([run] + rest) == |run| + TotalLength(rest)
  {
    assert ([run] + rest)[1..] == rest;
  }

  /** There is only one way to cut the items into maximal runs. */
  lemma {:induction false} RunsAreUnique(runs: seq<seq<Item>>)
    requires MaximalRuns(runs)
    ensures Runs(Joined(runs)) == runs
  {
    if runs != [] {
      var run, tail := runs[0], Joined(runs[1..]);
      RunsAreUnique(runs[1..]);
      RunLengthOfJoined(run, tail);
      RunsUnfold(run + tail);
      hide *;
      assert (run + tail)[..|run|] == run && (run + tail)[|run|..] == tail;
      assert runs == [run] + runs[1..];
    }
  }

  lemma {:induction false} RunLengthOfJoined(run: seq<Item>, tail: seq<Item>)
    requires OneTitle(run)
    requires tail != [] ==> tail[0].title != run[0].title
    ensures RunLength(run + tail) == |run|
  {
    if |run| > 1 {
      RunLengthOfJoined(run[1..], tail);
      assert (run + tail)[1..] == run[1..] + tail;
    }
  }

  // ----- Merging a run

  /** strconv.Itoa for a count */
  function Decimal(n: nat): string {
    (if n < 10 then "" else Decimal(n / 10)) + [('0' as int + n % 10) as char]
  }

  function DigitValue(c: char): int {
    c as int - '0' as int
  }

  function Value(digits: string): int {
    if digits == "" then 0 else 10 * Value(digits[..|digits| - 1]) + DigitValue(digits[|digits| - 1])
  }

  /** A count is written in decimal digits without a leading zero. */
  lemma {:induction false} DecimalIsValue(n: nat)
    ensures Value(Decimal(n)) == n && Decimal(n) != "" && (forall c | c in Decimal(n) :: '0' <= c <= '9')
    ensures n > 0 ==> Decimal(n)[0] != '0'
  {
    if n >= 10 {
      DecimalIsValue(n / 10);
    }
    var init := if n < 10 then "" else Decimal(n / 10);
    assert Decimal(n)[..|init|] == init && |Decimal(n)| == |init| + 1;
  }

  function Join(parts: seq<string>): string {
    if parts == [] then "" else if |parts| == 1 then parts[0] else parts[0] + "\n\n" + Join(parts[1..])
  }

  function Later(a: Option<int>, b: Option<int>): Option<int> {
    if b.Some? && (a.None? || b.value > a.value) then b else a
  }

  function Latest(run: seq<Item>): Option<int> {
    if run == [] then None else Later(Latest(run[..|run| - 1]), run[|run| - 1].publishedAt)
  }

  /** The latest date present in the run, absent only when no item has one. */
  lemma {:induction false} LatestIsMaximum(run: seq<Item>)
    ensures Latest(run).None? <==> forall x | x in run :: x.publishedAt.None?
    ensures Latest(run).Some? ==> exists x :: x in run && x.publishedAt == Latest(run)
    ensures forall x | x in run && x.publishedAt.Some? :: x.publishedAt.value <= Latest(run).value
  {
    if run != [] {
      LatestIsMaximum(run[..|run| - 1]);
      assert run == run[..|run| - 1] + [run[|run| - 1]];
    }
  }

  function MergedSentences(run: seq<Item>): seq<string> {
    Capped(Distinct(AllSentences(run)))
  }

  /** The merged sentences are the first fifty of the distinct ones. */
  lemma FirstFifty(run: seq<Item>)
    ensures var all := Distinct(AllSentences(run));
      MergedSentences(run) == all[..if |all| < 50 then |all| else 50]
  {
    hide AllSentences, Distinct;
  }

  function Merged(run: seq<Item>): Item
    requires run != []
  {
    var first, text := run[0], Join(MergedSentences(run));
    first.(title := first.title + " - Combined (" + Decimal(|run|) + ")",
           guid := first.guid + "-combined-" + Decimal(|run|),
           content := if first.content != "" then text else "",
           summary := if first.content != "" then first.summary else text,
           publishedAt := Latest(run))
  }

  function Consolidated(runs: seq<seq<Item>>): seq<Item>
    requires MaximalRuns(runs)
  {
    if runs == [] then [] else [MergedRun(runs[0])] + Consolidated(runs[1..])
  }

  function MergedRun(run: seq<Item>): Item
    requires run != []
  {
    if |run| == 1 then run[0] else Merged(run)
  }

  /** A sentence as the merging collects it: one trimmed, non-blank line. */
  predicate IsClean(x: string) {
    x != "" && '\n' !in x && TrimSpace(x) == x
  }

  lemma {:induction false} TrimLeftKeepsChars(s: string)
    ensures forall c | c in TrimLeft(s) :: c in s
  {
    if s != "" && IsSpace(s[0]) {
      TrimLeftKeepsChars(s[1..]);
    }
  }

  lemma TrimKeepsChars(s: string)
    ensures forall c | c in TrimSpace(s) :: c in s
  {
    TrimLeftKeepsChars(s);
    TrimRightEnds(TrimLeft(s));
  }

  lemma {:induction false} LinesHaveNoBreak(text: string)
    ensures forall line | line in Split(text, "\n") :: '\n' !in line
  {
    if text == "" {
      SplitNothing();
    } else {
      hide Split;
      SplitUnfolds(text);
      LinesHaveNoBreak(text[1..]);
    }
  }

  lemma {:induction false} TrimmedAreClean(lines: seq<string>)
    requires forall line | line in lines :: '\n' !in line
    ensures forall x | x in Trimmed(lines) :: IsClean(x)
  {
    if lines != [] {
      hide TrimSpace;
      assert lines[0] in lines;
      TrimmedAreClean(lines[1..]);
      TrimKeepsChars(lines[0]);
      TrimIsIdempotent(lines[0]);
    }
  }

  lemma {:induction false} AllSentencesAreClean(run: seq<Item>)
    ensures forall x | x in AllSentences(run) :: IsClean(x)
  {
    if run != [] {
      hide IsClean, Split, Trimmed;
      var text := Text(run[|run| - 1]);
      AllSentencesAreClean(run[..|run| - 1]);
      LinesHaveNoBreak(text);
      TrimmedAreClean(Split(text, "\n"));
    }
  }

  /** Splitting a run's combined text gives back exactly the sentences that went into it. */
  lemma MergedTextSplitsBack(run: seq<Item>)
    ensures Sentences(Join(MergedSentences(run))) == MergedSentences(run)
  {
    hide IsClean, Sentences, AllSentences, Join;
    AllSentencesAreClean(run);
    CleanTextSplitsBack(MergedSentences(run));
  }

  /** Splitting a text of clean sentences gives them back. */
  lemma {:induction false} CleanTextSplitsBack(parts: seq<string>)
    requires forall x | x in parts :: IsClean(x)
    ensures Sentences(Join(parts)) == parts
  {
    if parts == [] {
      BlankIsTrimmed();
    } else {
      var x := parts[0];
      assert x in parts;
      hide TrimSpace, IsSpace, Split;
      BlankIsTrimmed();
      if |parts| == 1 {
        SplitOneLine(x, "");
        SplitNothing();
        assert x + "" == x;
      } else {
        CleanTextSplitsBack(parts[1..]);
        SentenceThenRest(x, Join(parts[1..]));
      }
    }
  }

  /** A line, a blank line and a text have the line's sentence followed by the text's. */
  lemma SentenceThenRest(x: string, rest: string)
    requires IsClean(x)
    ensures Sentences(x + "\n\n" + rest) == [x] + Sentences(rest)
  {
    hide TrimSpace, IsSpace, Split;
    SplitOneLine(x, "\n\n" + rest);
    SplitBreak(rest);
    BlankIsTrimmed();
    var lines := Split(rest, "\n");
    assert x + "\n\n" + rest == x + ("\n\n" + rest) && x + "" == x;
    assert Split(x + "\n\n" + rest, "\n") == [x] + ([""] + lines);
    TrimmedConcat([x], [""] + lines);
    TrimmedConcat([""], lines);
  }

  lemma SplitNothing()
    ensures Split("", "\n") == [""]
  {
  }

  lemma SplitBreak(rest: string)
    ensures Split("\n\n" + rest, "\n") == ["", ""] + Split(rest, "\n")
  {
    SplitUnfolds("\n\n" + rest);
    assert ("\n\n" + rest)[1..] == "\n" + rest && ("\n" + rest)[1..] == rest;
    SplitUnfolds("\n" + rest);
  }

  /** A piece without newlines is the front of the first line. */
  lemma {:induction false} SplitOneLine(x: string, rest: string)
    requires '\n' !in x
    ensures Split(x + rest, "\n") == [x + Split(rest, "\n")[0]] + Split(rest, "\n")[1..]
  {
    hide *;
    var lines := Split(rest, "\n");
    if x == "" {
      assert x + rest == rest && x + lines[0] == lines[0];
    } else {
      assert (x + rest)[0] == x[0] && (x + rest)[1..] == x[1..] + rest;
      SplitUnfolds(x + rest);
      SplitOneLine(x[1..], rest);
      PrependTo(x[0], x[1..] + lines[0], lines[1..]);
      assert [x[0]] + (x[1..] + lines[0]) == x + lines[0];
    }
  }

  lemma PrependTo(c: char, first: string, others: seq<string>)
    ensures Prepend(c, [first] + others) == [[c] + first] + others
  {
    assert ([first] + others)[1..] == others;
  }

  // ----- The loop itself

  /** The two nested loops over a run's sentences, left early at the cap. */
  method CollectSentences(run: seq<Item>) returns (unique: seq<string>)
    ensures unique == MergedSentences(run)
  {
    hide *;
    var seen: set<string> := {};
    unique := [];
    NoSentences();
    assert run[..0] == [];
    for k := 0 to |run|
      invariant unique == Distinct(AllSentences(run[..k])) && |unique| < MAX_SENTENCES
      invariant SeenExactly(seen, AllSentences(run[..k]))
    {
      var text := run[k].content;
      if text == "" {
        text := run[k].summary;
      }
      AllSentencesSnoc(run, k, text);
      unique, seen := AddSentences(text, unique, seen, AllSentences(run[..k]));
      if |unique| >= MAX_SENTENCES {
        CapReachedEarly(run, k + 1);
        return;
      }
      CappedBelow(AllSentences(run[..k + 1]));
    }
    assert run[..|run|] == run;
    CapNotReached(run);
  }

  lemma NoSentences()
    ensures AllSentences([]) == [] && Distinct([]) == [] && MAX_SENTENCES > 0 && SeenExactly({}, [])
  {
  }

  lemma AllSentencesSnoc(run: seq<Item>, k: nat, text: string)
    requires k < |run| && text == if run[k].content == "" then run[k].summary else run[k].content
    ensures AllSentences(run[..k + 1]) == AllSentences(run[..k]) + Sentences(text)
  {
    hide Sentences;
    assert run[..k + 1][..k] == run[..k];
  }

  lemma CapReachedEarly(run: seq<Item>, k: nat)
    requires k <= |run| && |Capped(Distinct(AllSentences(run[..k])))| >= MAX_SENTENCES
    ensures Capped(Distinct(AllSentences(run[..k]))) == MergedSentences(run)
  {
    hide AllSentences, Distinct;
    assert run == run[..k] + run[k..];
    AllSentencesConcat(run[..k], run[k..]);
    CapReached(AllSentences(run[..k]), AllSentences(run[k..]));
  }

  lemma CappedBelow(s: seq<string>)
    ensures |Capped(Distinct(s))| < MAX_SENTENCES ==> Capped(Distinct(s)) == Distinct(s)
  {
  }

  lemma CapNotReached(run: seq<Item>)
    requires |Distinct(AllSentences(run))| < MAX_SENTENCES
    ensures Distinct(AllSentences(run)) == MergedSentences(run)
  {
  }

  /** The loop over a run's dates. */
  method LatestDate(run: seq<Item>) returns (date: Option<int>)
    requires run != []
    ensures date == Latest(run)
  {
    date := run[0].publishedAt;
    for k := 0 to |run|
      invariant k == 0 ==> date == run[0].publishedAt
      invariant k > 0 ==> date == Latest(run[..k])
    {
      assert run[..k + 1][..k] == run[..k] && (k == 0 ==> run[..k] == []);
      var d := run[k].publishedAt;
      if d.Some? {
        if date.None? || d.value > date.value {
          date := d;
        }
      }
    }
    assert run[..|run|] == run;
  }

  /** consolidateItems: every maximal run of a title becomes one item. */
  method ConsolidateItems(items: seq<Item>) returns (result: seq<Item>)
    ensures MaximalRuns(Runs(items)) && result == Consolidated(Runs(items))
  {
    hide *;
    RunsPartition(items);
    if |items| == 0 {
      ConsolidatedUnfolds(items);
      return items;
    }
    result := [];
    var i := 0;
    assert items[0..] == items;
    while i < |items|
      invariant 0 <= i <= |items|
      invariant MaximalRuns(Runs(items[i..]))
      invariant Consolidated(Runs(items)) == result + Consolidated(Runs(items[i..]))
    {
      var j := i + 1;
      while j < |items| && items[j].title == items[i].title
        invariant i < j <= |items|
        invariant forall k | i <= k < j :: items[k].title == items[i].title
      {
        j := j + 1;
      }
      RunEndsAt(items, i, j);
      ConsolidatedUnfolds(items[i..]);
      assert items[i..][..j - i] == items[i..j] && items[i..][j - i..] == items[j..];
      RunsPartition(items[j..]);
      if j - i == 1 {
        SingleRun(items[i..j]);
        result := result + [items[i]];
      } else {
        var merged := MergeItems(items[i..j]);
        result := result + [merged];
      }
      i := j;
    }
    ConsolidatedUnfolds(items[|items|..]);
  }

  /** The merging branch of consolidateItems. */
  method MergeItems(run: seq<Item>) returns (merged: Item)
    requires |run| > 1
    ensures merged == MergedRun(run)
  {
    merged := run[0];
    var count := |run|;
    var unique := CollectSentences(run);
    var combined := Join(unique);
    var date := LatestDate(run);
    hide MergedSentences, Latest, Join, Decimal;
    merged := merged.(title := run[0].title + " - Combined (" + Decimal(count) + ")");
    if merged.content != "" {
      merged := merged.(content := combined);
    } else {
      merged := merged.(summary := combined);
    }
    merged := merged.(publishedAt := date);
    merged := merged.(guid := merged.guid + "-combined-" + Decimal(count));
  }

  lemma ConsolidatedUnfolds(items: seq<Item>)
    requires MaximalRuns(Runs(items))
    ensures items == [] ==> Consolidated(Runs(items)) == []
    ensures items != [] ==> MaximalRuns(Runs(items[RunLength(items)..])) && items[..RunLength(items)] != [] &&
                            Consolidated(Runs(items)) ==
                            [MergedRun(items[..RunLength(items)])] + Consolidated(Runs(items[RunLength(items)..]))
  {
    hide RunLength, MergedRun, OneTitle;
    if items != [] {
      RunsPartition(items[RunLength(items)..]);
      OneTitleIsNonEmpty(Runs(items));
      assert Runs(items)[1..] == Runs(items[RunLength(items)..]);
    }
  }

  lemma OneTitleIsNonEmpty(runs: seq<seq<Item>>)
    requires MaximalRuns(runs)
    ensures runs != [] ==> runs[0] != []
  {
  }

  lemma SingleRun(run: seq<Item>)
    requires |run| == 1
    ensures MergedRun(run) == run[0]
  {
  }

  lemma {:induction false} RunEndsAt(items: seq<Item>, i: nat, j: nat)
    requires i < j <= |items| && forall k | i <= k < j :: items[k].title == items[i].title
    requires j < |items| ==> items[j].title != items[i].title
    ensures RunLength(items[i..]) == j - i
  {
    var rest := items[i..];
    assert forall k | 0 <= k < |rest| :: rest[k] == items[i + k];
  }
}

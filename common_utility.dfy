/**
 * CommonUtility: token accounting, the relevance-filter wrapper, page
 * augmentation, and the two token-budget packers (word splitter and content
 * batcher).
 *
 * The tokenizer, the page fetch and the relevance assistant are outside code;
 * they enter as the fields of `Collaborators`.
 */
module CommonUtility {
  import opened Wrappers
  import opened Packing
  import opened JavaStrings

  /** Aggregate token ceiling for an evidence set, a batch or a split part. */
  const MAX_TOKEN_SIZE: nat := 8000
  /** Per-item ceiling above which an item is compressed through the embedding store. */
  const MAX_TOKEN_SIZE_FOR_EMBEDDING: nat := 1000

  type Metadata = map<string, string>

  /** A retrieved content item: its text segment and that segment's metadata. */
  datatype Content = Content(text: string, metadata: Metadata)

  /**
   * The texts the langchain4j `TextSegment` and `Document` constructors
   * refuse with an IllegalArgumentException: those whose `trim()` is empty.
   */
  predicate IsRejectedText(s: string)
    ensures IsRejectedText(s) <==> AllTrimmed(s)
  {
    Trim(s) == ""
  }

  /**
   * The outside code CommonUtility calls:
   *  - `estimate`: `OpenAiTokenizer.estimateTokenCountInText`;
   *  - `fetchPage`: `Jsoup.connect(url).get().text()`, `None` when it throws;
   *  - `extractRelevant`: the `extractedData` of `DataFilterAssistant.answer(question, data)`,
   *    `None` when the call throws.
   */
  datatype Collaborators = Collaborators(
    estimate: string -> nat,
    fetchPage: string -> Option<string>,
    extractRelevant: (string, string) -> Option<string>)

  // ---------------------------------------------------------------------
  // Token accounting

  /** The per-item cost the tokenizer assigns to a content's text. */
  function TextCost(estimate: string -> nat): Content -> nat
  {
    (c: Content) => estimate(c.text)
  }

  /** `calculateTokenCount(Content)`: the same count as the list overload
      gives for the one-item list. */
  function ContentTokenCount(c: Content, estimate: string -> nat): (r: nat)
    ensures r == CalculateTokenCount([c], estimate)
  {
    SumSingle(c, TextCost(estimate));
    estimate(c.text)
  }

  /** `calculateTokenCount(List<Content>)`: the estimates of the texts, summed. */
  function CalculateTokenCount(cs: seq<Content>, estimate: string -> nat): (r: nat)
    ensures cs == [] ==> r == 0
  {
    Sum(cs, TextCost(estimate))
  }

  /** The list count is additive over concatenation. */
  lemma TokenCountAppend(a: seq<Content>, b: seq<Content>, estimate: string -> nat)
    ensures CalculateTokenCount(a + b, estimate) == CalculateTokenCount(a, estimate) + CalculateTokenCount(b, estimate)
  {
    SumAppend(a, b, TextCost(estimate));
  }

  /** Read front to back, the list count is the first item's estimate plus the rest's count. */
  lemma TokenCountCons(c: Content, rest: seq<Content>, estimate: string -> nat)
    ensures CalculateTokenCount([c] + rest, estimate) == ContentTokenCount(c, estimate) + CalculateTokenCount(rest, estimate)
  {
    SumAppend([c], rest, TextCost(estimate));
    assert [c][..0] == [];
  }

  // ---------------------------------------------------------------------
  // Relevance filter and page augmentation

  /**
   * `filterRelevantData`: blank input is not sent; a call that throws, an
   * extraction that is blank, or one the `TextSegment` constructor refuses
   * (caught by the same handler), gives no item; otherwise the extraction
   * replaces the text and the metadata is kept.
   */
  function FilterRelevantData(question: string, content: Content, tools: Collaborators): (r: Option<Content>)
    ensures r.Some? <==>
      && !IsBlank(content.text)
      && tools.extractRelevant(question, content.text).Some?
      && !IsBlank(tools.extractRelevant(question, content.text).value)
      && !IsRejectedText(tools.extractRelevant(question, content.text).value)
    ensures r.Some? ==> r.value == Content(tools.extractRelevant(question, content.text).value, content.metadata)
    ensures r.Some? ==> !IsBlank(r.value.text) && !IsRejectedText(r.value.text) && r.value.metadata == content.metadata
  {
    if IsBlank(content.text) then None
    else
      match tools.extractRelevant(question, content.text)
      case None => None
      case Some(extracted) => if IsBlank(extracted) || IsRejectedText(extracted) then None else Some(Content(extracted, content.metadata))
  }

  /** The page text that augments an item: its "url" is present, the fetch
      succeeds and the page text is not blank. */
  predicate PageAvailable(content: Content, tools: Collaborators)
  {
    && "url" in content.metadata
    && tools.fetchPage(content.metadata["url"]).Some?
    && !IsBlank(tools.fetchPage(content.metadata["url"]).value)
  }

  /**
   * `extractWebPageContentFromUrl`: the snippet, a newline and the page text
   * when the page is available, the empty text otherwise (also when the fetch
   * throws). That text is wrapped in a `TextSegment` outside the handler, so
   * a refused text (always the case for the empty one) makes the call throw:
   * `None`. The metadata never changes.
   */
  function ExtractWebPageContentFromUrl(content: Content, tools: Collaborators): (r: Option<Content>)
    ensures !PageAvailable(content, tools) ==> r.None?
    ensures PageAvailable(content, tools) ==>
      var text := content.text + "\n" + tools.fetchPage(content.metadata["url"]).value;
      && (r.Some? <==> !IsRejectedText(text))
      && (r.Some? ==> r.value == Content(text, content.metadata) && !IsBlank(text))
  {
    var webData :=
      if "url" !in content.metadata then ""
      else match tools.fetchPage(content.metadata["url"])
        case None => ""
        case Some(page) => if IsBlank(page) then "" else content.text + "\n" + page;
    if PageAvailable(content, tools) then
      var page := tools.fetchPage(content.metadata["url"]).value;
      BlankAppend(content.text + "\n", page);
      if IsRejectedText(webData) then None else Some(Content(webData, content.metadata))
    else
      assert Trim(webData) == "";
      None
  }

  /** A fetched page with a character above U+0020 always survives the
      `TextSegment` check. */
  lemma VisiblePageIsKept(content: Content, tools: Collaborators)
    requires PageAvailable(content, tools)
    requires !AllTrimmed(tools.fetchPage(content.metadata["url"]).value)
    ensures ExtractWebPageContentFromUrl(content, tools).Some?
  {
    var page := tools.fetchPage(content.metadata["url"]).value;
    var text := content.text + "\n" + page;
    var j :| 0 <= j < |page| && !IsTrimmed(page[j]);
    assert text[|content.text| + 1 + j] == page[j];
  }

  // ---------------------------------------------------------------------
  // Word splitter

  /** The `StringBuilder` of the splitter after `append(word).append(" ")` for each word. */
  function Spaced(ws: seq<string>): string
  {
    if ws == [] then "" else Spaced(ws[..|ws| - 1]) + ws[|ws| - 1] + " "
  }

  lemma SpacedSnoc(ws: seq<string>, w: string)
    ensures Spaced(ws + [w]) == Spaced(ws) + w + " "
  {
    assert (ws + [w])[..|ws|] == ws;
  }

  lemma SpacedSingle(w: string)
    ensures Spaced([w]) == w + " "
  {
    assert [w][..0] == [];
  }

  /** The part the splitter emits for the words `ws`: the builder's text, trimmed. */
  function PartOf(ws: seq<string>, metadata: Metadata): Content
  {
    Content(Trim(Spaced(ws)), metadata)
  }

  /** The builder's text is the words joined with single spaces, plus one trailing space. */
  lemma {:induction false} SpacedIsJoin(ws: seq<string>)
    requires ws != []
    ensures Spaced(ws) == JoinWith(ws, " ") + " "
    decreases |ws|
  {
    var front := ws[..|ws| - 1];
    var w := ws[|ws| - 1];
    assert Spaced(ws) == Spaced(front) + w + " ";
    if front == [] {
      assert ws == [w];
    } else {
      SpacedIsJoin(front);
      JoinSnoc(front, w, " ");
      assert front + [w] == ws;
    }
  }

  /**
   * A part's text is its words joined with single spaces, then trimmed; so
   * it is exactly the joined words when the first word starts and the last
   * word ends above U+0020 (a text that starts with white space has an
   * empty first word, whose space `trim` removes).
   */
  lemma PartText(ws: seq<string>, metadata: Metadata)
    ensures PartOf(ws, metadata).text == Trim(JoinWith(ws, " "))
    ensures ws != [] && ws[0] != [] && !IsTrimmed(ws[0][0]) &&
            ws[|ws| - 1] != [] && !IsTrimmed(ws[|ws| - 1][|ws[|ws| - 1]| - 1]) ==>
      PartOf(ws, metadata).text == JoinWith(ws, " ")
  {
    if ws != [] {
      SpacedIsJoin(ws);
      TrimSpaceAppended(JoinWith(ws, " "));
      var j := JoinWith(ws, " ");
      var first, last := ws[0], ws[|ws| - 1];
      if first != [] && !IsTrimmed(first[0]) && last != [] && !IsTrimmed(last[|last| - 1]) {
        JoinEdges(ws, " ");
        assert j[0] == j[..|first|][0];
        assert j[|j| - 1] == j[|j| - |last|..][|last| - 1];
        TrimClean(j);
      }
    }
  }

  /** The parts emitted for `groups`, in order. */
  function PartsOf(groups: seq<seq<string>>, metadata: Metadata): seq<Content>
  {
    if groups == [] then [] else PartsOf(groups[..|groups| - 1], metadata) + [PartOf(groups[|groups| - 1], metadata)]
  }

  lemma {:induction false} PartsOfAt(groups: seq<seq<string>>, metadata: Metadata)
    ensures |PartsOf(groups, metadata)| == |groups|
    ensures forall i :: 0 <= i < |groups| ==> PartsOf(groups, metadata)[i] == PartOf(groups[i], metadata)
    decreases |groups|
  {
    if groups != [] {
      var n := |groups| - 1;
      PartsOfAt(groups[..n], metadata);
      forall i | 0 <= i < n ensures PartsOf(groups, metadata)[i] == PartOf(groups[i], metadata) {
        assert groups[..n][i] == groups[i];
      }
    }
  }

  /** 1 when the first word alone is over the ceiling, so that the splitter
      closes its still-empty first part before it; 0 otherwise. */
  function LeadingEmptyParts(words: seq<string>, estimate: string -> nat): nat
  {
    if words != [] && estimate(words[0]) > MAX_TOKEN_SIZE then 1 else 0
  }

  /**
   * The word groups of the splitter's parts for `words`: after an optional
   * leading empty group (present exactly when the first word alone is over
   * the ceiling), the greedy packing of the words under MAX_TOKEN_SIZE.
   */
  ghost predicate IsWordSplit(groups: seq<seq<string>>, words: seq<string>, estimate: string -> nat)
  {
    var lead := LeadingEmptyParts(words, estimate);
    && |groups| >= lead
    && (lead == 1 ==> groups[0] == [])
    && IsGreedyPacking(groups[lead..], words, estimate, MAX_TOKEN_SIZE)
  }

  /**
   * The word groups of the splitter's parts, computed directly: the leading
   * empty group when the first word alone is over the ceiling, then the
   * functional greedy pass over the words.
   */
  function WordGroups(words: seq<string>, estimate: string -> nat): (r: seq<seq<string>>)
    ensures Flatten(r) == words
    ensures (r != [] && r[0] == []) <==> LeadingEmptyParts(words, estimate) == 1
  {
    var packed := GreedyPack(words, estimate, MAX_TOKEN_SIZE);
    if LeadingEmptyParts(words, estimate) == 1 then
      FlattenCons([], packed);
      [[]] + packed
    else
      assert [] + packed == packed;
      [] + packed
  }

  /** `WordGroups` is a word split, and the only one. */
  lemma WordGroupsIsSplit(words: seq<string>, estimate: string -> nat)
    ensures IsWordSplit(WordGroups(words, estimate), words, estimate)
  {
    GreedyPackIsGreedy(words, estimate, MAX_TOKEN_SIZE);
    var g := WordGroups(words, estimate);
    assert g[LeadingEmptyParts(words, estimate)..] == GreedyPack(words, estimate, MAX_TOKEN_SIZE);
  }

  lemma WordSplitUnique(groups: seq<seq<string>>, words: seq<string>, estimate: string -> nat)
    requires IsWordSplit(groups, words, estimate)
    ensures groups == WordGroups(words, estimate)
  {
    var lead := LeadingEmptyParts(words, estimate);
    PackingIsGreedyPack(groups[lead..], words, estimate, MAX_TOKEN_SIZE);
    if lead == 1 {
      assert groups == [groups[0]] + groups[1..];
    } else {
      assert groups == groups[0..];
    }
  }

  /** No part is refused by the `TextSegment` constructor. */
  predicate AllAccepted(parts: seq<Content>)
  {
    forall i :: 0 <= i < |parts| ==> !IsRejectedText(parts[i].text)
  }

  lemma AllAcceptedSnoc(parts: seq<Content>, c: Content)
    ensures AllAccepted(parts + [c]) <==> AllAccepted(parts) && !IsRejectedText(c.text)
  {
    var next := parts + [c];
    assert next[|parts|] == c;
    forall i | 0 <= i < |parts|
      ensures next[i] == parts[i]
    {
    }
  }

  /**
   * What `splitContentIntoSmallerParts` produces: one part per word group of
   * the `\s+`-separated words, each its group as the builder wrote it,
   * trimmed, under the content's metadata; `None` when one of those parts is
   * empty, since its `TextSegment` constructor then throws.
   */
  function SplitParts(content: Content, estimate: string -> nat): (r: Option<seq<Content>>)
    ensures var groups := WordGroups(SplitOnWhitespace(content.text), estimate);
      r.Some? ==>
        && |r.value| == |groups|
        && forall i :: 0 <= i < |groups| ==>
             && r.value[i] == Content(Trim(Spaced(groups[i])), content.metadata)
             && !IsRejectedText(r.value[i].text)
  {
    PartsOfAt(WordGroups(SplitOnWhitespace(content.text), estimate), content.metadata);
    var parts := PartsOf(WordGroups(SplitOnWhitespace(content.text), estimate), content.metadata);
    if AllAccepted(parts) then Some(parts) else None
  }

  /**
   * `splitContentIntoSmallerParts`, proved to produce `SplitParts`. The
   * tokenizer has no effect, so the loop notes a refused part and finishes
   * the pass, which ends the same way as the throw.
   */
  method SplitContentIntoSmallerParts(content: Content, estimate: string -> nat)
    returns (r: Option<seq<Content>>)
    ensures r == SplitParts(content, estimate)
  {
    var words := SplitOnWhitespace(content.text);
    var smallerParts: seq<Content> := [];
    var refused := false;
    ghost var groups: seq<seq<string>> := [];
    var tokenCount: nat := 0;
    var currentTextPart: string := "";
    ghost var current: seq<string> := [];

    for k := 0 to |words|
      invariant smallerParts == PartsOf(groups, content.metadata)
      invariant refused == !AllAccepted(smallerParts)
      invariant currentTextPart == Spaced(current)
      invariant tokenCount == Sum(current, estimate)
      invariant SplitInvariant(groups, current, words, k, estimate)
    {
      var word := words[k];
      var wordTokenCount := estimate(word);
      if tokenCount + wordTokenCount <= MAX_TOKEN_SIZE {
        SpacedSnoc(current, word);
        SumSnoc(current, word, estimate);
        SplitKeepsWord(groups, current, words, k, estimate);
        currentTextPart := currentTextPart + word + " ";
        tokenCount := tokenCount + wordTokenCount;
        current := current + [word];
      } else {
        SplitStartsPart(groups, current, words, k, estimate);
        PartsOfSnoc(groups, current, content.metadata);
        var part := Content(Trim(currentTextPart), content.metadata);
        AllAcceptedSnoc(smallerParts, part);
        refused := refused || IsRejectedText(part.text);
        smallerParts := smallerParts + [part];
        groups := groups + [current];
        currentTextPart := word + " ";
        tokenCount := wordTokenCount;
        SpacedSingle(word);
        SumSingle(word, estimate);
        current := [word];
      }
    }

    SpacedEmpty(current);
    SplitFinish(groups, current, words, estimate);
    if currentTextPart != "" {
      PartsOfSnoc(groups, current, content.metadata);
      var part := Content(Trim(currentTextPart), content.metadata);
      AllAcceptedSnoc(smallerParts, part);
      refused := refused || IsRejectedText(part.text);
      smallerParts := smallerParts + [part];
      groups := groups + [current];
    }
    WordSplitUnique(groups, words, estimate);
    r := if refused then None else Some(smallerParts);
  }

  /** What the splitter's loop keeps after `k` words: no part yet before the
      first word; afterwards the optional leading empty part, then the closed
      groups and the open one form a greedy packing of the words read. */
  ghost predicate SplitInvariant(groups: seq<seq<string>>, current: seq<string>, words: seq<string>, k: nat, estimate: string -> nat)
  {
    var lead := LeadingEmptyParts(words, estimate);
    && k <= |words|
    && (k == 0 ==> groups == [] && current == [])
    && (k > 0 ==>
      && |groups| >= lead
      && (lead == 1 ==> groups[0] == [])
      && IsGreedyPacking(groups[lead..] + [current], words[..k], estimate, MAX_TOKEN_SIZE))
  }

  /** The next word fits: it joins the open part. */
  lemma SplitKeepsWord(groups: seq<seq<string>>, current: seq<string>, words: seq<string>, k: nat, estimate: string -> nat)
    requires k < |words| && SplitInvariant(groups, current, words, k, estimate)
    requires Sum(current, estimate) + estimate(words[k]) <= MAX_TOKEN_SIZE
    ensures SplitInvariant(groups, current + [words[k]], words, k + 1, estimate)
  {
    var lead := LeadingEmptyParts(words, estimate);
    PrefixSnoc(words, k);
    if k == 0 {
      PackingStart(words[k], estimate, MAX_TOKEN_SIZE);
    } else {
      PackingExtend(groups[lead..], current, words[..k], words[k], estimate, MAX_TOKEN_SIZE);
    }
  }

  /** The next word does not fit: the open part is emitted and the word opens the next one. */
  lemma SplitStartsPart(groups: seq<seq<string>>, current: seq<string>, words: seq<string>, k: nat, estimate: string -> nat)
    requires k < |words| && SplitInvariant(groups, current, words, k, estimate)
    requires Sum(current, estimate) + estimate(words[k]) > MAX_TOKEN_SIZE
    ensures SplitInvariant(groups + [current], [words[k]], words, k + 1, estimate)
  {
    var lead := LeadingEmptyParts(words, estimate);
    PrefixSnoc(words, k);
    if k == 0 {
      PackingStart(words[k], estimate, MAX_TOKEN_SIZE);
    } else {
      PackingClose(groups[lead..], current, words[..k], words[k], estimate, MAX_TOKEN_SIZE);
      assert (groups + [current])[lead..] == groups[lead..] + [current];
    }
  }

  /** After the last word the open part is non-empty exactly when there were
      words, and emitting it completes the split. */
  lemma SplitFinish(groups: seq<seq<string>>, current: seq<string>, words: seq<string>, estimate: string -> nat)
    requires SplitInvariant(groups, current, words, |words|, estimate)
    ensures current == [] <==> words == []
    ensures IsWordSplit(if current == [] then groups else groups + [current], words, estimate)
  {
    var lead := LeadingEmptyParts(words, estimate);
    assert words[..|words|] == words;
    if words != [] {
      var final := groups + [current];
      assert final[lead..] == groups[lead..] + [current];
    }
  }

  /**
   * What the splitter promises about its groups: concatenated, they are the
   * words (no word lost, duplicated or reordered); when no single word is
   * over MAX_TOKEN_SIZE no group is; and there are groups exactly when there
   * are words.
   */
  lemma WordSplitProperties(words: seq<string>, estimate: string -> nat)
    ensures Flatten(WordGroups(words, estimate)) == words
    ensures (forall k :: 0 <= k < |words| ==> estimate(words[k]) <= MAX_TOKEN_SIZE) ==>
      forall i :: 0 <= i < |WordGroups(words, estimate)| ==> Sum(WordGroups(words, estimate)[i], estimate) <= MAX_TOKEN_SIZE
    ensures WordGroups(words, estimate) != [] <==> words != []
  {
    var groups := WordGroups(words, estimate);
    WordGroupsIsSplit(words, estimate);
    var lead := LeadingEmptyParts(words, estimate);
    SplitGroupsFlatten(groups, words, lead, estimate);
    if words == [] {
      PackingOfEmpty(groups[lead..], estimate, MAX_TOKEN_SIZE);
      assert groups == groups[lead..];
    } else {
      PackingHead(groups[lead..], words, estimate, MAX_TOKEN_SIZE);
    }
    if forall k :: 0 <= k < |words| ==> estimate(words[k]) <= MAX_TOKEN_SIZE {
      PackingAllFit(groups[lead..], words, estimate, MAX_TOKEN_SIZE);
      assert groups == groups[lead..];
    }
  }

  /** When the first word alone is over the ceiling, the splitter's first
      part is empty, and the call fails. */
  lemma SplitRefusesLeadingEmptyPart(content: Content, estimate: string -> nat)
    requires LeadingEmptyParts(SplitOnWhitespace(content.text), estimate) == 1
    ensures SplitParts(content, estimate) == None
  {
    var metadata := content.metadata;
    var groups := WordGroups(SplitOnWhitespace(content.text), estimate);
    PartsOfAt(groups, metadata);
    assert groups[0] == [];
    assert PartOf([], metadata).text == "";
  }

  /** The empty text splits into one empty word, whose part is empty: the
      call fails. */
  lemma SplitRefusesEmptyText(content: Content, estimate: string -> nat)
    requires content.text == ""
    ensures SplitParts(content, estimate) == None
  {
    var metadata := content.metadata;
    var words := SplitOnWhitespace(content.text);
    assert words == [""];
    if LeadingEmptyParts(words, estimate) == 1 {
      SplitRefusesLeadingEmptyPart(content, estimate);
    } else {
      assert GroupEnd(words, estimate, MAX_TOKEN_SIZE, 1) == 1;
      assert words[..1] == [""] && words[1..] == [];
      var groups := WordGroups(words, estimate);
      assert groups == GreedyPack(words, estimate, MAX_TOKEN_SIZE);
      assert groups == [[""]] + GreedyPack([], estimate, MAX_TOKEN_SIZE);
      PartsOfAt(groups, metadata);
      SpacedSingle("");
      assert "" + " " == " ";
      assert PartOf(groups[0], metadata).text == "";
    }
  }

  /** The builder's text has a character above U+0020 as soon as one of its
      words has. */
  lemma {:induction false} SpacedVisible(ws: seq<string>, i: nat)
    requires i < |ws| && !AllTrimmed(ws[i])
    ensures !AllTrimmed(Spaced(ws))
    decreases |ws|
  {
    var front := ws[..|ws| - 1];
    var w := ws[|ws| - 1];
    assert Spaced(ws) == Spaced(front) + w + " ";
    if i == |ws| - 1 {
      var j :| 0 <= j < |w| && !IsTrimmed(w[j]);
      assert Spaced(ws)[|Spaced(front)| + j] == w[j];
    } else {
      SpacedVisible(front, i);
      var j :| 0 <= j < |Spaced(front)| && !IsTrimmed(Spaced(front)[j]);
      assert Spaced(ws)[j] == Spaced(front)[j];
    }
  }

  /** When the first word fits and every word has a character above U+0020,
      no part is empty and the split succeeds. */
  lemma SplitAcceptsVisibleWords(content: Content, estimate: string -> nat)
    requires var words := SplitOnWhitespace(content.text);
      && LeadingEmptyParts(words, estimate) == 0
      && forall k :: 0 <= k < |words| ==> !AllTrimmed(words[k])
    ensures var words := SplitOnWhitespace(content.text);
      SplitParts(content, estimate) == Some(PartsOf(WordGroups(words, estimate), content.metadata))
  {
    var words := SplitOnWhitespace(content.text);
    var metadata := content.metadata;
    var packed := GreedyPack(words, estimate, MAX_TOKEN_SIZE);
    assert WordGroups(words, estimate) == packed;
    GreedyPackIsGreedy(words, estimate, MAX_TOKEN_SIZE);
    PackedPartsAccepted(packed, words, metadata);
  }

  /** Non-empty groups of words that each have a character above U+0020
      give no empty part. */
  lemma PackedPartsAccepted(packed: seq<seq<string>>, words: seq<string>, metadata: Metadata)
    requires Flatten(packed) == words
    requires forall i :: 0 <= i < |packed| ==> packed[i] != []
    requires forall k :: 0 <= k < |words| ==> !AllTrimmed(words[k])
    ensures AllAccepted(PartsOf(packed, metadata))
  {
    PartsOfAt(packed, metadata);
    forall i | 0 <= i < |packed|
      ensures !IsRejectedText(PartsOf(packed, metadata)[i].text)
    {
      FlattenContains(packed, i, 0);
      GroupPartAccepted(packed[i], words, metadata);
    }
  }

  /** A part whose first word is one of `words`, each with a character above
      U+0020, is not empty. */
  lemma GroupPartAccepted(g: seq<string>, words: seq<string>, metadata: Metadata)
    requires g != [] && g[0] in words
    requires forall k :: 0 <= k < |words| ==> !AllTrimmed(words[k])
    ensures !IsRejectedText(PartOf(g, metadata).text)
  {
    var k :| 0 <= k < |words| && words[k] == g[0];
    SpacedVisible(g, 0);
    TrimStartVisible(Spaced(g));
    TrimEndKeepsFirst(TrimStart(Spaced(g)));
  }

  lemma PartsOfSnoc(groups: seq<seq<string>>, g: seq<string>, metadata: Metadata)
    ensures PartsOf(groups + [g], metadata) == PartsOf(groups, metadata) + [PartOf(g, metadata)]
  {
    assert (groups + [g])[..|groups|] == groups;
  }

  /** The optional leading empty part contributes no words. */
  lemma SplitGroupsFlatten(groups: seq<seq<string>>, words: seq<string>, lead: nat, estimate: string -> nat)
    requires lead <= 1 && |groups| >= lead && (lead == 1 ==> groups[0] == [])
    requires IsGreedyPacking(groups[lead..], words, estimate, MAX_TOKEN_SIZE)
    ensures Flatten(groups) == words
  {
    if lead == 1 {
      assert groups == [[]] + groups[1..];
      FlattenCons([], groups[1..]);
    }
  }

  /** The builder's text ends in a space after every word, so it is empty only
      when no word was appended. */
  lemma SpacedEmpty(ws: seq<string>)
    ensures Spaced(ws) == "" <==> ws == []
  {
  }

  // ---------------------------------------------------------------------
  // Content batcher

  /**
   * `createOptimalBatchesUnderTokenLimit`: one left-to-right pass that
   * closes the open batch as soon as the next item would take its token sum
   * past MAX_TOKEN_SIZE. The batches are the greedy packing of the items:
   * they flatten back to the items, none is empty, and `BatchBounds` gives
   * the token bounds every such packing meets.
   */
  method CreateOptimalBatchesUnderTokenLimit(contents: seq<Content>, estimate: string -> nat)
    returns (batches: seq<seq<Content>>)
    ensures IsGreedyPacking(batches, contents, TextCost(estimate), MAX_TOKEN_SIZE)
    ensures batches == GreedyPack(contents, TextCost(estimate), MAX_TOKEN_SIZE)
  {
    batches := [];
    var currentBatch: seq<Content> := [];
    var currentTokenCount: nat := 0;

    for k := 0 to |contents|
      invariant currentTokenCount == CalculateTokenCount(currentBatch, estimate)
      invariant BatchInvariant(batches, currentBatch, contents, k, estimate)
    {
      var content := contents[k];
      var contentTokenCount := ContentTokenCount(content, estimate);
      if currentTokenCount + contentTokenCount <= MAX_TOKEN_SIZE {
        BatchKeepsItem(batches, currentBatch, contents, k, estimate);
        currentBatch := currentBatch + [content];
        currentTokenCount := currentTokenCount + contentTokenCount;
      } else {
        BatchStartsBatch(batches, currentBatch, contents, k, estimate);
        if currentBatch != [] {
          batches := batches + [currentBatch];
        }
        SumSingle(content, TextCost(estimate));
        currentBatch := [content];
        currentTokenCount := contentTokenCount;
      }
    }

    BatchFinish(batches, currentBatch, contents, estimate);
    if currentBatch != [] {
      batches := batches + [currentBatch];
    }
    PackingIsGreedyPack(batches, contents, TextCost(estimate), MAX_TOKEN_SIZE);
  }

  /** What the batcher's loop keeps after `k` items: nothing before the first
      one; afterwards the closed batches and the open one form a greedy
      packing of the items read. */
  ghost predicate BatchInvariant(batches: seq<seq<Content>>, currentBatch: seq<Content>, contents: seq<Content>, k: nat, estimate: string -> nat)
  {
    && k <= |contents|
    && (k == 0 ==> batches == [] && currentBatch == [])
    && (k > 0 ==> IsGreedyPacking(batches + [currentBatch], contents[..k], TextCost(estimate), MAX_TOKEN_SIZE))
  }

  /** The next item fits: it joins the open batch. */
  lemma BatchKeepsItem(batches: seq<seq<Content>>, currentBatch: seq<Content>, contents: seq<Content>, k: nat, estimate: string -> nat)
    requires k < |contents| && BatchInvariant(batches, currentBatch, contents, k, estimate)
    requires CalculateTokenCount(currentBatch, estimate) + ContentTokenCount(contents[k], estimate) <= MAX_TOKEN_SIZE
    ensures BatchInvariant(batches, currentBatch + [contents[k]], contents, k + 1, estimate)
    ensures CalculateTokenCount(currentBatch + [contents[k]], estimate) ==
      CalculateTokenCount(currentBatch, estimate) + ContentTokenCount(contents[k], estimate)
  {
    var cost := TextCost(estimate);
    PrefixSnoc(contents, k);
    SumSnoc(currentBatch, contents[k], cost);
    if k == 0 {
      PackingStart(contents[k], cost, MAX_TOKEN_SIZE);
    } else {
      PackingExtend(batches, currentBatch, contents[..k], contents[k], cost, MAX_TOKEN_SIZE);
    }
  }

  /** The next item does not fit: the open batch, if any, is closed and the item opens the next one. */
  lemma BatchStartsBatch(batches: seq<seq<Content>>, currentBatch: seq<Content>, contents: seq<Content>, k: nat, estimate: string -> nat)
    requires k < |contents| && BatchInvariant(batches, currentBatch, contents, k, estimate)
    requires CalculateTokenCount(currentBatch, estimate) + ContentTokenCount(contents[k], estimate) > MAX_TOKEN_SIZE
    ensures currentBatch == [] <==> k == 0
    ensures BatchInvariant(if currentBatch != [] then batches + [currentBatch] else batches, [contents[k]], contents, k + 1, estimate)
  {
    var cost := TextCost(estimate);
    PrefixSnoc(contents, k);
    if k == 0 {
      PackingStart(contents[k], cost, MAX_TOKEN_SIZE);
    } else {
      assert (batches + [currentBatch])[|batches|] == currentBatch;
      PackingClose(batches, currentBatch, contents[..k], contents[k], cost, MAX_TOKEN_SIZE);
    }
  }

  /** After the last item the open batch is non-empty exactly when there
      were items, and closing it completes the packing. */
  lemma BatchFinish(batches: seq<seq<Content>>, currentBatch: seq<Content>, contents: seq<Content>, estimate: string -> nat)
    requires BatchInvariant(batches, currentBatch, contents, |contents|, estimate)
    ensures currentBatch == [] <==> contents == []
    ensures IsGreedyPacking(if currentBatch != [] then batches + [currentBatch] else batches, contents, TextCost(estimate), MAX_TOKEN_SIZE)
  {
    assert contents[..|contents|] == contents;
    if contents != [] {
      assert (batches + [currentBatch])[|batches|] == currentBatch;
    }
  }

  /** The token bounds every greedy batching meets, and its maximality: each
      batch but the last was closed only because the next item did not fit. */
  lemma BatchBounds(batches: seq<seq<Content>>, contents: seq<Content>, estimate: string -> nat)
    requires IsGreedyPacking(batches, contents, TextCost(estimate), MAX_TOKEN_SIZE)
    ensures Flatten(batches) == contents
    ensures forall i :: 0 <= i < |batches| ==> batches[i] != []
    ensures forall i :: 0 <= i < |batches| && |batches[i]| >= 2 ==>
      CalculateTokenCount(batches[i], estimate) <= MAX_TOKEN_SIZE
    ensures forall i :: 0 <= i < |batches| && CalculateTokenCount(batches[i], estimate) > MAX_TOKEN_SIZE ==>
      |batches[i]| == 1 && ContentTokenCount(batches[i][0], estimate) > MAX_TOKEN_SIZE
    ensures forall i :: 0 <= i < |batches| - 1 ==>
      CalculateTokenCount(batches[i], estimate) + ContentTokenCount(batches[i + 1][0], estimate) > MAX_TOKEN_SIZE
  {
    forall i | 0 <= i < |batches| - 1
      ensures CalculateTokenCount(batches[i], estimate) + ContentTokenCount(batches[i + 1][0], estimate) > MAX_TOKEN_SIZE
    {
      assert ClosedWhenFull(batches, i, TextCost(estimate), MAX_TOKEN_SIZE);
    }
    forall i | 0 <= i < |batches| && CalculateTokenCount(batches[i], estimate) > MAX_TOKEN_SIZE
      ensures |batches[i]| == 1 && ContentTokenCount(batches[i][0], estimate) > MAX_TOKEN_SIZE
    {
      PackingOverflowIsSingleton(batches, contents, TextCost(estimate), MAX_TOKEN_SIZE, i);
    }
  }

  /**
   * Five items of 2000 tokens each (10000 in total) can be packed under the
   * 8000 ceiling in one way only: the first four together (8000 exactly) and
   * the fifth alone.
   */
  lemma FiveItemsOfTwoThousand(contents: seq<Content>, estimate: string -> nat, batches: seq<seq<Content>>)
    requires |contents| == 5
    requires forall k :: 0 <= k < 5 ==> estimate(contents[k].text) == 2000
    requires IsGreedyPacking(batches, contents, TextCost(estimate), MAX_TOKEN_SIZE)
    ensures batches == [contents[..4], contents[4..]]
  {
    var cost := TextCost(estimate);
    var first, second := contents[..4], contents[4..];
    forall k | 0 <= k < |first|
      ensures cost(first[k]) == 2000
    {
      assert first[k] == contents[k];
    }
    forall k | 0 <= k < |second|
      ensures cost(second[k]) == 2000
    {
      assert second[k] == contents[4 + k];
    }
    SumOfEqualCosts(first, cost, 2000);
    SumOfEqualCosts(second, cost, 2000);
    var expected := [first, second];
    assert Flatten([first]) == Flatten([]) + first;
    assert Flatten(expected) == Flatten([first]) + second;
    assert first + second == contents;
    assert ClosedWhenFull(expected, 0, cost, MAX_TOKEN_SIZE);
    assert IsGreedyPacking(expected, contents, cost, MAX_TOKEN_SIZE);
    GreedyPackingUnique(batches, expected, contents, cost, MAX_TOKEN_SIZE);
  }
}

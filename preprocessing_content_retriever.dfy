/**
 * PreprocessingContentRetriever: for each web-search hit, augment it with its
 * page text, then either send it straight to the relevance filter or, when it
 * is long, compress it first through the embedding store (split into
 * sentences, keep the long ones, group them, ingest the groups, query with the
 * question, clear the store) and filter the compressed text.
 */
module PreprocessingContentRetriever {
  import opened Wrappers
  import opened Packing
  import opened Subsequences
  import opened JavaStrings
  import opened CommonUtility
  import opened EmbeddingStore

  /** Sentences of this many characters or fewer are discarded. */
  const SENTENCE_FILTER_LENGTH: nat := 10
  /** Number of sentences ingested together as one document. */
  const GROUP_TEXT_LENGTH: nat := 15

  // ---------------------------------------------------------------------
  // Sentence split: text.split("(?<=[.!?])\\s*")

  /** The characters after which the sentence pattern matches. */
  predicate IsSentenceEnd(c: char)
  {
    c == '.' || c == '!' || c == '?'
  }

  /** Index of the first sentence end in `s`, or `|s|` when there is none. */
  function SentenceEnd(s: string): (k: nat)
    ensures k <= |s|
    ensures forall j :: 0 <= j < k ==> !IsSentenceEnd(s[j])
    ensures k < |s| ==> IsSentenceEnd(s[k])
  {
    if s == [] || IsSentenceEnd(s[0]) then 0 else 1 + SentenceEnd(s[1..])
  }

  /** Length of the leading run of `\s` characters: what `\s*` consumes. */
  function SpaceRun(s: string): (k: nat)
    ensures k <= |s|
    ensures forall j :: 0 <= j < k ==> IsRegexSpace(s[j])
    ensures k < |s| ==> !IsRegexSpace(s[k])
  {
    if s == [] || !IsRegexSpace(s[0]) then 0 else 1 + SpaceRun(s[1..])
  }

  /** A piece the split can produce: no sentence end before its last character. */
  predicate IsSentencePiece(p: string)
  {
    forall j :: 0 <= j < |p| - 1 ==> !IsSentenceEnd(p[j])
  }

  /** A piece closed by a match: non-empty and ending in a sentence end. */
  predicate EndsSentence(p: string)
  {
    p != [] && IsSentenceEnd(p[|p| - 1])
  }

  /**
   * The split. The pattern matches right after every `.`, `!` or `?` and
   * consumes the `\s` characters that follow, so each piece runs up to and
   * including the next sentence end, and the next piece starts after the
   * white space. Java drops the empty piece a match at the very end leaves,
   * and returns a text without any match (in particular "") whole.
   */
  function SplitIntoSentences(s: string): (r: seq<string>)
    ensures |r| >= 1
    ensures s == "" ==> r == [""]
    ensures forall i :: 0 <= i < |r| - 1 ==> EndsSentence(r[i])
    decreases |s|
  {
    var k := SentenceEnd(s);
    if k == |s| then [s]
    else
      var rest := s[k + 1..];
      var next := rest[SpaceRun(rest)..];
      if next == "" then [s[..k + 1]]
      else [s[..k + 1]] + SplitIntoSentences(next)
  }

  /** Every piece holds one sentence end at most, as its last character; a
      piece after the first starts after the consumed white space; and only
      the empty text gives an empty piece. */
  lemma {:induction false} SentencePieces(s: string)
    ensures WellFormedPieces(SplitIntoSentences(s), s != "")
    decreases |s|
  {
    var k := SentenceEnd(s);
    if k < |s| {
      var rest := s[k + 1..];
      var next := rest[SpaceRun(rest)..];
      var piece := s[..k + 1];
      if next != "" {
        SentencePieces(next);
        var tail := SplitIntoSentences(next);
        assert SplitIntoSentences(s) == [piece] + tail;
        PiecesCons(piece, tail, s != "");
      } else {
        assert SplitIntoSentences(s) == [piece];
      }
    }
  }

  /** The shape `SentencePieces` states, with `nonEmpty` for a non-empty text. */
  predicate WellFormedPieces(r: seq<string>, nonEmpty: bool)
  {
    && (forall i :: 0 <= i < |r| ==> IsSentencePiece(r[i]))
    && (forall i :: 0 < i < |r| ==> r[i] != [] && !IsRegexSpace(r[i][0]))
    && (nonEmpty ==> forall i :: 0 <= i < |r| ==> r[i] != [])
  }

  lemma PiecesCons(piece: string, tail: seq<string>, nonEmpty: bool)
    requires piece != [] && IsSentencePiece(piece)
    requires WellFormedPieces(tail, true) && tail != [] && !IsRegexSpace(tail[0][0])
    ensures WellFormedPieces([piece] + tail, nonEmpty)
  {
    var r := [piece] + tail;
    forall i | 0 < i < |r|
      ensures r[i] == tail[i - 1]
    {
    }
  }

  /**
   * Reference for what the split keeps: `s` with every run of `\s` that
   * directly follows a sentence end deleted. `afterEnd` says whether the
   * previous kept character was a sentence end.
   */
  function DropSpacesAfterEnds(s: string, afterEnd: bool): string
    decreases |s|
  {
    if s == [] then ""
    else if afterEnd && IsRegexSpace(s[0]) then DropSpacesAfterEnds(s[1..], true)
    else [s[0]] + DropSpacesAfterEnds(s[1..], IsSentenceEnd(s[0]))
  }

  /** The pieces, put back together, are the text minus the white space the matches consumed. */
  lemma {:induction false} SentencesFlatten(s: string)
    ensures Flatten(SplitIntoSentences(s)) == DropSpacesAfterEnds(s, false)
    decreases |s|
  {
    var k := SentenceEnd(s);
    if k == |s| {
      DropNoEnd(s);
      assert Flatten([s]) == Flatten([]) + s;
    } else {
      var rest := s[k + 1..];
      var m := SpaceRun(rest);
      var next := rest[m..];
      DropUpToEnd(s, k);
      DropSpaces(rest, m);
      DropSettled(next);
      if next == "" {
        assert Flatten([s[..k + 1]]) == Flatten([]) + s[..k + 1];
      } else {
        SentencesFlatten(next);
        FlattenCons(s[..k + 1], SplitIntoSentences(next));
      }
    }
  }

  lemma {:induction false} DropNoEnd(s: string)
    requires forall j :: 0 <= j < |s| ==> !IsSentenceEnd(s[j])
    ensures DropSpacesAfterEnds(s, false) == s
    decreases |s|
  {
    if s != [] {
      DropNoEnd(s[1..]);
      assert s == [s[0]] + s[1..];
    }
  }

  lemma {:induction false} DropUpToEnd(s: string, k: nat)
    requires k < |s| && IsSentenceEnd(s[k])
    requires forall j :: 0 <= j < k ==> !IsSentenceEnd(s[j])
    ensures DropSpacesAfterEnds(s, false) == s[..k + 1] + DropSpacesAfterEnds(s[k + 1..], true)
    decreases k
  {
    if k == 0 {
      assert s[..1] == [s[0]];
    } else {
      DropUpToEnd(s[1..], k - 1);
      assert s[1..][k..] == s[k + 1..];
      assert [s[0]] + s[1..][..k] == s[..k + 1];
    }
  }

  lemma {:induction false} DropSpaces(t: string, m: nat)
    requires m <= |t|
    requires forall j :: 0 <= j < m ==> IsRegexSpace(t[j])
    ensures DropSpacesAfterEnds(t, true) == DropSpacesAfterEnds(t[m..], true)
    decreases m
  {
    if m > 0 {
      DropSpaces(t[1..], m - 1);
      assert t[1..][m - 1..] == t[m..];
    }
  }

  lemma DropSettled(t: string)
    requires t == [] || !IsRegexSpace(t[0])
    ensures DropSpacesAfterEnds(t, true) == DropSpacesAfterEnds(t, false)
  {
  }

  // ---------------------------------------------------------------------
  // Sentence filter and grouping

  /** The pieces longer than SENTENCE_FILTER_LENGTH characters, in order. */
  function FilterSentences(xs: seq<string>): (r: seq<string>)
    ensures forall i :: 0 <= i < |r| ==> |r[i]| > SENTENCE_FILTER_LENGTH
    decreases |xs|
  {
    if xs == [] then []
    else
      var front := FilterSentences(xs[..|xs| - 1]);
      var x := xs[|xs| - 1];
      if |x| > SENTENCE_FILTER_LENGTH then front + [x] else front
  }

  /** The filter keeps every long piece as often as it occurs, and nothing else. */
  lemma {:induction false} FilterSentencesCounts(xs: seq<string>)
    ensures forall w :: multiset(FilterSentences(xs))[w] == if |w| > SENTENCE_FILTER_LENGTH then multiset(xs)[w] else 0
    decreases |xs|
  {
    if xs != [] {
      var front := xs[..|xs| - 1];
      var x := xs[|xs| - 1];
      var kept := FilterSentences(front);
      FilterSentencesCounts(front);
      assert xs == front + [x];
      var r := if |x| > SENTENCE_FILTER_LENGTH then kept + [x] else kept;
      assert FilterSentences(xs) == r;
      forall w ensures multiset(r)[w] == if |w| > SENTENCE_FILTER_LENGTH then multiset(xs)[w] else 0 {
        assert multiset(xs)[w] == multiset(front)[w] + multiset{x}[w];
        if |x| > SENTENCE_FILTER_LENGTH {
          assert multiset(r)[w] == multiset(kept)[w] + multiset{x}[w];
        }
      }
    }
  }

  /** The filter keeps the order of the pieces it keeps. */
  lemma {:induction false} FilterSentencesInOrder(xs: seq<string>)
    ensures IsSubsequence(FilterSentences(xs), xs)
    decreases |xs|
  {
    if xs != [] {
      var front := xs[..|xs| - 1];
      var x := xs[|xs| - 1];
      var kept := FilterSentences(front);
      FilterSentencesInOrder(front);
      assert xs == front + [x];
      if |x| > SENTENCE_FILTER_LENGTH {
        assert FilterSentences(xs) == kept + [x];
        SubsequenceKeep(kept, front, x);
      } else {
        assert FilterSentences(xs) == kept;
        SubsequenceSkip(kept, front, x);
      }
    }
  }

  function Min(a: int, b: int): int
  {
    if a <= b then a else b
  }

  /** Number of groups for `n` filtered sentences: n / 15, rounded up. */
  function GroupCount(n: nat): nat
  {
    (n + GROUP_TEXT_LENGTH - 1) / GROUP_TEXT_LENGTH
  }

  lemma GroupCountBounds(n: nat, i: nat)
    requires i < GroupCount(n)
    ensures i * GROUP_TEXT_LENGTH < n
    ensures i * GROUP_TEXT_LENGTH <= Min((i + 1) * GROUP_TEXT_LENGTH, n) <= n
  {
  }

  /** The `subList` windows `[15 i, min(15 (i + 1), n))` for `i` below `GroupCount(n)`. */
  function GroupSentences(xs: seq<string>): (r: seq<seq<string>>)
    ensures |r| == GroupCount(|xs|)
  {
    seq(GroupCount(|xs|), i requires 0 <= i < GroupCount(|xs|) =>
      GroupCountBounds(|xs|, i);
      xs[i * GROUP_TEXT_LENGTH .. Min((i + 1) * GROUP_TEXT_LENGTH, |xs|)])
  }

  /** Group sizes: no groups for no sentences, 15 in every group but the last,
      between 1 and 15 in the last. */
  lemma GroupSizes(xs: seq<string>)
    ensures xs == [] <==> GroupSentences(xs) == []
    ensures forall i :: 0 <= i < |GroupSentences(xs)| - 1 ==> |GroupSentences(xs)[i]| == GROUP_TEXT_LENGTH
    ensures GroupSentences(xs) != [] ==>
      var last := GroupSentences(xs)[|GroupSentences(xs)| - 1];
      1 <= |last| <= GROUP_TEXT_LENGTH
  {
    var g := GroupSentences(xs);
    var n := |xs|;
    forall i | 0 <= i < |g| - 1
      ensures |g[i]| == GROUP_TEXT_LENGTH
    {
      GroupCountBounds(n, i + 1);
    }
    if g != [] {
      GroupCountBounds(n, |g| - 1);
    }
  }

  /** Concatenating the first `k` groups gives the first `min(15 k, n)` sentences. */
  lemma {:induction false} GroupsPrefixFlatten(xs: seq<string>, k: nat)
    requires k <= GroupCount(|xs|)
    ensures Flatten(GroupSentences(xs)[..k]) == xs[..Min(k * GROUP_TEXT_LENGTH, |xs|)]
    decreases k
  {
    var g := GroupSentences(xs);
    if k == 0 {
      assert g[..0] == [];
    } else {
      GroupsPrefixFlatten(xs, k - 1);
      GroupCountBounds(|xs|, k - 1);
      assert g[..k][..k - 1] == g[..k - 1];
      var lo := (k - 1) * GROUP_TEXT_LENGTH;
      var hi := Min(k * GROUP_TEXT_LENGTH, |xs|);
      assert g[k - 1] == xs[lo..hi];
      assert xs[..lo] + xs[lo..hi] == xs[..hi];
    }
  }

  /** The groups, concatenated in order, are the filtered sentences. */
  lemma GroupsFlatten(xs: seq<string>)
    ensures Flatten(GroupSentences(xs)) == xs
  {
    var g := GroupSentences(xs);
    GroupsPrefixFlatten(xs, |g|);
    assert g[..|g|] == g;
    assert xs[..|xs|] == xs;
  }

  // ---------------------------------------------------------------------
  // Documents and ingestion

  /** Each group as the one document `String.join(" ", group)` ingests. */
  function Joined(groups: seq<seq<string>>): (docs: seq<string>)
    ensures |docs| == |groups|
  {
    seq(|groups|, i requires 0 <= i < |groups| => JoinWith(groups[i], " "))
  }

  /** The sentence groups a compressed text is ingested as. */
  function SentenceGroups(text: string): seq<seq<string>>
  {
    GroupSentences(FilterSentences(SplitIntoSentences(text)))
  }

  /** The documents ingested for a text, in ingestion order. */
  function Documents(text: string): seq<string>
  {
    Joined(SentenceGroups(text))
  }

  /** What ingestion does to a list of long sentences: one document per group
      of at most 15 of them, the groups covering the list in order. */
  lemma GroupedDocuments(long: seq<string>)
    ensures var g := GroupSentences(long);
      && |Joined(g)| == GroupCount(|long|)
      && Flatten(g) == long
      && forall i :: 0 <= i < |g| ==> Joined(g)[i] == JoinWith(g[i], " ") && 1 <= |g[i]| <= GROUP_TEXT_LENGTH
  {
    var g := GroupSentences(long);
    GroupSizes(long);
    GroupsFlatten(long);
    forall i | 0 <= i < |g|
      ensures 1 <= |g[i]| <= GROUP_TEXT_LENGTH
    {
      if i < |g| - 1 {
        assert |g[i]| == GROUP_TEXT_LENGTH;
      }
    }
  }

  /** The store's documents after the ingestion of `docs`, one at a time, from
      `stored`: a document the `Document` constructor refuses never reaches
      the store, a failed ingestion is swallowed, and the next one still runs.
      The documents already stored stay first, and at most one is added per
      document. */
  function IngestAll(stored: seq<string>, docs: seq<string>, ingests: (seq<string>, string) -> bool): (r: seq<string>)
    ensures |stored| <= |r| <= |stored| + |docs| && r[..|stored|] == stored
    decreases |docs|
  {
    if docs == [] then stored
    else
      var before := IngestAll(stored, docs[..|docs| - 1], ingests);
      var d := docs[|docs| - 1];
      if !IsRejectedText(d) && ingests(before, d) then before + [d] else before
  }

  /** The documents the `Document` constructor accepts, in order. */
  function AcceptedDocuments(docs: seq<string>): seq<string>
  {
    if docs == [] then []
    else
      var d := docs[|docs| - 1];
      AcceptedDocuments(docs[..|docs| - 1]) + if IsRejectedText(d) then [] else [d]
  }

  /** Ingestion only appends: the old documents stay first and the new ones
      are some of `docs`, in order. */
  lemma {:induction false} IngestAllAppends(stored: seq<string>, docs: seq<string>, ingests: (seq<string>, string) -> bool)
    ensures var after := IngestAll(stored, docs, ingests);
      && |stored| <= |after| <= |stored| + |docs|
      && after[..|stored|] == stored
      && IsSubsequence(after[|stored|..], docs)
    decreases |docs|
  {
    var after := IngestAll(stored, docs, ingests);
    if docs == [] {
      assert after[|stored|..] == [];
    } else {
      var front := docs[..|docs| - 1];
      var d := docs[|docs| - 1];
      var before := IngestAll(stored, front, ingests);
      IngestAllAppends(stored, front, ingests);
      assert docs == front + [d];
      if !IsRejectedText(d) && ingests(before, d) {
        assert after[..|stored|] == before[..|stored|];
        assert after[|stored|..] == before[|stored|..] + [d];
        SubsequenceKeep(before[|stored|..], front, d);
      } else {
        SubsequenceSkip(before[|stored|..], front, d);
      }
      SubsequenceLength(after[|stored|..], docs);
    }
  }

  /** When the store never fails every accepted document is appended. */
  lemma {:induction false} IngestAllSucceeds(stored: seq<string>, docs: seq<string>, ingests: (seq<string>, string) -> bool)
    requires forall st, d :: ingests(st, d)
    ensures IngestAll(stored, docs, ingests) == stored + AcceptedDocuments(docs)
    decreases |docs|
  {
    if docs != [] {
      var front := docs[..|docs| - 1];
      IngestAllSucceeds(stored, front, ingests);
      assert docs == front + [docs[|docs| - 1]];
    }
  }

  // ---------------------------------------------------------------------
  // Compression, per-item processing and the whole pipeline, as values

  /** The compressed text and the store's documents afterwards. */
  datatype Compression = Compression(text: string, documents: seq<string>)

  /**
   * `filterDataWithEmbedding` from a store holding `stored`: ingest the
   * documents of `text`, query with the question; on success the hits are
   * joined with " " and the store is cleared, on failure the text is "" and
   * nothing is cleared.
   */
  function Compress(stored: seq<string>, question: string, text: string, b: StoreBehaviour): (r: Compression)
    ensures r.documents == [] || (|stored| <= |r.documents| && r.documents[..|stored|] == stored)
  {
    var ingested := IngestAll(stored, Documents(text), b.ingests);
    match b.search(ingested, question)
    case None => Compression("", ingested)
    case Some(hits) => Compression(JoinWith(hits, " "), if b.clears(ingested) then [] else ingested)
  }

  /** The item `processExtractedContent` returns (`None` for null) and the store's documents afterwards. */
  datatype Processed = Processed(item: Option<Content>, documents: seq<string>)

  /**
   * `processExtractedContent` from a store holding `stored`. A compressed
   * text the `TextSegment` constructor refuses throws inside the handler,
   * which returns null. Whatever path it takes, an item has non-blank text
   * and the metadata of the item it came from.
   */
  function Process(stored: seq<string>, question: string, extracted: Content, tools: Collaborators, b: StoreBehaviour): (r: Processed)
    ensures r.item.Some? ==> !IsBlank(r.item.value.text) && r.item.value.metadata == extracted.metadata
  {
    if ContentTokenCount(extracted, tools.estimate) > MAX_TOKEN_SIZE_FOR_EMBEDDING then
      var c := Compress(stored, question, extracted.text, b);
      if IsBlank(c.text) || IsRejectedText(c.text) then Processed(None, c.documents)
      else Processed(FilterRelevantData(question, Content(c.text, extracted.metadata), tools), c.documents)
    else
      Processed(FilterRelevantData(question, extracted, tools), stored)
  }

  /** The list `getWebContents` returns, the store's documents afterwards,
      and whether an exception ended the call (the list is then empty). */
  datatype Gathered = Gathered(out: seq<Content>, documents: seq<string>, aborted: bool)

  /**
   * The stream over the search hits, element by element: augment, process,
   * keep the non-null results with non-blank text. An augmentation that
   * throws ends the stream; the handler of `getWebContents` then returns the
   * empty list, and the store keeps what the earlier hits left in it.
   */
  function Collect(stored: seq<string>, question: string, hits: seq<Content>, tools: Collaborators, b: StoreBehaviour): (r: Gathered)
    ensures r.aborted ==> r.out == []
    ensures |r.out| <= |hits|
    decreases |hits|
  {
    if hits == [] then Gathered([], stored, false)
    else
      var g := Collect(stored, question, hits[..|hits| - 1], tools, b);
      if g.aborted then g
      else
        match ExtractWebPageContentFromUrl(hits[|hits| - 1], tools)
        case None => Gathered([], g.documents, true)
        case Some(extracted) =>
          var p := Process(g.documents, question, extracted, tools, b);
          if p.item.Some? && !IsBlank(p.item.value.text) then Gathered(g.out + [p.item.value], p.documents, false)
          else Gathered(g.out, p.documents, false)
  }

  /** `getWebContents`: a failed web search gives the empty list and touches
      nothing; every item returned has non-blank text. */
  function WebContents(stored: seq<string>, question: string, webSearch: string -> Option<seq<Content>>,
                       tools: Collaborators, b: StoreBehaviour): (r: Gathered)
    ensures forall i :: 0 <= i < |r.out| ==> !IsBlank(r.out[i].text)
  {
    match webSearch(question)
    case None => Gathered([], stored, true)
    case Some(hits) =>
      CollectOutput(stored, question, hits, tools, b);
      Collect(stored, question, hits, tools, b)
  }

  /** The metadata of each item, in order. */
  function Metas(cs: seq<Content>): (r: seq<Metadata>)
    ensures |r| == |cs|
  {
    if cs == [] then [] else Metas(cs[..|cs| - 1]) + [cs[|cs| - 1].metadata]
  }

  // ---------------------------------------------------------------------
  // Properties of compression and processing

  /** A successful query followed by a successful clear leaves the store
      empty, whatever it held before; the text is the hits joined with " ". */
  lemma CompressionClearsStore(stored: seq<string>, question: string, text: string, b: StoreBehaviour, hits: seq<string>)
    requires var ingested := IngestAll(stored, Documents(text), b.ingests);
      b.search(ingested, question) == Some(hits) && b.clears(ingested)
    ensures Compress(stored, question, text, b) == Compression(JoinWith(hits, " "), [])
  {
  }

  /** A failed query gives the empty text and clears nothing: the documents
      already there stay, followed by those of this text that were ingested. */
  lemma CompressionQueryFailure(stored: seq<string>, question: string, text: string, b: StoreBehaviour)
    requires b.search(IngestAll(stored, Documents(text), b.ingests), question).None?
    ensures var c := Compress(stored, question, text, b);
      && c.text == ""
      && |c.documents| >= |stored| && c.documents[..|stored|] == stored
      && IsSubsequence(c.documents[|stored|..], Documents(text))
  {
    IngestAllAppends(stored, Documents(text), b.ingests);
  }

  /** A failed ingestion is swallowed: ingesting `a` and then `c` is
      ingesting `c` from wherever `a` left the store, whatever failed in `a`. */
  lemma {:induction false} IngestAllCompose(stored: seq<string>, a: seq<string>, c: seq<string>, ingests: (seq<string>, string) -> bool)
    ensures IngestAll(stored, a + c, ingests) == IngestAll(IngestAll(stored, a, ingests), c, ingests)
    decreases |c|
  {
    if c == [] {
      assert a + c == a;
    } else {
      var n := |c| - 1;
      IngestAllCompose(stored, a, c[..n], ingests);
      assert (a + c)[..|a + c| - 1] == a + c[..n];
      assert (a + c)[|a + c| - 1] == c[n];
    }
  }

  /** The compressed text of a successful query is blank exactly when every
      hit is blank. */
  lemma CompressedTextBlank(stored: seq<string>, question: string, text: string, b: StoreBehaviour, hits: seq<string>)
    requires b.search(IngestAll(stored, Documents(text), b.ingests), question) == Some(hits)
    ensures IsBlank(Compress(stored, question, text, b).text) <==> forall i :: 0 <= i < |hits| ==> IsBlank(hits[i])
  {
    JoinBlank(hits, " ");
  }

  /** When every ingestion succeeds but the query fails, all of this text's
      documents remain in the store, where the next item's query will see them. */
  lemma CompressionLeaksOnQueryFailure(stored: seq<string>, question: string, text: string, b: StoreBehaviour)
    requires forall st, d :: b.ingests(st, d)
    requires b.search(stored + AcceptedDocuments(Documents(text)), question).None?
    ensures Compress(stored, question, text, b) == Compression("", stored + AcceptedDocuments(Documents(text)))
  {
    IngestAllSucceeds(stored, Documents(text), b.ingests);
  }

  /** Items within MAX_TOKEN_SIZE_FOR_EMBEDDING go straight to the relevance
      filter and leave the store alone. */
  lemma ShortItemBypassesStore(stored: seq<string>, question: string, extracted: Content, tools: Collaborators, b: StoreBehaviour)
    requires ContentTokenCount(extracted, tools.estimate) <= MAX_TOKEN_SIZE_FOR_EMBEDDING
    ensures Process(stored, question, extracted, tools, b) == Processed(FilterRelevantData(question, extracted, tools), stored)
  {
  }

  /** Longer items go through compression: the store ends as compression
      leaves it, a blank or refused compressed text gives no item, and
      otherwise the relevance filter sees the compressed text under the
      item's metadata. */
  lemma LongItemIsCompressed(stored: seq<string>, question: string, extracted: Content, tools: Collaborators, b: StoreBehaviour)
    requires ContentTokenCount(extracted, tools.estimate) > MAX_TOKEN_SIZE_FOR_EMBEDDING
    ensures var c := Compress(stored, question, extracted.text, b);
      var p := Process(stored, question, extracted, tools, b);
      && p.documents == c.documents
      && (IsBlank(c.text) || IsRejectedText(c.text) ==> p.item.None?)
      && (!IsBlank(c.text) && !IsRejectedText(c.text) ==> p.item == FilterRelevantData(question, Content(c.text, extracted.metadata), tools))
  {
  }

  lemma MetasSnoc(cs: seq<Content>, c: Content)
    ensures Metas(cs + [c]) == Metas(cs) + [c.metadata]
  {
    assert (cs + [c])[..|cs|] == cs;
  }

  /** The pipeline's output: items with non-blank text only, no more of them
      than hits, and their metadata a subsequence of the hits' metadata, so
      the order of the hits is kept. */
  lemma {:induction false} CollectOutput(stored: seq<string>, question: string, hits: seq<Content>, tools: Collaborators, b: StoreBehaviour)
    ensures var g := Collect(stored, question, hits, tools, b);
      && (forall i :: 0 <= i < |g.out| ==> !IsBlank(g.out[i].text))
      && IsSubsequence(Metas(g.out), Metas(hits))
      && |g.out| <= |hits|
    decreases |hits|
  {
    var g := Collect(stored, question, hits, tools, b);
    if hits == [] {
      assert Metas(g.out) == [] && Metas(hits) == [];
    } else {
      var front := hits[..|hits| - 1];
      var h := hits[|hits| - 1];
      var before := Collect(stored, question, front, tools, b);
      CollectOutput(stored, question, front, tools, b);
      var item := CollectStep(stored, question, hits, tools, b);
      if g.aborted {
        assert Metas(g.out) == [];
        SubsequenceEmpty(Metas(hits));
      } else {
        OutputStep(before.out, Metas(front), item, h.metadata);
      }
    }
  }

  /**
   * One more hit. After an abort nothing more is processed. A hit whose
   * augmented text is refused aborts the stream: the result is the empty
   * list, and the store is as the earlier hits left it. Otherwise `item` is
   * what processing the augmented hit returns, and it has the hit's
   * metadata; it is added when it is non-null with non-blank text, and the
   * store ends as that processing leaves it.
   */
  lemma CollectStep(stored: seq<string>, question: string, hits: seq<Content>, tools: Collaborators, b: StoreBehaviour)
    returns (item: Option<Content>)
    requires hits != []
    ensures item.Some? ==> item.value.metadata == hits[|hits| - 1].metadata
    ensures var before := Collect(stored, question, hits[..|hits| - 1], tools, b);
      var g := Collect(stored, question, hits, tools, b);
      && (g.aborted <==> before.aborted || ExtractWebPageContentFromUrl(hits[|hits| - 1], tools).None?)
      && (g.aborted ==> g.out == [] && g.documents == before.documents)
      && (!g.aborted ==> g.out == if item.Some? && !IsBlank(item.value.text) then before.out + [item.value] else before.out)
      && (!g.aborted ==>
            var p := Process(before.documents, question, ExtractWebPageContentFromUrl(hits[|hits| - 1], tools).value, tools, b);
            item == p.item && g.documents == p.documents)
  {
    var before := Collect(stored, question, hits[..|hits| - 1], tools, b);
    match ExtractWebPageContentFromUrl(hits[|hits| - 1], tools)
    case None =>
      item := None;
    case Some(extracted) =>
      item := Process(before.documents, question, extracted, tools, b).item;
  }

  /** One step of the stream: keep the processed item when it is non-null
      with non-blank text, drop it otherwise. */
  lemma OutputStep(out: seq<Content>, metas: seq<Metadata>, item: Option<Content>, metadata: Metadata)
    requires forall i :: 0 <= i < |out| ==> !IsBlank(out[i].text)
    requires IsSubsequence(Metas(out), metas)
    requires item.Some? ==> item.value.metadata == metadata
    ensures var next := if item.Some? && !IsBlank(item.value.text) then out + [item.value] else out;
      && (forall i :: 0 <= i < |next| ==> !IsBlank(next[i].text))
      && IsSubsequence(Metas(next), metas + [metadata])
  {
    if item.Some? && !IsBlank(item.value.text) {
      var next := out + [item.value];
      forall i | 0 <= i < |next|
        ensures !IsBlank(next[i].text)
      {
        if i < |out| {
          assert next[i] == out[i];
        }
      }
      MetasSnoc(out, item.value);
      SubsequenceKeep(Metas(out), metas, metadata);
    } else {
      SubsequenceSkip(Metas(out), metas, metadata);
    }
  }

  /** The hit is augmented, its augmented text is within
      MAX_TOKEN_SIZE_FOR_EMBEDDING, and the assistant judges it relevant. */
  predicate ShortAndRelevant(question: string, hit: Content, tools: Collaborators)
  {
    var extracted := ExtractWebPageContentFromUrl(hit, tools);
    && extracted.Some?
    && ContentTokenCount(extracted.value, tools.estimate) <= MAX_TOKEN_SIZE_FOR_EMBEDDING
    && FilterRelevantData(question, extracted.value, tools).Some?
  }

  /** The hit, augmented and then filtered for relevance. */
  function RelevantItem(question: string, hit: Content, tools: Collaborators): Option<Content>
  {
    match ExtractWebPageContentFromUrl(hit, tools)
    case None => None
    case Some(extracted) => FilterRelevantData(question, extracted, tools)
  }

  /** A relevant extraction keeps the hit's metadata. */
  lemma RelevantItemMetadata(question: string, hit: Content, tools: Collaborators)
    ensures RelevantItem(question, hit, tools).Some? ==> RelevantItem(question, hit, tools).value.metadata == hit.metadata
  {
  }

  /** A non-empty sequence is its front followed by its last element. */
  lemma SnocLast<T>(s: seq<T>)
    requires s != []
    ensures s[..|s| - 1] + [s[|s| - 1]] == s
  {
  }

  /** Extending two sequences that agree pointwise under `f` by a pair that
      agrees keeps them agreeing pointwise. */
  lemma PointwiseSnoc<T, U>(xs: seq<T>, ys: seq<U>, x: T, y: U, f: T -> Option<U>)
    requires |xs| == |ys| && forall i :: 0 <= i < |xs| ==> f(xs[i]) == Some(ys[i])
    requires f(x) == Some(y)
    ensures forall i :: 0 <= i < |xs + [x]| ==> f((xs + [x])[i]) == Some((ys + [y])[i])
  {
    forall i | 0 <= i < |xs + [x]|
      ensures f((xs + [x])[i]) == Some((ys + [y])[i])
    {
      if i < |xs| {
        assert (xs + [x])[i] == xs[i] && (ys + [y])[i] == ys[i];
      }
    }
  }

  /** When every hit is augmented, short and judged relevant, every hit
      yields one item, in order: the hit's relevant extraction. The store is
      never used. */
  lemma {:induction false} AllShortAndRelevant(stored: seq<string>, question: string, hits: seq<Content>, tools: Collaborators, b: StoreBehaviour)
    requires forall i :: 0 <= i < |hits| ==> ShortAndRelevant(question, hits[i], tools)
    ensures var g := Collect(stored, question, hits, tools, b);
      && !g.aborted
      && |g.out| == |hits|
      && (forall i :: 0 <= i < |hits| ==> RelevantItem(question, hits[i], tools) == Some(g.out[i]))
      && Metas(g.out) == Metas(hits)
      && g.documents == stored
    decreases |hits|
  {
    if hits != [] {
      var n := |hits| - 1;
      var front := hits[..n];
      var h := hits[n];
      AllShortAndRelevant(stored, question, front, tools, b);
      var before := Collect(stored, question, front, tools, b);
      var extracted := ExtractWebPageContentFromUrl(h, tools).value;
      var item := FilterRelevantData(question, extracted, tools).value;
      ShortRelevantStep(stored, question, hits, tools, b);
      var out := before.out + [item];
      var f := (c: Content) => RelevantItem(question, c, tools);
      PointwiseSnoc(front, before.out, h, item, f);
      SnocLast(hits);
      RelevantItemMetadata(question, h, tools);
      MetasSnoc(before.out, item);
      assert Collect(stored, question, hits, tools, b) == Gathered(out, stored, false);
    }
  }

  /** A short, relevant hit after an unaborted prefix that left the store
      alone appends its filtered item and leaves the store alone. */
  lemma ShortRelevantStep(stored: seq<string>, question: string, hits: seq<Content>, tools: Collaborators, b: StoreBehaviour)
    requires hits != []
    requires var before := Collect(stored, question, hits[..|hits| - 1], tools, b);
      !before.aborted && before.documents == stored
    requires ShortAndRelevant(question, hits[|hits| - 1], tools)
    ensures Collect(stored, question, hits, tools, b) ==
      Gathered(Collect(stored, question, hits[..|hits| - 1], tools, b).out
                 + [FilterRelevantData(question, ExtractWebPageContentFromUrl(hits[|hits| - 1], tools).value, tools).value],
               stored, false)
  {
  }

  /** When the relevance assistant never returns a usable extraction, the
      pipeline returns nothing. */
  lemma {:induction false} NothingRelevant(stored: seq<string>, question: string, hits: seq<Content>, tools: Collaborators, b: StoreBehaviour)
    requires forall q, d :: tools.extractRelevant(q, d).None? || IsBlank(tools.extractRelevant(q, d).value)
    ensures Collect(stored, question, hits, tools, b).out == []
    decreases |hits|
  {
    if hits != [] {
      NothingRelevant(stored, question, hits[..|hits| - 1], tools, b);
    }
  }

  /** While every hit is augmented, the stream is not aborted. */
  lemma {:induction false} CollectNotAborted(stored: seq<string>, question: string, hits: seq<Content>, tools: Collaborators, b: StoreBehaviour)
    requires forall j :: 0 <= j < |hits| ==> ExtractWebPageContentFromUrl(hits[j], tools).Some?
    ensures !Collect(stored, question, hits, tools, b).aborted
    decreases |hits|
  {
    if hits != [] {
      CollectNotAborted(stored, question, hits[..|hits| - 1], tools, b);
    }
  }

  /** Once a prefix of the hits has aborted the stream, the later hits change nothing. */
  lemma {:induction false} AbortPersists(stored: seq<string>, question: string, hits: seq<Content>, tools: Collaborators, b: StoreBehaviour, m: nat)
    requires m <= |hits| && Collect(stored, question, hits[..m], tools, b).aborted
    ensures Collect(stored, question, hits, tools, b) == Collect(stored, question, hits[..m], tools, b)
    decreases |hits|
  {
    if m == |hits| {
      assert hits[..m] == hits;
    } else {
      var front := hits[..|hits| - 1];
      assert front[..m] == hits[..m];
      AbortPersists(stored, question, front, tools, b, m);
    }
  }

  /** The first hit whose augmentation throws (every hit whose page is not
      available, among others) ends the stream: the pipeline returns the
      empty list, and the store keeps what the hits before it left. */
  lemma UnfetchedHitAborts(stored: seq<string>, question: string, hits: seq<Content>, tools: Collaborators, b: StoreBehaviour, k: nat)
    requires k < |hits|
    requires forall j :: 0 <= j < k ==> ExtractWebPageContentFromUrl(hits[j], tools).Some?
    requires ExtractWebPageContentFromUrl(hits[k], tools).None?
    ensures Collect(stored, question, hits, tools, b) == Gathered([], Collect(stored, question, hits[..k], tools, b).documents, true)
  {
    CollectNotAborted(stored, question, hits[..k], tools, b);
    assert hits[..k + 1][..k] == hits[..k];
    AbortPersists(stored, question, hits, tools, b, k + 1);
  }

  /** When the first hit's page is not available, the pipeline returns the
      empty list and leaves the store as it was. */
  lemma NoPageFetched(stored: seq<string>, question: string, hits: seq<Content>, tools: Collaborators, b: StoreBehaviour)
    requires hits != [] && !PageAvailable(hits[0], tools)
    ensures Collect(stored, question, hits, tools, b) == Gathered([], stored, true)
  {
    UnfetchedHitAborts(stored, question, hits, tools, b, 0);
    assert hits[..0] == [];
  }

  // ---------------------------------------------------------------------
  // The retriever

  /**
   * The component: the relevance filter, tokenizer and page fetch
   * (`tools`), the web search it delegates to (`webSearch`, `None` when it
   * throws) and the shared embedding store.
   */
  class Retriever {
    const tools: Collaborators
    const webSearch: string -> Option<seq<Content>>
    const store: Store

    constructor (tools: Collaborators, webSearch: string -> Option<seq<Content>>, store: Store)
      ensures this.tools == tools && this.webSearch == webSearch && this.store == store
    {
      this.tools := tools;
      this.webSearch := webSearch;
      this.store := store;
    }

    /** `retrieve`: the `getWebContents` result, returned as it is even when its
        token count is over MAX_TOKEN_SIZE (the reduction step is not wired in). */
    method Retrieve(question: string) returns (r: seq<Content>)
      modifies store
      ensures var g := WebContents(old(store.documents), question, webSearch, tools, store.behaviour);
        r == g.out && store.documents == g.documents
    {
      r := GetWebContents(question);
    }

    /** `getWebContents`: the hits of the web search, each augmented and
        processed in turn, the null and blank results left out; the first
        augmentation that throws ends the call with the empty list. */
    method GetWebContents(question: string) returns (r: seq<Content>)
      modifies store
      ensures var g := WebContents(old(store.documents), question, webSearch, tools, store.behaviour);
        r == g.out && store.documents == g.documents
    {
      var found := webSearch(question);
      if found.None? {
        return [];
      }
      var contents := found.value;
      ghost var stored := store.documents;
      r := [];
      for k := 0 to |contents|
        invariant Collect(stored, question, contents[..k], tools, store.behaviour) == Gathered(r, store.documents, false)
      {
        var extracted := ExtractWebPageContentFromUrl(contents[k], tools);
        assert contents[..k + 1][..k] == contents[..k];
        if extracted.None? {
          AbortPersists(stored, question, contents, tools, store.behaviour, k + 1);
          return [];
        }
        var processed := ProcessExtractedContent(question, extracted.value);
        if processed.Some? && !IsBlank(processed.value.text) {
          r := r + [processed.value];
        }
      }
      assert contents[..|contents|] == contents;
    }

    /** `processExtractedContent`: long items are compressed first, a blank
        or refused compression gives null; then the relevance filter decides. */
    method ProcessExtractedContent(question: string, extracted: Content) returns (r: Option<Content>)
      modifies store
      ensures var p := Process(old(store.documents), question, extracted, tools, store.behaviour);
        r == p.item && store.documents == p.documents
    {
      var tokenCount := ContentTokenCount(extracted, tools.estimate);
      if tokenCount > MAX_TOKEN_SIZE_FOR_EMBEDDING {
        var refactoredText := FilterDataWithEmbedding(question, extracted);
        if IsBlank(refactoredText) || IsRejectedText(refactoredText) {
          return None;
        }
        r := FilterRelevantData(question, Content(refactoredText, extracted.metadata), tools);
      } else {
        r := FilterRelevantData(question, extracted, tools);
      }
    }

    /** `filterDataWithEmbedding`: split, filter and group the sentences,
        ingest every group, query the store and join the hits. */
    method FilterDataWithEmbedding(question: string, extracted: Content) returns (text: string)
      modifies store
      ensures var c := Compress(old(store.documents), question, extracted.text, store.behaviour);
        text == c.text && store.documents == c.documents
    {
      var sentences := SplitIntoSentences(extracted.text);
      var filteredSentences := FilterSentences(sentences);
      var groupedList := GroupSentences(filteredSentences);
      IngestGroups(groupedList);
      var retrievedContent := RetrieveDataFromEmbeddingStore(question);
      text := JoinWith(retrievedContent, " ");
    }

    /** `groupedList.forEach(this::ingestDataToEmbeddingStore)`: every group, in order. */
    method IngestGroups(groupedList: seq<seq<string>>)
      modifies store
      ensures store.documents == IngestAll(old(store.documents), Joined(groupedList), store.behaviour.ingests)
    {
      ghost var stored := store.documents;
      ghost var docs := Joined(groupedList);
      for i := 0 to |groupedList|
        invariant store.documents == IngestAll(stored, docs[..i], store.behaviour.ingests)
      {
        IngestDataToEmbeddingStore(groupedList[i]);
        assert docs[..i + 1][..i] == docs[..i];
      }
      assert docs[..|groupedList|] == docs;
    }

    /** `ingestDataToEmbeddingStore`: the group joined with " " as one
        document; a text the `Document` constructor refuses throws before the
        store is called, and that failure, like the store's, is swallowed. */
    method IngestDataToEmbeddingStore(content: seq<string>)
      modifies store
      ensures var doc := JoinWith(content, " ");
        store.documents ==
          if !IsRejectedText(doc) && store.behaviour.ingests(old(store.documents), doc) then old(store.documents) + [doc]
          else old(store.documents)
    {
      var text := JoinWith(content, " ");
      if !IsRejectedText(text) {
        var _ := store.IngestData(text);
      }
    }

    /** `retrieveDataFromEmbeddingStore`: query, then clear; a failed query
        gives the empty list and skips the clear. */
    method RetrieveDataFromEmbeddingStore(question: string) returns (contents: seq<string>)
      modifies store
      ensures match store.behaviour.search(old(store.documents), question)
        case None => contents == [] && store.documents == old(store.documents)
        case Some(hits) =>
          && contents == hits
          && store.documents == if store.behaviour.clears(old(store.documents)) then [] else old(store.documents)
    {
      var found := store.RetrieveData(question);
      match found
      case None =>
        contents := [];
      case Some(hits) =>
        ClearData();
        contents := hits;
    }

    /** `clearData`: remove everything; a failure is swallowed. */
    method ClearData()
      modifies store
      ensures store.documents == if store.behaviour.clears(old(store.documents)) then [] else old(store.documents)
    {
      var _ := store.ClearData();
    }
  }
}

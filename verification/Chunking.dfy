/** Cutting a document into transmission parts (`chunking.py`). */
module Chunking {
  import opened Prelude
  import opened Lines
  import opened PageMarkers
  import opened SectionPages

  datatype Sentence = Sentence(index: int, page: Option<int>, charStart: int, charEnd: int)

  /** What knovas-extract returned, and whether page markers are written. */
  datatype Document = Document(
    text: string, sentences: seq<Sentence>, sections: seq<Section>, pages: seq<Page>, markers: bool)

  datatype Part = Part(snippet: string, page: Option<int>, sentence: Option<int>, start: nat)

  function SentenceStarts(sentences: seq<Sentence>): (starts: seq<PageStart>)
    ensures |starts| == |sentences| && forall i :: 0 <= i < |starts| ==> starts[i].offset == sentences[i].charStart
  {
    seq(|sentences|, i requires 0 <= i < |sentences| => PageStart(sentences[i].charStart, i))
  }

  /** `_location_for_offset`: page and number of the sentence at an offset. */
  function LocationForOffset(sentences: seq<Sentence>, offset: int): (Option<int>, Option<int>) {
    if sentences == [] || offset >= sentences[|sentences| - 1].charEnd then (None, None)
    else
      var s := sentences[PageIndex(SentenceStarts(sentences), offset)];
      (s.page, Some(s.index + 1))
  }

  /** The extractor lists sentences in the order of the text. */
  ghost predicate SentencesAscend(sentences: seq<Sentence>) {
    forall i, j :: 0 <= i < j < |sentences| ==> sentences[i].charStart <= sentences[j].charStart
  }

  /** Sentence `i` is the last one that starts at or before the offset; before all of them, the first one. */
  predicate AtSentence(sentences: seq<Sentence>, offset: int, i: nat) {
    && i < |sentences|
    && (i == 0 || sentences[i].charStart <= offset)
    && (i + 1 < |sentences| ==> offset < sentences[i + 1].charStart)
  }

  /** What is known of an offset from the sentences alone: nothing without any, or behind the last one. */
  ghost predicate KnownFromSentences(sentences: seq<Sentence>, offset: int, page: Option<int>, number: Option<int>) {
    if sentences == [] || offset >= sentences[|sentences| - 1].charEnd then page == None && number == None
    else exists i: nat :: AtSentence(sentences, offset, i) && page == sentences[i].page && number == Some(sentences[i].index + 1)
  }

  /** The looked up sentence is the one at the offset. */
  lemma LocationIsAtSentence(sentences: seq<Sentence>, offset: int)
    requires SentencesAscend(sentences)
    ensures var (page, number) := LocationForOffset(sentences, offset);
            KnownFromSentences(sentences, offset, page, number)
  {
    if sentences != [] && offset < sentences[|sentences| - 1].charEnd {
      var starts := SentenceStarts(sentences);
      BisectRightExact(starts, offset, 0, |starts|);
      var k := PageIndex(starts, offset);
      assert forall i :: k < i < |starts| ==> offset < starts[i].offset;
      assert AtSentence(sentences, offset, k);
    }
  }

  /** There is one sentence at an offset. */
  lemma OneSentenceAt(sentences: seq<Sentence>, offset: int, i: nat, j: nat)
    requires SentencesAscend(sentences) && AtSentence(sentences, offset, i) && AtSentence(sentences, offset, j)
    ensures i == j
  {
  }

  /**
    A part's own page and sentence: the page of its first character where the document has text pages, else that
    of the sentence there; and that sentence's number.
   */
  ghost predicate Located(doc: Document, part: Part) {
    exists page :: KnownFromSentences(doc.sentences, part.start, page, part.sentence)
      && if exists p :: p in doc.pages && IsTextPage(p, LineStarts(doc.text))
         then part.page.Some? && OnPage(doc.pages, LineStarts(doc.text), part.start, part.page.value)
         else part.page == page
  }

  lemma GoodPartIsLocated(doc: Document, part: Part, end: nat, partMax: int)
    requires GoodPart(doc, part, end, partMax) && SentencesAscend(doc.sentences)
    ensures Located(doc, part)
  {
    LocationIsAtSentence(doc.sentences, part.start);
    PageForOffsetIsOnPage(doc.pages, LineStarts(doc.text), part.start);
    assert KnownFromSentences(doc.sentences, part.start, LocationForOffset(doc.sentences, part.start).0, part.sentence);
  }

  function PageNumbersOf(doc: Document): seq<PageStart> { PageNumbers(doc.pages, LineStarts(doc.text)) }

  function MarkerStartsOf(doc: Document): seq<PageStart> {
    if doc.markers then MarkerStarts(doc.pages, LineStarts(doc.text)) else []
  }

  /** The page a part starting at `start` declares. */
  function DeclaredPage(doc: Document, start: int): Option<int> {
    if PageNumbersOf(doc) != [] then PageForOffset(PageNumbersOf(doc), start)
    else LocationForOffset(doc.sentences, start).0
  }

  function PrefixOf(doc: Document, start: int): string { PrefixAt(doc.sections, doc.text, start) }

  function Budget(prefix: string, partMax: int): int {
    if prefix != "" then Max(1, partMax - |prefix|) else partMax
  }

  /** The snippet of the part `[start, end)`. */
  function Wire(doc: Document, start: nat, end: nat): string
    requires start <= end <= |doc.text|
  {
    WireOf(doc.text[start..end], PrefixOf(doc, start), Inside(doc, start, end))
  }

  /** Heading first, then the markers. */
  function WireOf(raw: string, prefix: string, inside: seq<PageStart>): string {
    var (snippet, shift) := WithHeading(raw, prefix);
    Marked(snippet, inside, shift, 0)
  }

  /** The markers of a part, relative to its start. */
  function Inside(doc: Document, start: nat, end: nat): seq<PageStart> {
    Relative(MarkersInside(MarkerStartsOf(doc), start, end), start)
  }

  // ----- the marker budget -----------------------------------------------------

  /** Where the budget loop ends: it lowers the end at most once. */
  function FitEnd(starts: seq<PageStart>, start: int, end: int, budget: int): int {
    if end <= start + 1 || end - start + MarkerCountInside(starts, start, end) <= budget then end
    else Max(start + 1, start + budget - MarkerCountInside(starts, start, end))
  }

  /** `_fit_markers_in_budget` */
  method FitMarkersInBudget(starts: seq<PageStart>, start: int, end: int, budget: int) returns (r: int)
    requires Ascending(starts) && AllPositive(starts)
    ensures r == FitEnd(starts, start, end, budget)
    ensures r <= end && (start < end ==> start < r)
    ensures start < end && budget >= 1 ==> r - start + MarkerCountInside(starts, start, r) <= budget
    ensures r < end ==> end - start + MarkerCountInside(starts, start, end) > budget
    ensures r < end ==> r == start + 1 || r == start + budget - MarkerCountInside(starts, start, end)
    ensures start + budget - MarkerCountInside(starts, start, end) <= r || r == end
  {
    r := end;
    while r > start + 1
      invariant r == end || r == FitEnd(starts, start, end, budget)
      invariant r <= end && (start < end ==> start < r)
      invariant r != end ==> r == start + 1 || r - start + MarkerCountInside(starts, start, r) <= budget
      decreases r - start
    {
      var markers := MarkerCountInside(starts, start, r);
      if r - start + markers <= budget {
        break;
      }
      MarkerCountMonotone(starts, start, Max(start + 1, start + budget - markers), r);
      r := Max(start + 1, start + budget - markers);
    }
  }

  // ----- cutting ---------------------------------------------------------------

  /** What a part `[start, end)` carries: its snippet, the page and sentence of its first character. */
  ghost predicate GoodPart(doc: Document, part: Part, end: nat, partMax: int) {
    && part.start < end <= |doc.text|
    && part.snippet == Wire(doc, part.start, end)
    && part.page == DeclaredPage(doc, part.start)
    && part.sentence == LocationForOffset(doc.sentences, part.start).1
    && end - part.start + MarkerCountInside(MarkerStartsOf(doc), part.start, end)
       <= Budget(PrefixOf(doc, part.start), partMax)
    && PreferredEnd(doc, part.start, end, Budget(PrefixOf(doc, part.start), partMax))
  }

  /** The furthest a part may reach: the budget, less the markers inside. */
  function Reach(doc: Document, start: nat, budget: int): int {
    var end := Min(start + budget, |doc.text|);
    if MarkerStartsOf(doc) == [] then end else FitEnd(MarkerStartsOf(doc), start, end, budget)
  }

  /**
    How far that is: the text and its markers fit the budget, and it falls short of the budget or the end of the
    text by no more than the markers counted up to there.
   */
  lemma ReachExactly(doc: Document, start: nat, budget: int)
    requires start < |doc.text| && budget >= 1
    ensures var reach, full := Reach(doc, start, budget), Min(start + budget, |doc.text|);
            && start < reach <= full
            && reach - start + MarkerCountInside(MarkerStartsOf(doc), start, reach) <= budget
            && (reach < full ==> full - start + MarkerCountInside(MarkerStartsOf(doc), start, full) > budget)
            && reach >= Min(full, start + budget - MarkerCountInside(MarkerStartsOf(doc), start, full))
  {
    var starts, full := MarkerStartsOf(doc), Min(start + budget, |doc.text|);
    MarkerStartsPositive(doc.pages, LineStarts(doc.text));
    if starts != [] {
      MarkerCountMonotone(starts, start, Reach(doc, start, budget), full);
    }
  }

  /** A part ends as far as it may, or at the last page or section boundary before that, far enough from its start. */
  ghost predicate PreferredEnd(doc: Document, start: nat, end: nat, budget: int) {
    var reach := Reach(doc, start, budget);
    && end <= reach && (reach >= |doc.text| ==> end == reach)
    && (end < reach ==> IsBoundary(doc.text, doc.sections, doc.pages, end) && start + 200 < end)
    && (reach < |doc.text| ==>
          forall b :: start + 200 < b < reach && IsBoundary(doc.text, doc.sections, doc.pages, b) ==> b <= end < reach)
  }

  /** Parts from the first character up to `end`: the last one ends there, the others where the next begins. */
  ghost predicate Contiguous(text: string, parts: seq<Part>, end: nat) {
    if parts == [] then end == 0
    else
      var last := parts[|parts| - 1];
      last.start < end <= |text| && Contiguous(text, parts[..|parts| - 1], last.start)
  }

  ghost predicate AllGood(doc: Document, parts: seq<Part>, end: nat, partMax: int) {
    parts != [] ==>
      var last := parts[|parts| - 1];
      GoodPart(doc, last, end, partMax) && AllGood(doc, parts[..|parts| - 1], last.start, partMax)
  }

  /** `iter_text_chunks_with_location`; None where it raises for a part size below 1. */
  method TextChunksWithLocation(doc: Document, partMax: int) returns (r: Option<seq<Part>>)
    ensures r.None? <==> partMax < 1
    ensures r.Some? && doc.text == "" ==> r.value == [Part("", None, None, 0)]
    ensures r.Some? && doc.text != "" ==> Contiguous(doc.text, r.value, |doc.text|)
    ensures r.Some? && doc.text != "" ==> AllGood(doc, r.value, |doc.text|, partMax)
    ensures r.Some? && doc.text != "" && SentencesAscend(doc.sentences) ==> forall p :: p in r.value ==> Located(doc, p)
  {
    if partMax < 1 {
      return None;
    }
    if doc.text == "" {
      return Some([Part("", None, None, 0)]);
    }
    var numbers := PageNumberStarts(doc.pages, doc.text);
    var pageStarts: seq<PageStart> := [];
    if doc.markers {
      pageStarts := TextPageStarts(doc.pages, doc.text);
    }
    var start := 0;
    var parts: seq<Part> := [];
    while start < |doc.text|
      invariant start <= |doc.text|
      invariant Contiguous(doc.text, parts, start)
      invariant AllGood(doc, parts, start, partMax)
      invariant SentencesAscend(doc.sentences) ==> forall p :: p in parts ==> Located(doc, p)
    {
      var part, end := NextPart(doc, numbers, pageStarts, start, partMax);
      assert (parts + [part])[..|parts|] == parts;
      parts := parts + [part];
      start := end;
    }
    return Some(parts);
  }

  /** One turn of the loop: the part that starts at `start`, and where it ends. */
  method NextPart(doc: Document, numbers: seq<PageStart>, pageStarts: seq<PageStart>, start: nat, partMax: int)
    returns (part: Part, end: nat)
    requires start < |doc.text| && partMax >= 1
    requires numbers == PageNumbersOf(doc) && pageStarts == MarkerStartsOf(doc)
    ensures part.start == start && GoodPart(doc, part, end, partMax)
    ensures SentencesAscend(doc.sentences) ==> Located(doc, part)
  {
    var prefix := PrefixOf(doc, start);
    end := PartEnd(doc, pageStarts, start, Budget(prefix, partMax));
    var (page, sentence) := LocationForOffset(doc.sentences, start);
    if numbers != [] {
      page := PageForOffset(numbers, start);
    }
    var (snippet, shift) := WithHeading(doc.text[start..end], prefix);
    if pageStarts != [] {
      snippet := ApplyPageMarkers(snippet, Relative(MarkersInside(pageStarts, start, end), start), shift);
    }
    part := Part(snippet, page, sentence, start);
    if SentencesAscend(doc.sentences) {
      GoodPartIsLocated(doc, part, end, partMax);
    }
  }

  /** The end of the part that starts at `start`: budget, then markers, then a preferred boundary. */
  method PartEnd(doc: Document, pageStarts: seq<PageStart>, start: nat, budget: int) returns (end: nat)
    requires start < |doc.text| && budget >= 1
    requires pageStarts == MarkerStartsOf(doc)
    ensures start < end <= |doc.text|
    ensures end - start + MarkerCountInside(pageStarts, start, end) <= budget
    ensures PreferredEnd(doc, start, end, budget)
  {
    MarkerStartsPositive(doc.pages, LineStarts(doc.text));
    end := Min(start + budget, |doc.text|);
    if pageStarts != [] {
      end := FitMarkersInBudget(pageStarts, start, end, budget);
    }
    if end < |doc.text| {
      var adjusted := AdjustChunkEnd(doc.text, start, end, doc.sections, doc.pages);
      MarkerCountMonotone(pageStarts, start, adjusted, end);
      end := adjusted;
    }
  }

  // ----- what the parts add up to ---------------------------------------------

  ghost function RawParts(text: string, parts: seq<Part>, end: nat): seq<string>
    requires Contiguous(text, parts, end)
  {
    if parts == [] then []
    else
      var last := parts[|parts| - 1];
      RawParts(text, parts[..|parts| - 1], last.start) + [text[last.start..end]]
  }

  lemma FlattenSnoc<T>(ss: seq<seq<T>>, s: seq<T>)
    ensures Flatten(ss + [s]) == Flatten(ss) + s
  {
    FlattenAppend(ss, [s]);
    assert [s][1..] == [];
    assert Flatten([s]) == s;
  }

  /** The raw parts are the text, cut: nothing is lost, doubled or reordered. */
  lemma {:induction false} PartsConcatenate(text: string, parts: seq<Part>, end: nat)
    requires Contiguous(text, parts, end)
    ensures end <= |text| && Flatten(RawParts(text, parts, end)) == text[..end]
    ensures forall i, j :: 0 <= i < j < |parts| ==> parts[i].start < parts[j].start
    ensures forall i :: 0 <= i < |parts| ==> parts[i].start < end
    decreases |parts|
  {
    if parts != [] {
      var init, last := parts[..|parts| - 1], parts[|parts| - 1];
      PartsConcatenate(text, init, last.start);
      FlattenSnoc(RawParts(text, init, last.start), text[last.start..end]);
      assert text[..end] == text[..last.start] + text[last.start..end];
      assert parts == init + [last];
    }
  }

  // ----- the part size ---------------------------------------------------------

  /** The size of a snippet: the text, the heading's shift and at most the counted markers. */
  lemma SnippetSize(raw: string, prefix: string, inside: seq<PageStart>)
    requires AllPositive(inside)
    ensures |raw| + WithHeading(raw, prefix).1 <= |WireOf(raw, prefix, inside)|
    ensures |WireOf(raw, prefix, inside)| <= |raw| + WithHeading(raw, prefix).1 + SumCounts(inside)
    ensures WithHeading(raw, prefix).1 <= |prefix|
  {
    HeadingMovesText(raw, prefix);
    var (snippet, shift) := WithHeading(raw, prefix);
    MarkedLength(snippet, inside, shift, 0);
  }

  lemma SlicePositive(starts: seq<PageStart>, a: int, b: int)
    requires AllPositive(starts)
    ensures AllPositive(Relative(MarkersInside(starts, a, b), a))
  {
  }

  /** A prefix that is there is a heading line of at least two characters and two newlines. */
  lemma {:induction false} PrefixIsLong(sections: seq<Section>, text: string, offset: int)
    ensures PrefixAt(sections, text, offset) == "" || |PrefixAt(sections, text, offset)| >= 4
  {
    if sections != [] && sections[0].lineStart != Some(LineNumberAt(text, offset) as int) {
      PrefixIsLong(sections[1..], text, offset);
    }
  }

  /**
    A part fits the part size exactly when the heading prefix is shorter than it, or the one character left
    beside a longer prefix is the heading, and its line in markup fits.
   */
  lemma PartFitsExactly(doc: Document, part: Part, end: nat, partMax: int)
    requires GoodPart(doc, part, end, partMax) && partMax >= 1
    ensures var first, prefix := [doc.text[part.start]], PrefixOf(doc, part.start);
            |part.snippet| <= partMax <==>
              || |prefix| < partMax
              || (Replaces(first, prefix) && |HeadingText(prefix)| + 1 - FirstLine(first) <= partMax)
  {
    var raw, prefix := doc.text[part.start..end], PrefixOf(doc, part.start);
    var inside := Inside(doc, part.start, end);
    var starts := MarkerStartsOf(doc);
    MarkerStartsPositive(doc.pages, LineStarts(doc.text));
    SlicePositive(starts, part.start, end);
    SnippetSize(raw, prefix, inside);
    SumCountsRelative(MarkersInside(starts, part.start, end), part.start);
    SumCountsBounds(inside);
    assert part.snippet == WireOf(raw, prefix, inside);
    if |prefix| >= partMax {
      PrefixIsLong(doc.sections, doc.text, part.start);
      assert |raw| == 1 && inside == [] && raw == [doc.text[part.start]];
    }
  }
}

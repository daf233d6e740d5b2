/**
  Page provenance: what the server reads back from a part is the document's own
  text, every character on its own page (`chunking.py`, `page_markers.py`,
  `section_pages.py` together).
 */
module Provenance {
  import opened Prelude
  import Strings
  import opened Sorting
  import opened Lines
  import opened PageMarkers
  import opened MarkerLoss
  import opened PageTelescope
  import opened SectionPages
  import opened Chunking

  /** Markers that stand behind the first line of a raw part, one after another. */
  ghost predicate Behind(raw: string, inside: seq<PageStart>) {
    && (forall i :: 0 <= i < |inside| ==> FirstLine(raw) < inside[i].offset < |raw| && inside[i].count >= 1)
    && (forall i, j :: 0 <= i < j < |inside| ==> inside[i].offset < inside[j].offset)
  }

  lemma {:induction false} PassedShifted(markers: seq<PageStart>, shift: int, q: int)
    ensures Passed(markers, shift, q + shift) == Passed(markers, 0, q)
  {
    if markers != [] {
      PassedShifted(markers[1..], shift, q);
    }
  }

  lemma {:induction false} PagePerCharacter(wire: string, page: int)
    ensures |ServerPages(wire, page)| == |WithoutMarkers(wire)|
  {
    if wire != "" {
      PagePerCharacter(wire[1..], if wire[0] == FORM_FEED then page + 1 else page);
    }
  }

  /** The server's reading of one part, position by position. */
  lemma PositionReadBack(raw: string, prefix: string, inside: seq<PageStart>, declared: int, q: nat)
    requires Behind(raw, inside) && NoFormFeed(raw) && NoFormFeed(prefix)
    ensures var (snippet, shift) := WithHeading(raw, prefix);
            var pages := ServerPages(WireOf(raw, prefix, inside), declared);
            && WithoutMarkers(WireOf(raw, prefix, inside)) == snippet
            && (q < |snippet| ==> q < |pages| && pages[q] == declared + PassedCount(inside, 0, q - shift))
  {
    HeadingMovesText(raw, prefix);
    var (snippet, shift) := WithHeading(raw, prefix);
    assert Placeable(snippet, inside, shift, 0);
    MarkedText(snippet, inside, shift, 0);
    assert snippet[0..] == snippet;
    if q < |snippet| {
      MarkedPages(snippet, inside, shift, 0, declared, q);
      PassedShifted(inside, shift, q - shift);
    }
  }

  lemma NothingPassedOnFirstLine(raw: string, inside: seq<PageStart>, r: int)
    requires Behind(raw, inside) && r <= FirstLine(raw)
    ensures PassedCount(inside, 0, r) == 0
  {
    PassedExact(inside, 0, r, 0);
    assert inside[..0] == [];
  }

  /** Character `r` of the raw part stands at its shifted place, read as `page`. */
  ghost predicate CharacterReads(raw: string, prefix: string, inside: seq<PageStart>, declared: int, r: nat, page: int)
    requires r < |raw|
  {
    var (snippet, shift) := WithHeading(raw, prefix);
    var pages := ServerPages(WireOf(raw, prefix, inside), declared);
    && 0 <= r + shift < |snippet| && r + shift < |pages|
    && snippet[r + shift] == raw[r] && pages[r + shift] == page
  }

  /** The heading line that replaced the first line is read as `page`. */
  ghost predicate HeadingReads(raw: string, prefix: string, inside: seq<PageStart>, declared: int, page: int) {
    var pages := ServerPages(WireOf(raw, prefix, inside), declared);
    |HeadingText(prefix)| <= |pages| && forall q :: 0 <= q < |HeadingText(prefix)| ==> pages[q] == page
  }

  /** Character `r` of the raw part, or the heading line in place of its line, is read as `page`. */
  ghost predicate RawReads(raw: string, prefix: string, inside: seq<PageStart>, declared: int, r: nat, page: int)
    requires r < |raw|
  {
    if Replaces(raw, prefix) && r < FirstLine(raw) then HeadingReads(raw, prefix, inside, declared, page)
    else CharacterReads(raw, prefix, inside, declared, r, page)
  }

  /** Where the server finds a character of a raw part, and the page it reads there. */
  lemma PartReadBack(raw: string, prefix: string, inside: seq<PageStart>, declared: int, r: nat, page: int)
    requires Behind(raw, inside) && NoFormFeed(raw) && NoFormFeed(prefix)
    requires r < |raw| && page == declared + PassedCount(inside, 0, r)
    ensures WithoutMarkers(WireOf(raw, prefix, inside)) == WithHeading(raw, prefix).0
    ensures RawReads(raw, prefix, inside, declared, r, page)
  {
    PositionReadBack(raw, prefix, inside, declared, 0);
    if Replaces(raw, prefix) && r < FirstLine(raw) {
      NothingPassedOnFirstLine(raw, inside, r);
      HeadingLineReadBack(raw, prefix, inside, declared);
    } else {
      KeptCharacter(raw, prefix, r);
      PositionReadBack(raw, prefix, inside, declared, r + WithHeading(raw, prefix).1);
    }
  }

  lemma HeadingLineReadBack(raw: string, prefix: string, inside: seq<PageStart>, declared: int)
    requires Behind(raw, inside) && NoFormFeed(raw) && NoFormFeed(prefix)
    requires Replaces(raw, prefix)
    ensures HeadingReads(raw, prefix, inside, declared, declared)
  {
    HeadingMovesText(raw, prefix);
    var (snippet, shift) := WithHeading(raw, prefix);
    var pages := ServerPages(WireOf(raw, prefix, inside), declared);
    PositionReadBack(raw, prefix, inside, declared, 0);
    PagePerCharacter(WireOf(raw, prefix, inside), declared);
    forall q | 0 <= q < |HeadingText(prefix)| ensures pages[q] == declared {
      PositionReadBack(raw, prefix, inside, declared, q);
      NothingPassedOnFirstLine(raw, inside, q - shift);
    }
  }

  lemma KeptCharacter(raw: string, prefix: string, r: nat)
    requires r < |raw| && !(Replaces(raw, prefix) && r < FirstLine(raw))
    ensures var (snippet, shift) := WithHeading(raw, prefix);
            0 <= r + shift < |snippet| && snippet[r + shift] == raw[r]
  {
    HeadingMovesText(raw, prefix);
    var (snippet, shift) := WithHeading(raw, prefix);
    if Replaces(raw, prefix) {
      var fl := FirstLine(raw);
      assert snippet[fl + shift..][r - fl] == raw[fl..][r - fl];
    } else {
      assert snippet[shift..][r] == raw[r];
    }
  }

  // ----- the markers of a document's parts --------------------------------------

  lemma BehindFirstLine(text: string, start: nat, end: nat, m: int)
    requires start < m < end <= |text| && IsLineStart(text, m)
    ensures FirstLine(text[start..end]) < m - start
  {
    assert text[start..end][m - start - 1] == '\n';
  }

  lemma MarkersRise(pages: seq<Page>, lines: seq<nat>)
    requires PagesInOrder(pages, lines)
    ensures StrictlyRising(MarkerStarts(pages, lines))
  {
    StartsOfOrderedPages(pages, lines);
    var starts, numbers := MarkerStarts(pages, lines), PageNumbers(pages, lines);
    forall i, j | 0 <= i < j < |starts| ensures starts[i].offset < starts[j].offset {
      assert starts[i].offset == numbers[i + 1].offset && starts[j].offset == numbers[j + 1].offset;
    }
  }

  lemma SliceRises(starts: seq<PageStart>, lo: nat, hi: nat)
    requires lo <= hi <= |starts|
    ensures Ascending(starts) ==> Ascending(starts[lo..hi])
    ensures StrictlyRising(starts) ==> StrictlyRising(starts[lo..hi])
    ensures forall i :: 0 <= i < hi - lo ==> starts[lo..hi][i] == starts[lo + i] && starts[lo + i] in starts
  {
  }

  lemma InsideExact(starts: seq<PageStart>, a: int, b: int)
    requires Ascending(starts)
    ensures var inside := MarkersInside(starts, a, b);
            && (forall i :: 0 <= i < |inside| ==> a < inside[i].offset < b && inside[i] in starts)
            && Ascending(inside) && (StrictlyRising(starts) ==> StrictlyRising(inside))
  {
    if starts != [] && b > a + 1 {
      BisectRightExact(starts, a, 0, |starts|);
      BisectLeftExact(starts, b, 0, |starts|);
      var lo, hi := BisectRight(starts, a, 0, |starts|), BisectLeft(starts, b, 0, |starts|);
      if lo <= hi {
        SliceRises(starts, lo, hi);
      }
    }
  }

  /** Page starts are line starts: inside a part they all lie behind its first line, whatever the pages. */
  lemma InsideStands(text: string, pages: seq<Page>, start: nat, end: nat)
    requires start <= end <= |text|
    ensures var inside := Relative(MarkersInside(MarkerStarts(pages, LineStarts(text)), start, end), start);
            && (forall i :: 0 <= i < |inside| ==> FirstLine(text[start..end]) < inside[i].offset < end - start)
            && Ascending(inside) && AllPositive(inside)
            && (StrictlyRising(MarkerStarts(pages, LineStarts(text))) ==> StrictlyRising(inside))
  {
    var lines := LineStarts(text);
    var starts := MarkerStarts(pages, lines);
    var markers := MarkersInside(starts, start, end);
    MarkerStartsPositive(pages, lines);
    InsideExact(starts, start, end);
    LineStartsExact(text);
    forall i | 0 <= i < |markers|
      ensures FirstLine(text[start..end]) < markers[i].offset - start && markers[i].count >= 1
    {
      var j :| 0 <= j < |starts| && starts[j] == markers[i];
      BehindFirstLine(text, start, end, starts[j].offset);
    }
  }

  lemma InsideIsBehind(text: string, pages: seq<Page>, start: nat, end: nat)
    requires start < end <= |text|
    requires PagesInOrder(pages, LineStarts(text))
    ensures Behind(text[start..end], Relative(MarkersInside(MarkerStarts(pages, LineStarts(text)), start, end), start))
  {
    MarkersRise(pages, LineStarts(text));
    InsideStands(text, pages, start, end);
  }

  // ----- the theorem -----------------------------------------------------------

  /** Text and heading without form feeds, and text pages whose first characters rise with their index. */
  ghost predicate Readable(doc: Document, start: nat) {
    && doc.markers && NoFormFeed(doc.text) && NoFormFeed(PrefixOf(doc, start))
    && PagesInOrder(doc.pages, LineStarts(doc.text))
    && PageNumbersOf(doc) != []
  }

  lemma NoFormFeedInPart(text: string, start: nat, end: nat)
    requires start <= end <= |text| && NoFormFeed(text)
    ensures NoFormFeed(text[start..end])
  {
  }

  /** What the server reads in the part `[start, end)` for the character at offset `o`. */
  ghost predicate ReadsBack(doc: Document, start: nat, end: nat, declared: int, o: nat, page: int)
    requires start <= o < end <= |doc.text|
  {
    RawReads(doc.text[start..end], PrefixOf(doc, start), Inside(doc, start, end), declared, o - start, page)
  }

  lemma DocumentInside(doc: Document, start: nat, end: nat)
    requires start < end <= |doc.text| && doc.markers && PagesInOrder(doc.pages, LineStarts(doc.text))
    ensures Behind(doc.text[start..end], Inside(doc, start, end))
  {
    InsideIsBehind(doc.text, doc.pages, start, end);
  }

  lemma PartReadsBack(text: string, start: nat, end: nat, prefix: string, inside: seq<PageStart>, declared: int, o: nat, page: int)
    requires start <= o < end <= |text| && NoFormFeed(text) && NoFormFeed(prefix) && Behind(text[start..end], inside)
    requires page == declared + PassedCount(inside, 0, o - start)
    ensures WithoutMarkers(WireOf(text[start..end], prefix, inside)) == WithHeading(text[start..end], prefix).0
    ensures RawReads(text[start..end], prefix, inside, declared, o - start, page)
  {
    var raw, r := text[start..end], o - start;
    NoFormFeedInPart(text, start, end);
    PartReadBack(raw, prefix, inside, declared, r, page);
  }

  /** The same of any stretch of a document, sent as a part. */
  lemma WireProvenance(doc: Document, start: nat, end: nat, o: nat) returns (page: int)
    requires start <= o < end <= |doc.text| && Readable(doc, start)
    ensures WithoutMarkers(Wire(doc, start, end)) == WithHeading(doc.text[start..end], PrefixOf(doc, start)).0
    ensures ReadsBack(doc, start, end, PageForOffset(PageNumbersOf(doc), start).value, o, page)
    ensures OnPage(doc.pages, LineStarts(doc.text), o, page)
  {
    page := PageForOffset(PageNumbersOf(doc), start).value + PassedCount(Inside(doc, start, end), 0, o - start);
    PageOfCharacter(doc.pages, LineStarts(doc.text), start, end, o, page);
    ReadsAs(doc, start, end, PageForOffset(PageNumbersOf(doc), start).value, o, page);
  }

  /** What a part carries, of all that makes it good. */
  lemma PartCarries(doc: Document, part: Part, end: nat, partMax: int)
    requires GoodPart(doc, part, end, partMax) && PageNumbersOf(doc) != []
    ensures part.start < end <= |doc.text| && part.snippet == Wire(doc, part.start, end)
    ensures part.page == Some(PageForOffset(PageNumbersOf(doc), part.start).value)
  {
  }

  /**
    Reading a part back. The server drops the form feeds and gets the snippet as
    it was before marking; every character of the raw part keeps its place behind
    the shift (the first line, when the heading replaces it, becomes the heading
    line), and the page the server reads for it -- declared page plus form feeds
    seen so far -- is the one page of that character in the document.
   */
  lemma PageProvenance(doc: Document, part: Part, end: nat, partMax: int, o: nat) returns (page: int)
    requires GoodPart(doc, part, end, partMax) && Readable(doc, part.start)
    requires part.start <= o < end
    ensures part.page.Some?
    ensures WithoutMarkers(part.snippet) == WithHeading(doc.text[part.start..end], PrefixOf(doc, part.start)).0
    ensures ReadsBack(doc, part.start, end, part.page.value, o, page)
    ensures OnPage(doc.pages, LineStarts(doc.text), o, page)
    ensures forall other :: OnPage(doc.pages, LineStarts(doc.text), o, other) ==> other == page
  {
    PartCarries(doc, part, end, partMax);
    page := WireProvenance(doc, part.start, end, o);
    OnlyPage(doc.pages, LineStarts(doc.text), o, page);
  }

  lemma ReadsAs(doc: Document, start: nat, end: nat, declared: int, o: nat, page: int)
    requires start <= o < end <= |doc.text| && doc.markers && PagesInOrder(doc.pages, LineStarts(doc.text))
    requires NoFormFeed(doc.text) && NoFormFeed(PrefixOf(doc, start))
    requires page == declared + PassedCount(Inside(doc, start, end), 0, o - start)
    ensures WithoutMarkers(Wire(doc, start, end)) == WithHeading(doc.text[start..end], PrefixOf(doc, start)).0
    ensures ReadsBack(doc, start, end, declared, o, page)
  {
    DocumentInside(doc, start, end);
    PartReadsBack(doc.text, start, end, PrefixOf(doc, start), Inside(doc, start, end), declared, o, page);
  }

  lemma OnlyPage(pages: seq<Page>, lines: seq<nat>, o: int, page: int)
    requires PagesInOrder(pages, lines) && OnPage(pages, lines, o, page)
    ensures forall other :: OnPage(pages, lines, o, other) ==> other == page
  {
    forall other | OnPage(pages, lines, o, other) ensures other == page {
      OnOnePage(pages, lines, o, other, page);
    }
  }

  lemma AllWrittenExactly(raw: string, prefix: string, inside: seq<PageStart>)
    requires Ascending(inside) && AllPositive(inside)
    requires forall i :: 0 <= i < |inside| ==> FirstLine(raw) < inside[i].offset < |raw|
    ensures |WireOf(raw, prefix, inside)| == |raw| + WithHeading(raw, prefix).1 + SumCounts(inside) <==> StrictlyRising(inside)
  {
    HeadingMovesText(raw, prefix);
    var (snippet, shift) := WithHeading(raw, prefix);
    MarkersWrittenExactly(snippet, inside, shift, 0);
  }

  /**
    A part of a document, with pages in any order, carries every form feed counted for it exactly when no two
    of its markers stand at one offset.
   */
  lemma NoMarkerLostExactly(doc: Document, start: nat, end: nat)
    requires start <= end <= |doc.text|
    ensures |Wire(doc, start, end)|
              == end - start + WithHeading(doc.text[start..end], PrefixOf(doc, start)).1
                 + MarkerCountInside(MarkerStartsOf(doc), start, end)
       <==> StrictlyRising(Inside(doc, start, end))
  {
    var inside := Inside(doc, start, end);
    SumCountsRelative(MarkersInside(MarkerStartsOf(doc), start, end), start);
    if doc.markers {
      InsideStands(doc.text, doc.pages, start, end);
    }
    AllWrittenExactly(doc.text[start..end], PrefixOf(doc, start), inside);
  }

  // ----- two pages on one line ---------------------------------------------------------

  /** Three pages, the last two on one line: their two markers stand at one offset. */
  function TwoOnOneLine(): seq<Page> {
    [Page(0, "a", Some(1), Some(1)), Page(1, "b", Some(2), Some(2)), Page(2, "b", Some(2), Some(2))]
  }

  lemma ExampleLines()
    ensures LineStarts("a\nb") == [0, 2]
  {
    var text := "a\nb";
    assert text[..2] == "a\n" && text[..2][..1] == "a" && text[..2][..1][..0] == "";
    assert LineStarts(text[..2][..1]) == [0];
    assert LineStarts(text[..2]) == [0, 2];
  }

  lemma ExampleNumbered()
    ensures Numbered(TwoOnOneLine(), [0, 2]) == [PageStart(0, 1), PageStart(2, 2), PageStart(2, 3)]
    ensures Sort(TwoOnOneLine(), IndexLe) == TwoOnOneLine()
  {
    var pages := TwoOnOneLine();
    SortOfSorted(pages, IndexLe);
    var lines: seq<nat> := [0, 2];
    assert pages[2..][1..] == [] && pages[1..][1..] == pages[2..];
    assert Numbered(pages[2..], lines) == [PageStart(2, 3)];
    assert Numbered(pages[1..], lines) == [PageStart(2, 2)] + [PageStart(2, 3)];
  }

  lemma ExampleMarkers()
    ensures Advances([PageStart(0, 1), PageStart(2, 2), PageStart(2, 3)], None) == [PageStart(2, 1), PageStart(2, 1)]
  {
    var entries: seq<PageStart> := [PageStart(0, 1), PageStart(2, 2), PageStart(2, 3)];
    assert entries[2..][1..] == [] && entries[1..][1..] == entries[2..];
    assert Advances(entries[2..], Some(2)) == [PageStart(2, 1)];
    assert Advances(entries[1..], Some(1)) == [PageStart(2, 1)] + [PageStart(2, 1)];
  }

  lemma ExampleStarts()
    ensures PageNumbers(TwoOnOneLine(), LineStarts("a\nb")) == [PageStart(0, 1), PageStart(2, 2), PageStart(2, 3)]
    ensures MarkerStarts(TwoOnOneLine(), LineStarts("a\nb")) == [PageStart(2, 1), PageStart(2, 1)]
  {
    ExampleLines();
    ExampleNumbered();
    ExampleMarkers();
    SortOfSorted([PageStart(0, 1), PageStart(2, 2), PageStart(2, 3)], PairLe);
    SortOfSorted([PageStart(2, 1), PageStart(2, 1)], PairLe);
  }

  lemma ExampleInside()
    ensures Relative(MarkersInside([PageStart(2, 1), PageStart(2, 1)], 0, 3), 0) == [PageStart(2, 1), PageStart(2, 1)]
  {
    var m: seq<PageStart> := [PageStart(2, 1), PageStart(2, 1)];
    BisectRightExact(m, 0, 0, 2);
    BisectLeftExact(m, 3, 0, 2);
    assert MarkersInside(m, 0, 3) == m;
  }

  /** Sent as one part, the character on that line is read on page 2; a part that starts there declares page 3. */
  lemma TwoOnOneLineDisagree()
    ensures var starts := MarkerStarts(TwoOnOneLine(), LineStarts("a\nb"));
            var wire := WireOf("a\nb", "", Relative(MarkersInside(starts, 0, 3), 0));
            && wire == "a\n" + [FORM_FEED] + "b" && ServerPages(wire, 1) == [1, 1, 2]
            && PageForOffset(PageNumbers(TwoOnOneLine(), LineStarts("a\nb")), 0) == Some(1)
            && PageForOffset(PageNumbers(TwoOnOneLine(), LineStarts("a\nb")), 2) == Some(3)
  {
    ExampleStarts();
    ExampleInside();
    ExampleLookup();
    ExampleWire();
  }

  lemma ExampleLookup()
    ensures var numbers: seq<PageStart> := [PageStart(0, 1), PageStart(2, 2), PageStart(2, 3)];
            PageForOffset(numbers, 0) == Some(1) && PageForOffset(numbers, 2) == Some(3)
  {
    var numbers: seq<PageStart> := [PageStart(0, 1), PageStart(2, 2), PageStart(2, 3)];
    BisectRightExact(numbers, 0, 0, 3);
    BisectRightExact(numbers, 2, 0, 3);
  }

  lemma ExampleWire()
    ensures var wire := Marked("a\nb", [PageStart(2, 1), PageStart(2, 1)], 0, 0);
            wire == "a\n" + [FORM_FEED] + "b" && ServerPages(wire, 1) == [1, 1, 2]
  {
    var text, m := "a\nb", PageStart(2, 1);
    assert [m, m][1..] == [m] && [m][1..] == [];
    assert Marked(text, [m], 0, 2) == Marked(text, [], 0, 2) == "b";
    assert Marked(text, [m, m], 0, 0) == text[0..2] + (Feeds(1) + "b");
    PlainPages("b", 2);
    ReadFeeds(1, "b", 1);
    ReadPlain("a\n", Feeds(1) + "b", 1);
    assert "a\n" + (Feeds(1) + "b") == "a\n" + [FORM_FEED] + "b";
  }

  // ----- whole documents ---------------------------------------------------------

  predicate PlainHeadings(sections: seq<Section>) { forall s :: s in sections ==> NoFormFeed(s.heading) }

  lemma {:induction false} LStripPlain(s: string, drop: char -> bool)
    requires NoFormFeed(s)
    ensures NoFormFeed(LStrip(s, drop))
  {
    if s != "" && drop(s[0]) {
      LStripPlain(s[1..], drop);
    }
  }

  lemma {:induction false} PrefixPlain(sections: seq<Section>, text: string, offset: int)
    requires PlainHeadings(sections)
    ensures NoFormFeed(PrefixAt(sections, text, offset))
  {
    if sections != [] {
      if sections[0].lineStart == Some(LineNumberAt(text, offset) as int) {
        assert sections[0] in sections;
        LStripPlain(sections[0].heading, Strings.IsSpace);
      } else {
        PrefixPlain(sections[1..], text, offset);
      }
    }
  }

  /** A document whose pages can be read back: no form feeds of its own, text pages in order. */
  ghost predicate ReadableDocument(doc: Document) {
    && doc.markers && NoFormFeed(doc.text) && PlainHeadings(doc.sections)
    && PagesInOrder(doc.pages, LineStarts(doc.text)) && PageNumbersOf(doc) != []
  }

  /** The part that holds an offset, and where it ends. */
  lemma {:induction false} HoldingPart(doc: Document, parts: seq<Part>, end: nat, partMax: int, o: nat)
    returns (i: nat, partEnd: nat)
    requires Contiguous(doc.text, parts, end) && AllGood(doc, parts, end, partMax) && o < end
    ensures i < |parts| && parts[i].start <= o < partEnd && GoodPart(doc, parts[i], partEnd, partMax)
    decreases |parts|
  {
    var last := parts[|parts| - 1];
    if last.start <= o {
      i, partEnd := |parts| - 1, end;
    } else {
      i, partEnd := HoldingPart(doc, parts[..|parts| - 1], last.start, partMax, o);
    }
  }

  /** Every character of a document is in a part from which the server reads it back on its own page. */
  lemma EveryCharacterReadsBack(doc: Document, parts: seq<Part>, partMax: int, o: nat)
    returns (i: nat, partEnd: nat, page: int)
    requires ReadableDocument(doc) && o < |doc.text|
    requires Contiguous(doc.text, parts, |doc.text|) && AllGood(doc, parts, |doc.text|, partMax)
    ensures i < |parts| && parts[i].start <= o < partEnd <= |doc.text| && parts[i].page.Some?
    ensures WithoutMarkers(parts[i].snippet)
         == WithHeading(doc.text[parts[i].start..partEnd], PrefixOf(doc, parts[i].start)).0
    ensures ReadsBack(doc, parts[i].start, partEnd, parts[i].page.value, o, page)
    ensures OnPage(doc.pages, LineStarts(doc.text), o, page)
    ensures forall other :: OnPage(doc.pages, LineStarts(doc.text), o, other) ==> other == page
  {
    i, partEnd := HoldingPart(doc, parts, |doc.text|, partMax, o);
    PrefixPlain(doc.sections, doc.text, parts[i].start);
    page := PageProvenance(doc, parts[i], partEnd, partMax, o);
  }
}

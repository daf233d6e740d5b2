/**
  Page-break markers (`page_markers.py`) and the page numbers of text pages
  (`chunking._page_number_starts`, `_page_for_offset`).

  The server copies a part's declared page onto its characters and advances it
  by one per form feed. This module holds both ends: the markers the connector
  writes, and the server's reading of them.
 */
module PageMarkers {
  import opened Prelude
  import opened Sorting
  import opened Lines

  const FORM_FEED := '\U{000C}'

  /** An extracted page. An empty page has no text or no line of its own. */
  datatype Page = Page(index: int, text: string, lineStart: Option<int>, lineEnd: Option<int>)

  /** The document offset of a page's first character, with its number or its count of markers. */
  datatype PageStart = PageStart(offset: int, count: int)

  /** Tuple order, as `list.sort` compares page starts. */
  predicate PairLe(a: PageStart, b: PageStart) {
    a.offset < b.offset || (a.offset == b.offset && a.count <= b.count)
  }

  predicate IndexLe(a: Page, b: Page) { a.index <= b.index }

  lemma PairLeOrders()
    ensures TotalPreorder(PairLe) && AntiSymmetric(PairLe)
  {
  }

  // ----- text pages ------------------------------------------------------------

  predicate IsTextPage(p: Page, lines: seq<nat>) {
    p.text != "" && p.lineStart.Some? && 1 <= p.lineStart.value <= |lines|
  }

  /** First offset and number (index + 1) of a text page; nothing for an empty page. */
  function Entry(p: Page, lines: seq<nat>): seq<PageStart> {
    if IsTextPage(p, lines) then [PageStart(lines[p.lineStart.value - 1], p.index + 1)] else []
  }

  /** The text pages of a list of pages, in the order given. */
  function Numbered(pages: seq<Page>, lines: seq<nat>): seq<PageStart> {
    if pages == [] then [] else Entry(pages[0], lines) + Numbered(pages[1..], lines)
  }

  lemma {:induction false} NumberedAppend(a: seq<Page>, p: Page, lines: seq<nat>)
    ensures Numbered(a + [p], lines) == Numbered(a, lines) + Entry(p, lines)
  {
    if a == [] {
      assert a + [p] == [p];
      assert [p][1..] == [];
    } else {
      assert (a + [p])[1..] == a[1..] + [p];
      NumberedAppend(a[1..], p, lines);
    }
  }

  /** Every text page has its entry, and every entry is a text page. */
  lemma {:induction false} NumberedExact(pages: seq<Page>, lines: seq<nat>)
    ensures forall p :: p in pages && IsTextPage(p, lines) ==> Entry(p, lines)[0] in Numbered(pages, lines)
    ensures forall e :: e in Numbered(pages, lines) ==>
              exists p :: p in pages && IsTextPage(p, lines) && Entry(p, lines)[0] == e
  {
    if pages != [] {
      NumberedExact(pages[1..], lines);
      forall e | e in Numbered(pages, lines)
        ensures exists p :: p in pages && IsTextPage(p, lines) && Entry(p, lines)[0] == e
      {
        if e in Numbered(pages[1..], lines) {
          var p :| p in pages[1..] && IsTextPage(p, lines) && Entry(p, lines)[0] == e;
          assert p in pages;
        } else {
          assert pages[0] in pages && Entry(pages[0], lines)[0] == e;
        }
      }
      forall p | p in pages && IsTextPage(p, lines) ensures Entry(p, lines)[0] in Numbered(pages, lines) {
        if p != pages[0] {
          assert p in pages[1..];
        }
      }
    }
  }

  lemma {:induction false} NumberedOfInsert(p: Page, s: seq<Page>, lines: seq<nat>)
    ensures multiset(Numbered(Insert(p, s, IndexLe), lines)) == multiset(Entry(p, lines)) + multiset(Numbered(s, lines))
  {
    if s == [] || IndexLe(p, s[0]) {
      assert ([p] + s)[1..] == s;
      assert Insert(p, s, IndexLe) == [p] + s;
    } else {
      NumberedOfInsert(p, s[1..], lines);
      var r := Insert(p, s, IndexLe);
      assert r[0] == s[0] && r[1..] == Insert(p, s[1..], IndexLe);
    }
  }

  /** Ordering the pages by index first only permutes the text pages. */
  lemma {:induction false} NumberedOfSort(pages: seq<Page>, lines: seq<nat>)
    ensures multiset(Numbered(Sort(pages, IndexLe), lines)) == multiset(Numbered(pages, lines))
  {
    if pages != [] {
      NumberedOfSort(pages[1..], lines);
      NumberedOfInsert(pages[0], Sort(pages[1..], IndexLe), lines);
    }
  }

  /** What `_page_number_starts` returns: (offset, number) of every text page, sorted. */
  function PageNumbers(pages: seq<Page>, lines: seq<nat>): seq<PageStart> {
    Sort(Numbered(pages, lines), PairLe)
  }

  /** `_page_number_starts` */
  method PageNumberStarts(pages: seq<Page>, text: string) returns (starts: seq<PageStart>)
    ensures starts == PageNumbers(pages, LineStarts(text))
  {
    if pages == [] {
      return [];
    }
    var lines := LineStartOffsets(text);
    var entries: seq<PageStart> := [];
    for i := 0 to |pages|
      invariant entries == Numbered(pages[..i], lines)
    {
      NumberedAppend(pages[..i], pages[i], lines);
      assert pages[..i + 1] == pages[..i] + [pages[i]];
      if IsTextPage(pages[i], lines) {
        entries := entries + [PageStart(lines[pages[i].lineStart.value - 1], pages[i].index + 1)];
      }
    }
    assert pages[..|pages|] == pages;
    starts := Sort(entries, PairLe);
  }

  // ----- bisect ----------------------------------------------------------------

  ghost predicate Ascending(s: seq<PageStart>) {
    forall i, j :: 0 <= i < j < |s| ==> s[i].offset <= s[j].offset
  }

  /** `bisect.bisect_right` on the first components, by halving. */
  function BisectRight(s: seq<PageStart>, x: int, lo: nat, hi: nat): (r: nat)
    requires lo <= hi <= |s|
    ensures lo <= r <= hi
    decreases hi - lo
  {
    if lo == hi then lo
    else
      var mid := (lo + hi) / 2;
      if x < s[mid].offset then BisectRight(s, x, lo, mid) else BisectRight(s, x, mid + 1, hi)
  }

  /** `bisect.bisect_left` on the first components. */
  function BisectLeft(s: seq<PageStart>, x: int, lo: nat, hi: nat): (r: nat)
    requires lo <= hi <= |s|
    ensures lo <= r <= hi
    decreases hi - lo
  {
    if lo == hi then lo
    else
      var mid := (lo + hi) / 2;
      if s[mid].offset < x then BisectLeft(s, x, mid + 1, hi) else BisectLeft(s, x, lo, mid)
  }

  lemma {:induction false} BisectRightExact(s: seq<PageStart>, x: int, lo: nat, hi: nat)
    requires lo <= hi <= |s| && Ascending(s)
    ensures forall i :: lo <= i < BisectRight(s, x, lo, hi) ==> s[i].offset <= x
    ensures forall i :: BisectRight(s, x, lo, hi) <= i < hi ==> x < s[i].offset
    decreases hi - lo
  {
    if lo < hi {
      var mid := (lo + hi) / 2;
      if x < s[mid].offset { BisectRightExact(s, x, lo, mid); } else { BisectRightExact(s, x, mid + 1, hi); }
    }
  }

  lemma {:induction false} BisectLeftExact(s: seq<PageStart>, x: int, lo: nat, hi: nat)
    requires lo <= hi <= |s| && Ascending(s)
    ensures forall i :: lo <= i < BisectLeft(s, x, lo, hi) ==> s[i].offset < x
    ensures forall i :: BisectLeft(s, x, lo, hi) <= i < hi ==> x <= s[i].offset
    decreases hi - lo
  {
    if lo < hi {
      var mid := (lo + hi) / 2;
      if s[mid].offset < x { BisectLeftExact(s, x, mid + 1, hi); } else { BisectLeftExact(s, x, lo, mid); }
    }
  }

  // ----- the page of an offset -------------------------------------------------

  function PageIndex(starts: seq<PageStart>, offset: int): (k: nat)
    requires starts != []
    ensures k < |starts|
  {
    Max(BisectRight(starts, offset, 0, |starts|) - 1, 0)
  }

  /** `_page_for_offset`: the number of the text page holding an offset. */
  function PageForOffset(starts: seq<PageStart>, offset: int): Option<int> {
    if starts == [] then None else Some(starts[PageIndex(starts, offset)].count)
  }

  /**
    The page an offset is on, stated without sorting or searching: a text page
    that starts at or before it such that no other one starts in between; before
    the first text page, the first one.
   */
  ghost predicate OnPage(pages: seq<Page>, lines: seq<nat>, offset: int, number: int) {
    exists e :: e in Numbered(pages, lines) && e.count == number && Governs(Numbered(pages, lines), offset, e)
  }

  ghost predicate Governs(entries: seq<PageStart>, offset: int, e: PageStart) {
    forall f :: f in entries ==>
      if e.offset <= offset then f.offset <= e.offset || offset < f.offset else e.offset <= f.offset
  }

  lemma LookupGoverns(s: seq<PageStart>, offset: int)
    requires s != [] && Ascending(s)
    ensures Governs(s, offset, s[PageIndex(s, offset)])
  {
    BisectRightExact(s, offset, 0, |s|);
    var k := PageIndex(s, offset);
    forall f | f in s ensures if s[k].offset <= offset then f.offset <= s[k].offset || offset < f.offset else s[k].offset <= f.offset {
      var l :| 0 <= l < |s| && s[l] == f;
    }
  }

  /** The declared page is the page of the offset, for any pages in any order. */
  lemma PageForOffsetIsOnPage(pages: seq<Page>, lines: seq<nat>, offset: int)
    ensures var declared := PageForOffset(PageNumbers(pages, lines), offset);
            if exists p :: p in pages && IsTextPage(p, lines)
            then declared.Some? && OnPage(pages, lines, offset, declared.value)
            else declared.None?
  {
    var raw := Numbered(pages, lines);
    var s := PageNumbers(pages, lines);
    NumberedExact(pages, lines);
    PairLeOrders();
    SortSorts(raw, PairLe);
    SortPermutes(raw, PairLe);
    SameElements(s, raw);
    if s != [] {
      assert Ascending(s) by {
        assert forall i, j :: 0 <= i < j < |s| ==> PairLe(s[i], s[j]);
      }
      LookupGoverns(s, offset);
      var e := s[PageIndex(s, offset)];
      assert e in s;
      assert Governs(raw, offset, e);
    } else {
      assert raw == [];
    }
  }

  // ----- the marker positions --------------------------------------------------

  /** One marker entry per text page with an earlier one: the pages passed since then. */
  function Advances(entries: seq<PageStart>, previous: Option<int>): seq<PageStart> {
    if entries == [] then []
    else
      var PageStart(offset, number) := entries[0];
      (if previous.Some? && number - previous.value >= 1 then [PageStart(offset, number - previous.value)] else [])
      + Advances(entries[1..], Some(number))
  }

  /** What `text_page_starts` returns. */
  function MarkerStarts(pages: seq<Page>, lines: seq<nat>): seq<PageStart> {
    Sort(Advances(Numbered(Sort(pages, IndexLe), lines), None), PairLe)
  }

  function LastNumber(entries: seq<PageStart>, previous: Option<int>): Option<int> {
    if entries == [] then previous else Some(entries[|entries| - 1].count)
  }

  lemma {:induction false} AdvancesAppend(entries: seq<PageStart>, e: PageStart, previous: Option<int>)
    ensures Advances(entries + [e], previous)
         == Advances(entries, previous) + Advances([e], LastNumber(entries, previous))
  {
    if entries == [] {
      assert entries + [e] == [e];
    } else {
      assert (entries + [e])[1..] == entries[1..] + [e];
      AdvancesAppend(entries[1..], e, Some(entries[0].count));
    }
  }

  lemma AdvancesOfOne(e: PageStart, previous: Option<int>)
    ensures Advances([e], previous)
         == if previous.Some? && e.count - previous.value >= 1 then [PageStart(e.offset, e.count - previous.value)] else []
  {
  }

  lemma AdvancesStep(ordered: seq<Page>, i: nat, lines: seq<nat>)
    requires i < |ordered|
    ensures var before := Numbered(ordered[..i], lines);
            var after := Numbered(ordered[..i + 1], lines);
            var p := ordered[i];
            if !IsTextPage(p, lines) then after == before
            else
              var previous := LastNumber(before, None);
              var number := p.index + 1;
              && LastNumber(after, None) == Some(number)
              && Advances(after, None) == Advances(before, None)
                 + (if previous.Some? && number - previous.value >= 1
                    then [PageStart(lines[p.lineStart.value - 1], number - previous.value)] else [])
  {
    var before, p := Numbered(ordered[..i], lines), ordered[i];
    assert ordered[..i + 1] == ordered[..i] + [p];
    NumberedAppend(ordered[..i], p, lines);
    if IsTextPage(p, lines) {
      var e := PageStart(lines[p.lineStart.value - 1], p.index + 1);
      assert Numbered(ordered[..i + 1], lines) == before + [e];
      AdvancesAppend(before, e, None);
      AdvancesOfOne(e, LastNumber(before, None));
    } else {
      assert before + [] == before;
    }
  }

  /** `text_page_starts`: the loop over the pages by index, remembering the last text page. */
  method TextPageStarts(pages: seq<Page>, text: string) returns (starts: seq<PageStart>)
    ensures starts == MarkerStarts(pages, LineStarts(text))
  {
    if pages == [] {
      return [];
    }
    var lines := LineStartOffsets(text);
    var ordered := Sort(pages, IndexLe);
    starts := [];
    var previous: Option<int> := None;
    for i := 0 to |ordered|
      invariant starts == Advances(Numbered(ordered[..i], lines), None)
      invariant previous == LastNumber(Numbered(ordered[..i], lines), None)
    {
      var p := ordered[i];
      AdvancesStep(ordered, i, lines);
      if IsTextPage(p, lines) {
        var offset, number := lines[p.lineStart.value - 1], p.index + 1;
        if previous.Some? {
          var count := number - previous.value;
          if count >= 1 {
            starts := starts + [PageStart(offset, count)];
          }
        }
        previous := Some(number);
      }
    }
    assert ordered[..|ordered|] == ordered;
    starts := Sort(starts, PairLe);
  }

  /** `markers_inside`: the page starts strictly after the first character and before the end. */
  function MarkersInside(starts: seq<PageStart>, a: int, b: int): seq<PageStart> {
    if starts == [] || b <= a + 1 then []
    else
      var lo := BisectRight(starts, a, 0, |starts|);
      var hi := BisectLeft(starts, b, 0, |starts|);
      if lo <= hi then starts[lo..hi] else []
  }

  function SumCounts(starts: seq<PageStart>): int {
    if starts == [] then 0 else starts[0].count + SumCounts(starts[1..])
  }

  /** `marker_count_inside` */
  function MarkerCountInside(starts: seq<PageStart>, a: int, b: int): int {
    SumCounts(MarkersInside(starts, a, b))
  }

  lemma {:induction false} SumCountsAppend(a: seq<PageStart>, b: seq<PageStart>)
    ensures SumCounts(a + b) == SumCounts(a) + SumCounts(b)
  {
    if a == [] {
      assert a + b == b;
    } else {
      assert (a + b)[1..] == a[1..] + b;
      SumCountsAppend(a[1..], b);
    }
  }

  ghost predicate AllPositive(starts: seq<PageStart>) {
    forall i :: 0 <= i < |starts| ==> starts[i].count >= 1
  }

  lemma {:induction false} SumCountsBounds(starts: seq<PageStart>)
    requires AllPositive(starts)
    ensures SumCounts(starts) >= |starts|
  {
    if starts != [] {
      SumCountsBounds(starts[1..]);
    }
  }

  lemma {:induction false} AdvancesPositive(entries: seq<PageStart>, previous: Option<int>)
    ensures forall x :: x in Advances(entries, previous) ==> x.count >= 1
    ensures forall x :: x in Advances(entries, previous) ==> exists e :: e in entries && e.offset == x.offset
  {
    if entries != [] {
      AdvancesPositive(entries[1..], Some(entries[0].count));
      forall x | x in Advances(entries, previous) ensures exists e :: e in entries && e.offset == x.offset {
        if x in Advances(entries[1..], Some(entries[0].count)) {
          var e :| e in entries[1..] && e.offset == x.offset;
          assert e in entries;
        } else {
          assert entries[0] in entries;
        }
      }
    }
  }

  /** Marker positions are ascending line starts and every count is positive, whatever the pages. */
  lemma MarkerStartsPositive(pages: seq<Page>, lines: seq<nat>)
    ensures Ascending(MarkerStarts(pages, lines)) && AllPositive(MarkerStarts(pages, lines))
    ensures forall i :: 0 <= i < |MarkerStarts(pages, lines)| ==> exists l :: l in lines && MarkerStarts(pages, lines)[i].offset == l
  {
    var ordered := Sort(pages, IndexLe);
    var raw := Advances(Numbered(ordered, lines), None);
    AdvancesPositive(Numbered(ordered, lines), None);
    NumberedExact(ordered, lines);
    PairLeOrders();
    SortSorts(raw, PairLe);
    SortPermutes(raw, PairLe);
    var s := Sort(raw, PairLe);
    SameElements(s, raw);
    forall i | 0 <= i < |s| ensures s[i].count >= 1 && exists l :: l in lines && s[i].offset == l {
      assert s[i] in raw;
      var e :| e in Numbered(ordered, lines) && e.offset == s[i].offset;
      var p :| p in ordered && IsTextPage(p, lines) && Entry(p, lines)[0] == e;
      assert lines[p.lineStart.value - 1] in lines;
    }
    forall i, j | 0 <= i < j < |s| ensures s[i].offset <= s[j].offset {
      assert PairLe(s[i], s[j]);
    }
  }

  /** Lowering the end of a part only drops markers. */
  lemma MarkerCountMonotone(starts: seq<PageStart>, a: int, b: int, c: int)
    requires Ascending(starts) && AllPositive(starts)
    requires b <= c
    ensures 0 <= MarkerCountInside(starts, a, b) <= MarkerCountInside(starts, a, c)
  {
    var lo := BisectRight(starts, a, 0, |starts|);
    var hb, hc := BisectLeft(starts, b, 0, |starts|), BisectLeft(starts, c, 0, |starts|);
    BisectLeftMonotone(starts, b, c);
    SumCountsBounds(MarkersInside(starts, a, b));
    SumCountsBounds(MarkersInside(starts, a, c));
    if lo <= hb && b > a + 1 {
      SumCountsMore(starts, lo, hb, hc);
    }
  }

  lemma SumCountsMore(starts: seq<PageStart>, lo: nat, hb: nat, hc: nat)
    requires lo <= hb <= hc <= |starts| && AllPositive(starts)
    ensures SumCounts(starts[lo..hb]) <= SumCounts(starts[lo..hc])
  {
    assert starts[lo..hc] == starts[lo..hb] + starts[hb..hc];
    SumCountsAppend(starts[lo..hb], starts[hb..hc]);
    SumCountsBounds(starts[hb..hc]);
  }

  lemma BisectLeftMonotone(starts: seq<PageStart>, b: int, c: int)
    requires Ascending(starts) && b <= c
    ensures BisectLeft(starts, b, 0, |starts|) <= BisectLeft(starts, c, 0, |starts|)
  {
    var hb, hc := BisectLeft(starts, b, 0, |starts|), BisectLeft(starts, c, 0, |starts|);
    BisectLeftExact(starts, b, 0, |starts|);
    BisectLeftExact(starts, c, 0, |starts|);
    assert hc < |starts| ==> c <= starts[hc].offset;
  }

  // ----- writing the markers ---------------------------------------------------

  function Feeds(n: int): string { Repeat(FORM_FEED, Max(n, 0)) }

  /** The marked rest of a snippet from `cursor` on. */
  function Marked(snippet: string, markers: seq<PageStart>, shift: int, cursor: nat): string
    requires cursor <= |snippet|
  {
    if markers == [] then snippet[cursor..]
    else
      var pos := markers[0].offset + shift;
      if pos <= cursor || pos > |snippet| then Marked(snippet, markers[1..], shift, cursor)
      else snippet[cursor..pos] + (Feeds(markers[0].count) + Marked(snippet, markers[1..], shift, pos))
  }

  /** `apply_page_markers` */
  method ApplyPageMarkers(snippet: string, markers: seq<PageStart>, shift: int) returns (marked: string)
    ensures marked == Marked(snippet, markers, shift, 0)
  {
    if markers == [] {
      return snippet;
    }
    marked := "";
    var cursor := 0;
    for i := 0 to |markers|
      invariant 0 <= cursor <= |snippet|
      invariant marked + Marked(snippet, markers[i..], shift, cursor) == Marked(snippet, markers, shift, 0)
    {
      var PageStart(relative, count) := markers[i];
      var pos := relative + shift;
      assert markers[i..][1..] == markers[i + 1..];
      if pos <= cursor || pos > |snippet| {
        continue;
      }
      marked := marked + snippet[cursor..pos] + Feeds(count);
      cursor := pos;
    }
    marked := marked + snippet[cursor..];
  }

  // ----- the server's reading --------------------------------------------------

  /** The page of every character that is not a form feed, from a part's declared page. */
  function ServerPages(wire: string, page: int): seq<int> {
    if wire == "" then []
    else if wire[0] == FORM_FEED then ServerPages(wire[1..], page + 1)
    else [page] + ServerPages(wire[1..], page)
  }

  /** The characters the server indexes. */
  function WithoutMarkers(wire: string): string {
    if wire == "" then ""
    else (if wire[0] == FORM_FEED then "" else [wire[0]]) + WithoutMarkers(wire[1..])
  }

  predicate NoFormFeed(s: string) { forall i :: 0 <= i < |s| ==> s[i] != FORM_FEED }

  lemma {:induction false} ReadPlain(plain: string, rest: string, page: int)
    requires NoFormFeed(plain)
    ensures ServerPages(plain + rest, page) == Repeat(page, |plain|) + ServerPages(rest, page)
  {
    var all := plain + rest;
    if plain == "" {
      assert all == rest;
    } else {
      assert all[1..] == plain[1..] + rest;
      ReadPlain(plain[1..], rest, page);
      assert Repeat(page, |plain|) == [page] + Repeat(page, |plain| - 1);
    }
  }

  lemma {:induction false} TextOfPlain(plain: string, rest: string)
    requires NoFormFeed(plain)
    ensures WithoutMarkers(plain + rest) == plain + WithoutMarkers(rest)
  {
    var all := plain + rest;
    if plain == "" {
      assert all == rest;
    } else {
      assert all[1..] == plain[1..] + rest;
      TextOfPlain(plain[1..], rest);
      assert WithoutMarkers(all) == [plain[0]] + WithoutMarkers(all[1..]);
      assert plain == [plain[0]] + plain[1..];
    }
  }

  lemma PlainText(plain: string)
    requires NoFormFeed(plain)
    ensures WithoutMarkers(plain) == plain
  {
    TextOfPlain(plain, "");
    assert plain + "" == plain;
  }

  lemma PlainPages(plain: string, page: int)
    requires NoFormFeed(plain)
    ensures ServerPages(plain, page) == Repeat(page, |plain|)
  {
    ReadPlain(plain, "", page);
    assert plain + "" == plain;
  }

  lemma {:induction false} ReadFeeds(n: nat, rest: string, page: int)
    ensures ServerPages(Feeds(n) + rest, page) == ServerPages(rest, page + n)
    ensures WithoutMarkers(Feeds(n) + rest) == WithoutMarkers(rest)
  {
    if n == 0 {
      assert Feeds(n) + rest == rest;
    } else {
      assert (Feeds(n) + rest)[1..] == Feeds(n - 1) + rest;
      ReadFeeds(n - 1, rest, page + 1);
    }
  }

  /** Markers the writer places one after another, none at the first character, none past the end. */
  ghost predicate Placeable(snippet: string, markers: seq<PageStart>, shift: int, cursor: nat) {
    && (forall i :: 0 <= i < |markers| ==> cursor < markers[i].offset + shift <= |snippet| && markers[i].count >= 1)
    && (forall i, j :: 0 <= i < j < |markers| ==> markers[i].offset < markers[j].offset)
  }

  /** How many of ascending markers stand at or before position `q`. */
  ghost function Passed(markers: seq<PageStart>, shift: int, q: int): (t: nat)
    ensures t <= |markers|
  {
    if markers == [] || markers[0].offset + shift > q then 0 else 1 + Passed(markers[1..], shift, q)
  }

  /** The form feeds written up to position `q`. */
  ghost function PassedCount(markers: seq<PageStart>, shift: int, q: int): int {
    SumCounts(markers[..Passed(markers, shift, q)])
  }

  lemma PlaceableRest(snippet: string, markers: seq<PageStart>, shift: int, cursor: nat)
    requires Placeable(snippet, markers, shift, cursor) && markers != []
    ensures Placeable(snippet, markers[1..], shift, markers[0].offset + shift)
  {
  }

  /** The text under the markers is unchanged, and the markers add exactly their counts. */
  lemma {:induction false} MarkedText(snippet: string, markers: seq<PageStart>, shift: int, cursor: nat)
    requires cursor <= |snippet| && NoFormFeed(snippet)
    requires Placeable(snippet, markers, shift, cursor)
    ensures WithoutMarkers(Marked(snippet, markers, shift, cursor)) == snippet[cursor..]
    decreases |markers|
  {
    if markers == [] {
      PlainText(snippet[cursor..]);
    } else {
      var pos := markers[0].offset + shift;
      PlaceableRest(snippet, markers, shift, cursor);
      var head, tail := snippet[cursor..pos], Marked(snippet, markers[1..], shift, pos);
      FirstMarkerRead(snippet, markers, shift, cursor, 0);
      assert WithoutMarkers(Marked(snippet, markers, shift, cursor)) == head + WithoutMarkers(tail);
      MarkedText(snippet, markers[1..], shift, pos);
      assert head + snippet[pos..] == snippet[cursor..];
    }
  }

  lemma {:induction false} MarkedLength(snippet: string, markers: seq<PageStart>, shift: int, cursor: nat)
    requires cursor <= |snippet|
    requires AllPositive(markers)
    ensures |snippet| - cursor <= |Marked(snippet, markers, shift, cursor)| <= |snippet| - cursor + SumCounts(markers)
    decreases |markers|
  {
    if markers != [] {
      var pos := markers[0].offset + shift;
      MarkedLength(snippet, markers[1..], shift, if pos <= cursor || pos > |snippet| then cursor else pos);
    }
  }

  /**
    Reading back: no marker is skipped, and the page of position `q` is the
    declared one plus the counts of the markers at or before it.
   */
  lemma MarkedPages(snippet: string, markers: seq<PageStart>, shift: int, cursor: nat, page: int, q: nat)
    requires cursor <= q < |snippet| && NoFormFeed(snippet)
    requires Placeable(snippet, markers, shift, cursor)
    ensures q - cursor < |ServerPages(Marked(snippet, markers, shift, cursor), page)|
    ensures ServerPages(Marked(snippet, markers, shift, cursor), page)[q - cursor]
         == page + PassedCount(markers, shift, q)
  {
    PagesRead(snippet, markers, shift, cursor, page, q);
  }

  ghost predicate Reads(pages: seq<int>, i: int, page: int) { 0 <= i < |pages| && pages[i] == page }

  lemma {:induction false} PagesRead(snippet: string, markers: seq<PageStart>, shift: int, cursor: nat, page: int, q: nat)
    requires cursor <= q < |snippet| && NoFormFeed(snippet)
    requires Placeable(snippet, markers, shift, cursor)
    ensures Reads(ServerPages(Marked(snippet, markers, shift, cursor), page), q - cursor, page + PassedCount(markers, shift, q))
    decreases |markers|
  {
    if markers == [] {
      NoMarkerPages(snippet, shift, cursor, page, q);
    } else {
      var pos, rest, count := markers[0].offset + shift, markers[1..], markers[0].count;
      var all, tail := ServerPages(Marked(snippet, markers, shift, cursor), page), ServerPages(Marked(snippet, rest, shift, pos), page + count);
      var passed, more := PassedCount(markers, shift, q), PassedCount(rest, shift, q);
      FirstMarkerRead(snippet, markers, shift, cursor, page);
      PassedFromHead(markers, shift, q);
      if pos <= q {
        PlaceableRest(snippet, markers, shift, cursor);
        PagesRead(snippet, rest, shift, pos, page + count, q);
      }
      ReadBehind(all, page, pos - cursor, tail, count + more, q - cursor);
    }
  }

  lemma NoMarkerPages(snippet: string, shift: int, cursor: nat, page: int, q: nat)
    requires cursor <= q < |snippet| && NoFormFeed(snippet)
    ensures q - cursor < |ServerPages(Marked(snippet, [], shift, cursor), page)|
    ensures ServerPages(Marked(snippet, [], shift, cursor), page)[q - cursor] == page + PassedCount([], shift, q)
  {
    PlainPages(snippet[cursor..], page);
  }

  /** Position `i` behind `n` characters on the declared page, or among them. */
  lemma ReadBehind(all: seq<int>, page: int, n: nat, tail: seq<int>, passed: int, i: nat)
    requires all == Repeat(page, n) + tail
    requires n <= i ==> Reads(tail, i - n, page + passed)
    ensures Reads(all, i, page + if n <= i then passed else 0)
  {
  }

  lemma PassedFromHead(markers: seq<PageStart>, shift: int, q: int)
    requires markers != []
    ensures PassedCount(markers, shift, q)
         == if markers[0].offset + shift <= q then markers[0].count + PassedCount(markers[1..], shift, q) else 0
  {
    var t := Passed(markers, shift, q);
    if markers[0].offset + shift <= q {
      assert markers[..t][1..] == markers[1..][..t - 1];
    } else {
      assert markers[..t] == [];
    }
  }

  /** Up to the first marker the declared page, after it the server reads on from its count. */
  lemma FirstMarkerRead(snippet: string, markers: seq<PageStart>, shift: int, cursor: nat, page: int)
    requires cursor <= |snippet| && NoFormFeed(snippet) && markers != []
    requires cursor < markers[0].offset + shift <= |snippet| && markers[0].count >= 1
    ensures var pos := markers[0].offset + shift;
            ServerPages(Marked(snippet, markers, shift, cursor), page)
            == Repeat(page, pos - cursor) + ServerPages(Marked(snippet, markers[1..], shift, pos), page + markers[0].count)
    ensures var pos := markers[0].offset + shift;
            WithoutMarkers(Marked(snippet, markers, shift, cursor))
            == snippet[cursor..pos] + WithoutMarkers(Marked(snippet, markers[1..], shift, pos))
  {
    var pos := markers[0].offset + shift;
    var rest := Marked(snippet, markers[1..], shift, pos);
    ReadPlain(snippet[cursor..pos], Feeds(markers[0].count) + rest, page);
    TextOfPlain(snippet[cursor..pos], Feeds(markers[0].count) + rest);
    ReadFeeds(markers[0].count, rest, page);
  }

  /** Markers shifted to part-relative positions, as the chunker passes them on. */
  function Relative(markers: seq<PageStart>, start: int): (r: seq<PageStart>)
    ensures |r| == |markers| && forall i :: 0 <= i < |r| ==> r[i] == PageStart(markers[i].offset - start, markers[i].count)
  {
    if markers == [] then [] else [PageStart(markers[0].offset - start, markers[0].count)] + Relative(markers[1..], start)
  }

  lemma {:induction false} SumCountsRelative(markers: seq<PageStart>, start: int)
    ensures SumCounts(Relative(markers, start)) == SumCounts(markers)
  {
    if markers != [] {
      SumCountsRelative(markers[1..], start);
      assert Relative(markers, start)[1..] == Relative(markers[1..], start);
    }
  }
}

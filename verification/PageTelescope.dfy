/**
  Page starts and markers together: over text pages in order the counts of the markers telescope to
  page numbers (`chunking.py`, `page_markers.py`).
 */
module PageTelescope {
  import opened Prelude
  import opened Sorting
  import opened PageMarkers

  ghost predicate Rising(entries: seq<PageStart>) {
    forall i, j :: 0 <= i < j < |entries| ==> entries[i].offset < entries[j].offset && entries[i].count < entries[j].count
  }

  /** Taken by index, the text pages' first characters rise strictly. */
  ghost predicate PagesInOrder(pages: seq<Page>, lines: seq<nat>) {
    Rising(Numbered(Sort(pages, IndexLe), lines))
  }

  /** Each marker stands at a text page after the first and counts from the page before. */
  ghost predicate Differences(starts: seq<PageStart>, numbers: seq<PageStart>) {
    |starts| < |numbers| ==>
      forall k :: 0 <= k < |starts| ==> starts[k] == PageStart(numbers[k + 1].offset, numbers[k + 1].count - numbers[k].count)
  }

  lemma {:induction false} AdvancesOfRising(entries: seq<PageStart>)
    requires Rising(entries) && entries != []
    ensures var marks := Advances(entries[1..], Some(entries[0].count));
            |marks| == |entries| - 1 && Differences(marks, entries)
  {
    if |entries| > 1 {
      var rest := entries[1..];
      AdvancesOfRising(rest);
      var marks, tail := Advances(rest, Some(entries[0].count)), Advances(rest[1..], Some(rest[0].count));
      assert marks == [PageStart(rest[0].offset, rest[0].count - entries[0].count)] + tail;
      forall k | 0 <= k < |marks|
        ensures marks[k] == PageStart(entries[k + 1].offset, entries[k + 1].count - entries[k].count)
      {
        if k > 0 {
          assert marks[k] == tail[k - 1];
          assert rest[k - 1] == entries[k] && rest[k] == entries[k + 1];
        }
      }
    }
  }

  /** The same rising text pages stand behind the page numbers and behind the markers. */
  lemma StartsOfOrderedPages(pages: seq<Page>, lines: seq<nat>)
    requires PagesInOrder(pages, lines)
    ensures Rising(PageNumbers(pages, lines))
    ensures |MarkerStarts(pages, lines)| == Max(|PageNumbers(pages, lines)| - 1, 0)
    ensures Differences(MarkerStarts(pages, lines), PageNumbers(pages, lines))
  {
    NumbersOfOrderedPages(pages, lines);
    MarksOfRising(Numbered(Sort(pages, IndexLe), lines));
  }

  /** One marker per rising text page after the first, counting from the page before. */
  lemma MarksOfRising(entries: seq<PageStart>)
    requires Rising(entries)
    ensures var marks := Sort(Advances(entries, None), PairLe);
            |marks| == Max(|entries| - 1, 0) && Differences(marks, entries)
  {
    if entries != [] {
      var marks := Advances(entries[1..], Some(entries[0].count));
      AdvancesOfRising(entries);
      assert Advances(entries, None) == marks;
      DifferencesSorted(marks, entries);
      SortOfSorted(marks, PairLe);
    }
  }

  lemma DifferencesSorted(marks: seq<PageStart>, entries: seq<PageStart>)
    requires Rising(entries) && |marks| < |entries| && Differences(marks, entries)
    ensures Sorted(marks, PairLe)
  {
    forall i, j | 0 <= i < j < |marks| ensures PairLe(marks[i], marks[j]) {
      assert marks[i].offset == entries[i + 1].offset && marks[j].offset == entries[j + 1].offset;
    }
  }

  lemma RisingSorted(entries: seq<PageStart>)
    requires Rising(entries)
    ensures Sorted(entries, PairLe)
  {
  }

  lemma NumbersOfOrderedPages(pages: seq<Page>, lines: seq<nat>)
    requires PagesInOrder(pages, lines)
    ensures PageNumbers(pages, lines) == Numbered(Sort(pages, IndexLe), lines)
  {
    var raw := Numbered(pages, lines);
    NumberedOfSort(pages, lines);
    PairLeOrders();
    SortSorts(raw, PairLe);
    SortPermutes(raw, PairLe);
    RisingSorted(Numbered(Sort(pages, IndexLe), lines));
    SortedUnique(Numbered(Sort(pages, IndexLe), lines), Sort(raw, PairLe), PairLe);
  }

  /** Summed over a stretch of text pages, the counts telescope to a difference of page numbers. */
  lemma {:induction false} CountsTelescope(starts: seq<PageStart>, numbers: seq<PageStart>, x: nat, y: nat)
    requires x <= y <= |starts| && |numbers| == |starts| + 1
    requires Differences(starts, numbers)
    ensures SumCounts(starts[x..y]) == numbers[y].count - numbers[x].count
    decreases y - x
  {
    if x < y {
      CountsTelescope(starts, numbers, x + 1, y);
      assert starts[x..y][1..] == starts[x + 1..y];
    }
  }

  lemma {:induction false} PassedExact(markers: seq<PageStart>, shift: int, q: int, t: nat)
    requires t <= |markers|
    requires forall i :: 0 <= i < t ==> markers[i].offset + shift <= q
    requires forall i :: t <= i < |markers| ==> q < markers[i].offset + shift
    ensures Passed(markers, shift, q) == t
  {
    if t > 0 {
      PassedExact(markers[1..], shift, q, t - 1);
    }
  }

  /** The bisections of one ascending list and of its tail find the same page. */
  lemma PageIndexOfTail(numbers: seq<PageStart>, starts: seq<PageStart>, x: int)
    requires |numbers| == |starts| + 1 && Rising(numbers)
    requires Differences(starts, numbers)
    ensures Ascending(starts)
    ensures PageIndex(numbers, x) == BisectRight(starts, x, 0, |starts|)
  {
    forall i, j | 0 <= i < j < |starts| ensures starts[i].offset <= starts[j].offset {
      assert starts[i].offset == numbers[i + 1].offset && starts[j].offset == numbers[j + 1].offset;
    }
    BisectRightExact(numbers, x, 0, |numbers|);
    BisectRightExact(starts, x, 0, |starts|);
    var k, l := PageIndex(numbers, x), BisectRight(starts, x, 0, |starts|);
    assert k + 1 < |numbers| ==> x < numbers[k + 1].offset;
    assert k < |starts| ==> starts[k].offset == numbers[k + 1].offset;
    assert l <= k;
    assert l < |starts| ==> x < starts[l].offset && starts[l].offset == numbers[l + 1].offset;
  }

  lemma PassedSlice(starts: seq<PageStart>, a: int, lo: nat, j: nat, hi: nat, o: int)
    requires lo <= j <= hi <= |starts|
    requires forall i :: 0 <= i < j ==> starts[i].offset <= o
    requires forall i :: j <= i < |starts| ==> o < starts[i].offset
    ensures PassedCount(Relative(starts[lo..hi], a), 0, o - a) == SumCounts(starts[lo..j])
  {
    var inside := Relative(starts[lo..hi], a);
    PassedExact(inside, 0, o - a, j - lo);
    RelativeSlice(starts, a, lo, j, hi);
    SumCountsRelative(starts[lo..j], a);
  }

  lemma RelativeSlice(starts: seq<PageStart>, a: int, lo: nat, j: nat, hi: nat)
    requires lo <= j <= hi <= |starts|
    ensures Relative(starts[lo..hi], a)[..j - lo] == Relative(starts[lo..j], a)
  {
    assert starts[lo..hi][..j - lo] == starts[lo..j];
  }

  lemma PassedInside(starts: seq<PageStart>, a: int, b: int, o: int)
    requires Ascending(starts) && starts != []
    requires a <= o < b && b > a + 1
    ensures var i, j := BisectRight(starts, a, 0, |starts|), BisectRight(starts, o, 0, |starts|);
            i <= j && PassedCount(Relative(MarkersInside(starts, a, b), a), 0, o - a) == SumCounts(starts[i..j])
  {
    var lo, hi := BisectRight(starts, a, 0, |starts|), BisectLeft(starts, b, 0, |starts|);
    var j := BisectRight(starts, o, 0, |starts|);
    BisectRightExact(starts, a, 0, |starts|);
    BisectRightExact(starts, o, 0, |starts|);
    BisectLeftExact(starts, b, 0, |starts|);
    assert j < |starts| ==> o < starts[j].offset;
    assert hi < |starts| ==> b <= starts[hi].offset;
    assert lo <= j <= hi;
    PassedSlice(starts, a, lo, j, hi, o);
  }

  /** The counts of the markers passed inside a part add up to the difference of the page numbers. */
  lemma MarkersCountPages(pages: seq<Page>, lines: seq<nat>, a: int, b: int, o: int)
    requires PagesInOrder(pages, lines) && PageNumbers(pages, lines) != [] && a <= o < b
    ensures var numbers := PageNumbers(pages, lines);
            var inside := Relative(MarkersInside(MarkerStarts(pages, lines), a, b), a);
            PageForOffset(numbers, o).value == PageForOffset(numbers, a).value + PassedCount(inside, 0, o - a)
  {
    StartsOfOrderedPages(pages, lines);
    var numbers, starts := PageNumbers(pages, lines), MarkerStarts(pages, lines);
    PageIndexOfTail(numbers, starts, a);
    PageIndexOfTail(numbers, starts, o);
    var i, j := PageIndex(numbers, a), PageIndex(numbers, o);
    if starts != [] && b > a + 1 {
      PassedInside(starts, a, b, o);
      CountsTelescope(starts, numbers, i, j);
    }
  }

  /** The page of a character of a part: the page of its first one plus the markers passed up to it. */
  lemma PageOfCharacter(pages: seq<Page>, lines: seq<nat>, a: int, b: int, o: int, page: int)
    requires PagesInOrder(pages, lines) && PageNumbers(pages, lines) != [] && a <= o < b
    requires var inside := Relative(MarkersInside(MarkerStarts(pages, lines), a, b), a);
             page == PageForOffset(PageNumbers(pages, lines), a).value + PassedCount(inside, 0, o - a)
    ensures OnPage(pages, lines, o, page)
  {
    MarkersCountPages(pages, lines, a, b, o);
    var numbers := PageNumbers(pages, lines);
    assert PageForOffset(numbers, o) == Some(page);
    LookedUpIsOnPage(pages, lines, o, page);
  }

  lemma LookedUpIsOnPage(pages: seq<Page>, lines: seq<nat>, o: int, page: int)
    requires PageForOffset(PageNumbers(pages, lines), o) == Some(page)
    ensures OnPage(pages, lines, o, page)
  {
    PageForOffsetIsOnPage(pages, lines, o);
  }

  /** With text pages in order an offset is on one page only. */
  lemma OnOnePage(pages: seq<Page>, lines: seq<nat>, offset: int, m: int, n: int)
    requires PagesInOrder(pages, lines)
    requires OnPage(pages, lines, offset, m) && OnPage(pages, lines, offset, n)
    ensures m == n
  {
    var entries, rising := Numbered(pages, lines), Numbered(Sort(pages, IndexLe), lines);
    NumberedOfSort(pages, lines);
    SameElements(rising, entries);
    var e :| e in entries && e.count == m && Governs(entries, offset, e);
    var f :| f in entries && f.count == n && Governs(entries, offset, f);
    OneGoverns(entries, offset, e, f);
    RisingUnique(rising, e, f);
  }

  lemma OneGoverns(entries: seq<PageStart>, offset: int, e: PageStart, f: PageStart)
    requires e in entries && f in entries
    requires Governs(entries, offset, e) && Governs(entries, offset, f)
    ensures e.offset == f.offset
  {
  }

  lemma RisingUnique(rising: seq<PageStart>, e: PageStart, f: PageStart)
    requires Rising(rising) && e in rising && f in rising && e.offset == f.offset
    ensures e == f
  {
    var i :| 0 <= i < |rising| && rising[i] == e;
    var j :| 0 <= j < |rising| && rising[j] == f;
    assert i == j;
  }
}

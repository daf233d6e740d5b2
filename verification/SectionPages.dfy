/** Section headings and preferred part ends (`section_pages.py`). */
module SectionPages {
  import opened Prelude
  import opened Strings
  import opened Lines
  import opened PageMarkers

  const MAX_HEADING_LEVEL := 4
  const MIN_CHUNK_CHARS := 200

  datatype Section = Section(heading: string, level: int, lineStart: Option<int>)

  function LStrip(s: string, drop: char -> bool): string {
    if s != "" && drop(s[0]) then LStrip(s[1..], drop) else s
  }

  function RStrip(s: string, drop: char -> bool): (r: string)
    ensures r <= s
  {
    if s != "" && drop(s[|s| - 1]) then RStrip(s[..|s| - 1], drop) else s
  }

  function Strip(s: string): string { RStrip(LStrip(s, IsSpace), IsSpace) }

  predicate IsHash(c: char) { c == '#' }

  predicate IsNewline(c: char) { c == '\n' }

  /** `heading_line` */
  function HeadingLine(heading: string, level: int): string {
    Repeat('#', Max(1, Min(MAX_HEADING_LEVEL, if level == 0 then 1 else level))) + " " + heading
  }

  /** `section_prefix_at_offset`: the heading line of the first section that starts on the offset's line. */
  function PrefixAt(sections: seq<Section>, text: string, offset: int): string {
    if sections == [] then ""
    else if sections[0].lineStart == Some(LineNumberAt(text, offset) as int) then
      var heading := Strip(sections[0].heading);
      if heading == "" then "" else HeadingLine(heading, sections[0].level) + "\n\n"
    else PrefixAt(sections[1..], text, offset)
  }

  /** `s` is `r` with nothing but dropped characters around it, and `r` neither begins nor ends with one. */
  ghost predicate StrippedTo(s: string, drop: char -> bool, r: string) {
    && (exists i, j :: 0 <= i <= j <= |s| && r == s[i..j]
                       && (forall k :: 0 <= k < i ==> drop(s[k])) && (forall k :: j <= k < |s| ==> drop(s[k])))
    && (r != "" ==> !drop(r[0]) && !drop(r[|r| - 1]))
  }

  lemma {:induction false} LStripExactly(s: string, drop: char -> bool) returns (i: nat)
    ensures i <= |s| && LStrip(s, drop) == s[i..] && (forall k :: 0 <= k < i ==> drop(s[k])) && (i < |s| ==> !drop(s[i]))
  {
    i := 0;
    if s != "" && drop(s[0]) {
      var j := LStripExactly(s[1..], drop);
      i := j + 1;
      assert s[1..][j..] == s[i..];
      assert forall k :: 0 < k < i ==> s[k] == s[1..][k - 1];
    }
  }

  lemma {:induction false} RStripExactly(s: string, drop: char -> bool) returns (j: nat)
    ensures j <= |s| && RStrip(s, drop) == s[..j] && (forall k :: j <= k < |s| ==> drop(s[k])) && (j > 0 ==> !drop(s[j - 1]))
  {
    j := |s|;
    if s != "" && drop(s[|s| - 1]) {
      j := RStripExactly(s[..|s| - 1], drop);
      assert s[..|s| - 1][..j] == s[..j];
    }
  }

  lemma StripExactly(s: string)
    ensures StrippedTo(s, IsSpace, Strip(s))
  {
    var i := LStripExactly(s, IsSpace);
    var j := RStripExactly(s[i..], IsSpace);
    assert s[i..][..j] == s[i..i + j];
    assert forall k :: i + j <= k < |s| ==> s[k] == s[i..][k - i];
  }

  /** The first section that starts on a line. */
  predicate FirstOnLine(sections: seq<Section>, line: int, i: nat) {
    i < |sections| && sections[i].lineStart == Some(line) && forall k :: 0 <= k < i ==> sections[k].lineStart != Some(line)
  }

  /** A heading's markup: one to four marks, a blank, the heading, an empty line. */
  ghost predicate MarkedUp(heading: string, level: int, prefix: string) {
    exists n :: 1 <= n <= 4 && (1 <= level <= 4 ==> n == level) && (level > 4 ==> n == 4) && (level < 1 ==> n == 1)
      && prefix == Repeat('#', n) + " " + heading + "\n\n"
  }

  /**
    The prefix of a part is the marked-up heading of the first section that starts on the line on which the part
    starts; there is none without such a section, or when its heading is blank.
   */
  lemma {:induction false} PrefixExactly(sections: seq<Section>, text: string, offset: nat)
    requires offset <= |text|
    ensures var line, prefix := LineNumberAt(text, offset), PrefixAt(sections, text, offset);
            && (prefix != "" ==> exists i: nat :: FirstOnLine(sections, line, i) && MarkedUp(Strip(sections[i].heading), sections[i].level, prefix))
            && (prefix == "" <==> forall i: nat :: FirstOnLine(sections, line, i) ==> Strip(sections[i].heading) == "")
  {
    if sections != [] {
      var line, rest := LineNumberAt(text, offset), sections[1..];
      if sections[0].lineStart == Some(line as int) {
        assert FirstOnLine(sections, line, 0);
        var heading := Strip(sections[0].heading);
        if heading != "" {
          assert MarkedUp(heading, sections[0].level, HeadingLine(heading, sections[0].level) + "\n\n");
        }
        assert forall i: nat :: FirstOnLine(sections, line, i) ==> i == 0;
      } else {
        PrefixExactly(rest, text, offset);
        assert forall i: nat :: FirstOnLine(rest, line, i) ==> FirstOnLine(sections, line, i + 1);
        assert forall i: nat :: FirstOnLine(sections, line, i) ==> i > 0 && FirstOnLine(rest, line, i - 1);
      }
    }
  }

  function FirstLine(raw: string): nat {
    var nl := Find(raw, '\n', 0);
    if nl.None? then |raw| else nl.value
  }

  /** The heading a prefix carries, without markup. */
  function HeadingText(prefix: string): string { RStrip(prefix, IsNewline) }

  /** Whether a part's first line is the heading itself, bare or marked up. */
  predicate RepeatsHeading(raw: string, prefix: string) {
    Strip(LStrip(Strip(raw[..FirstLine(raw)]), IsHash)) == Strip(LStrip(HeadingText(prefix), IsHash))
  }

  lemma {:induction false} StripsTo(s: string, drop: char -> bool, i: nat)
    requires i <= |s| && (forall k :: 0 <= k < i ==> drop(s[k])) && (i < |s| ==> !drop(s[i]))
    ensures LStrip(s, drop) == s[i..]
    decreases i
  {
    if i > 0 {
      assert s[1..][i - 1..] == s[i..];
      StripsTo(s[1..], drop, i - 1);
    }
  }

  lemma {:induction false} StripsToFront(s: string, drop: char -> bool, j: nat)
    requires j <= |s| && (forall k :: j <= k < |s| ==> drop(s[k])) && (j > 0 ==> !drop(s[j - 1]))
    ensures RStrip(s, drop) == s[..j]
    decreases |s| - j
  {
    if j < |s| {
      assert s[..|s| - 1][..j] == s[..j];
      StripsToFront(s[..|s| - 1], drop, j);
    } else {
      assert s[..j] == s;
    }
  }

  /** A heading without blanks around it. */
  predicate PlainHeading(h: string) { h != "" && !IsSpace(h[0]) && !IsSpace(h[|h| - 1]) }

  /** The line of a heading without its marks is the heading. */
  lemma BareHeading(h: string, level: int)
    requires PlainHeading(h)
    ensures HeadingText(HeadingLine(h, level) + "\n\n") == HeadingLine(h, level)
    ensures Strip(LStrip(HeadingLine(h, level), IsHash)) == h
  {
    var line := HeadingLine(h, level);
    var n := Max(1, Min(MAX_HEADING_LEVEL, if level == 0 then 1 else level));
    var prefix := line + "\n\n";
    assert line[|line| - 1] == h[|h| - 1] && IsSpace('\n');
    StripsToFront(prefix, IsNewline, |line|);
    assert prefix[..|line|] == line;
    StripsTo(line, IsHash, n);
    assert line[n..] == " " + h;
    StripsTo(" " + h, IsSpace, 1);
    assert (" " + h)[1..] == h;
    StripsToFront(h, IsSpace, |h|);
    assert h[..|h|] == h;
  }

  /** A line that is the heading: blanks aside, any number of marks, then the heading, blanks aside. */
  ghost predicate IsHeading(line: string, h: string) {
    exists n: nat, rest :: Strip(line) == Repeat('#', n) + rest && (rest != "" ==> rest[0] != '#') && StrippedTo(rest, IsSpace, h)
  }

  /** The first line counts as the heading's own exactly when it is the heading, bare or marked up. */
  lemma RepeatsExactly(raw: string, h: string, level: int)
    requires PlainHeading(h)
    ensures RepeatsHeading(raw, HeadingLine(h, level) + "\n\n") <==> IsHeading(raw[..FirstLine(raw)], h)
  {
    BareHeading(h, level);
    var line := Strip(raw[..FirstLine(raw)]);
    var n := LStripExactly(line, IsHash);
    var rest := line[n..];
    assert line == Repeat('#', n) + rest;
    StripExactly(rest);
    if RepeatsHeading(raw, HeadingLine(h, level) + "\n\n") {
      assert StrippedTo(rest, IsSpace, h);
    }
    if IsHeading(raw[..FirstLine(raw)], h) {
      var m: nat, other :| line == Repeat('#', m) + other && (other != "" ==> other[0] != '#') && StrippedTo(other, IsSpace, h);
      assert line[m..] == other;
      StripsTo(line, IsHash, m);
      StrippedOnce(other, IsSpace, h);
    }
  }

  /** There is one way to strip a text down to something that is left. */
  lemma StrippedOnce(s: string, drop: char -> bool, r: string)
    requires StrippedTo(s, drop, r) && r != ""
    ensures RStrip(LStrip(s, drop), drop) == r
  {
    var i, j :| 0 <= i <= j <= |s| && r == s[i..j] && (forall k :: 0 <= k < i ==> drop(s[k])) && (forall k :: j <= k < |s| ==> drop(s[k]));
    assert r[0] == s[i] && r[|r| - 1] == s[j - 1];
    StripsTo(s, drop, i);
    FrontOfTail(s, drop, i, j);
  }

  lemma FrontOfTail(s: string, drop: char -> bool, i: nat, j: nat)
    requires i < j <= |s| && !drop(s[j - 1]) && forall k :: j <= k < |s| ==> drop(s[k])
    ensures RStrip(s[i..], drop) == s[i..j]
  {
    var t := s[i..];
    assert forall k :: 0 <= k < |t| ==> t[k] == s[i + k];
    StripsToFront(t, drop, j - i);
    assert t[..j - i] == s[i..j];
  }

  predicate Replaces(raw: string, prefix: string) {
    prefix != "" && !(prefix <= raw) && RepeatsHeading(raw, prefix)
  }

  /** `apply_section_heading`: the snippet, and how far everything after the first line moved. */
  function WithHeading(raw: string, prefix: string): (string, int) {
    if prefix == "" || prefix <= raw then (raw, 0)
    else if RepeatsHeading(raw, prefix) then
      (HeadingText(prefix) + raw[FirstLine(raw)..], |HeadingText(prefix)| - FirstLine(raw))
    else (prefix + raw, |prefix|)
  }

  /**
    Every character behind the first line keeps its order and moves by the shift;
    the first line is kept as well unless the heading replaces it.
   */
  lemma HeadingMovesText(raw: string, prefix: string)
    ensures var (snippet, shift) := WithHeading(raw, prefix);
            && |snippet| == |raw| + shift && 0 <= FirstLine(raw) + shift && shift <= |prefix|
            && snippet[FirstLine(raw) + shift..] == raw[FirstLine(raw)..]
            && (!Replaces(raw, prefix) ==> 0 <= shift && snippet[shift..] == raw)
            && (Replaces(raw, prefix) ==> |HeadingText(prefix)| == FirstLine(raw) + shift)
            && (NoFormFeed(raw) && NoFormFeed(prefix) ==> NoFormFeed(snippet))
  {
    var fl := FirstLine(raw);
    if Replaces(raw, prefix) {
      var h := HeadingText(prefix);
      assert (h + raw[fl..])[|h|..] == raw[fl..];
      assert h <= prefix;
    } else if prefix != "" && !(prefix <= raw) {
      assert (prefix + raw)[|prefix|..] == raw;
      assert (prefix + raw)[|prefix| + fl..] == raw[fl..];
    } else {
      assert raw[0..] == raw;
    }
  }

  /** An end `adjust_chunk_end` prefers: the line after a page, or the line of a section. */
  ghost predicate IsBoundary(text: string, sections: seq<Section>, pages: seq<Page>, b: int) {
    || (exists p :: p in pages && PageBoundary(text, p, b))
    || (exists s :: s in sections && SectionBoundary(text, s, b))
  }

  ghost predicate PageBoundary(text: string, p: Page, b: int) {
    p.lineEnd.Some? && b == OffsetOfLine(text, p.lineEnd.value + 1)
  }

  ghost predicate SectionBoundary(text: string, s: Section, b: int) {
    s.lineStart.Some? && s.lineStart.value > 1 && b == OffsetOfLine(text, s.lineStart.value)
  }

  function MaxOf(xs: seq<int>): (m: int)
    requires xs != []
    ensures m in xs && forall x :: x in xs ==> x <= m
  {
    assert forall x :: x in xs ==> x == xs[0] || x in xs[1..];
    if |xs| == 1 then xs[0] else Max(xs[0], MaxOf(xs[1..]))
  }

  /** `adjust_chunk_end`: the last page or section boundary in the part, else the end as it was. */
  method AdjustChunkEnd(text: string, start: nat, end: nat, sections: seq<Section>, pages: seq<Page>) returns (r: nat)
    requires start < end
    ensures start < r <= end
    ensures end >= |text| ==> r == end
    ensures r < end ==> IsBoundary(text, sections, pages, r) && start + 200 < r
    ensures end < |text| ==>
              forall b :: start + 200 < b < end && IsBoundary(text, sections, pages, b) ==> b <= r < end
  {
    if end >= |text| {
      return end;
    }
    var floor := Min(end, start + MIN_CHUNK_CHARS);
    var candidates: seq<int> := [];
    for i := 0 to |pages|
      invariant forall c :: c in candidates ==> floor < c < end && IsBoundary(text, sections, pages, c)
      invariant forall j, b :: 0 <= j < i && floor < b < end && PageBoundary(text, pages[j], b) ==> b in candidates
    {
      if pages[i].lineEnd.Some? {
        var boundary := OffsetForLine(text, pages[i].lineEnd.value + 1);
        assert pages[i] in pages && PageBoundary(text, pages[i], boundary);
        if floor < boundary < end {
          candidates := candidates + [boundary];
        }
      }
    }
    ghost var fromPages := candidates;
    for i := 0 to |sections|
      invariant forall c :: c in candidates ==> floor < c < end && IsBoundary(text, sections, pages, c)
      invariant forall c :: c in fromPages ==> c in candidates
      invariant forall j, b :: 0 <= j < i && floor < b < end && SectionBoundary(text, sections[j], b) ==> b in candidates
    {
      if sections[i].lineStart.Some? && sections[i].lineStart.value > 1 {
        var boundary := OffsetForLine(text, sections[i].lineStart.value);
        assert sections[i] in sections && SectionBoundary(text, sections[i], boundary);
        if floor < boundary < end {
          candidates := candidates + [boundary];
        }
      }
    }
    assert forall b :: floor < b < end && IsBoundary(text, sections, pages, b) ==> b in candidates;
    if candidates == [] {
      return end;
    }
    return MaxOf(candidates);
  }
}

/**
  Lines of a text, as `page_markers.line_start_offsets` and the helpers of
  `section_pages` see them: line 1 starts at offset 0, every further line starts
  after a newline.
 */
module Lines {
  import opened Prelude

  /** `str.find(c, from)`: the first position of `c` at or after `from`. */
  function Find(text: string, c: char, from: nat): (r: Option<nat>)
    requires from <= |text|
    ensures r.Some? ==> from <= r.value < |text| && text[r.value] == c
    ensures forall i :: from <= i < (if r.Some? then r.value else |text|) ==> text[i] != c
    decreases |text| - from
  {
    if from == |text| then None
    else if text[from] == c then Some(from)
    else Find(text, c, from + 1)
  }

  /** The offset of the first character of every line, in order. */
  function LineStarts(text: string): seq<nat> {
    if text == "" then [0]
    else
      var init := text[..|text| - 1];
      LineStarts(init) + (if text[|text| - 1] == '\n' then [|text|] else [])
  }

  /** `text.count("\n", 0, offset)` */
  function Newlines(text: string, offset: nat): nat
    requires offset <= |text|
  {
    if offset == 0 then 0
    else Newlines(text, offset - 1) + (if text[offset - 1] == '\n' then 1 else 0)
  }

  predicate IsLineStart(text: string, o: int) {
    o == 0 || (0 < o <= |text| && text[o - 1] == '\n')
  }

  /** The line starts are exactly the line starts, each once, ascending. */
  lemma {:induction false} LineStartsExact(text: string)
    ensures |LineStarts(text)| >= 1 && LineStarts(text)[0] == 0
    ensures forall i, j :: 0 <= i < j < |LineStarts(text)| ==> LineStarts(text)[i] < LineStarts(text)[j]
    ensures forall i :: 0 <= i < |LineStarts(text)| ==> LineStarts(text)[i] <= |text|
    ensures forall o: nat :: o in LineStarts(text) <==> IsLineStart(text, o)
  {
    if text != "" {
      var init := text[..|text| - 1];
      LineStartsExact(init);
      assert forall o: nat :: o < |text| ==> (IsLineStart(text, o) <==> IsLineStart(init, o));
    }
  }

  /** Extending a text by characters that are no newlines adds no line. */
  lemma {:induction false} NoNewlineNoLine(text: string, a: nat, b: nat)
    requires a <= b <= |text|
    requires forall i :: a <= i < b ==> text[i] != '\n'
    ensures LineStarts(text[..b]) == LineStarts(text[..a])
    decreases b - a
  {
    if a < b {
      assert text[..b][..b - 1] == text[..b - 1];
      NoNewlineNoLine(text, a, b - 1);
    }
  }

  lemma LineAfterNewline(text: string, nl: nat)
    requires nl < |text| && text[nl] == '\n'
    ensures LineStarts(text[..nl + 1]) == LineStarts(text[..nl]) + [nl + 1]
  {
    assert text[..nl + 1][..nl] == text[..nl];
  }

  /** `line_start_offsets`: the scan from newline to newline finds every line. */
  method LineStartOffsets(text: string) returns (offsets: seq<nat>)
    ensures offsets == LineStarts(text)
  {
    offsets := [0];
    var from := 0;
    var pos := Find(text, '\n', 0);
    while pos.Some?
      invariant from <= |text|
      invariant pos == Find(text, '\n', from)
      invariant offsets == LineStarts(text[..from])
      decreases |text| - from
    {
      NoNewlineNoLine(text, from, pos.value);
      LineAfterNewline(text, pos.value);
      offsets := offsets + [pos.value + 1];
      from := pos.value + 1;
      pos := Find(text, '\n', from);
    }
    NoNewlineNoLine(text, from, |text|);
    assert text[..|text|] == text;
  }

  /** A prefix of a text has a prefix of its lines. */
  lemma {:induction false} LineStartsOfPrefix(text: string, n: nat)
    requires n <= |text|
    ensures LineStarts(text[..n]) <= LineStarts(text)
    decreases |text|
  {
    if n == |text| {
      assert text[..n] == text;
    } else {
      var init := text[..|text| - 1];
      assert init[..n] == text[..n];
      LineStartsOfPrefix(init, n);
    }
  }

  /** Where a 1-based line starts; past the last line, the end of the text. */
  function OffsetOfLine(text: string, line: int): int {
    if line <= 1 then 0
    else if line <= |LineStarts(text)| then LineStarts(text)[line - 1]
    else |text|
  }

  /** `offset_for_line`: one newline at a time, against the list of all line starts. */
  method OffsetForLine(text: string, line1: int) returns (offset: nat)
    ensures offset == OffsetOfLine(text, line1)
    ensures offset <= |text|
  {
    LineStartsExact(text);
    if line1 <= 1 {
      return 0;
    }
    var pos, line := 0, 1;
    assert text[..0] == "";
    while pos < |text| && line < line1
      invariant 1 <= line <= line1
      invariant pos <= |text|
      invariant |LineStarts(text[..pos])| == line && LineStarts(text[..pos])[line - 1] == pos
    {
      var nl := Find(text, '\n', pos);
      if nl.None? {
        NoNewlineNoLine(text, pos, |text|);
        assert text[..|text|] == text;
        return |text|;
      }
      NoNewlineNoLine(text, pos, nl.value);
      LineAfterNewline(text, nl.value);
      pos, line := nl.value + 1, line + 1;
    }
    LineStartsOfPrefix(text, pos);
    if pos == |text| {
      assert text[..pos] == text;
    }
    return pos;
  }

  /** `line_number_at_offset` */
  function LineNumberAt(text: string, offset: int): nat {
    if offset <= 0 then 1 else Newlines(text, Min(offset, |text|)) + 1
  }

  lemma {:induction false} NewlinesCountLines(text: string, n: nat)
    requires n <= |text|
    ensures Newlines(text, n) + 1 == |LineStarts(text[..n])|
    decreases n
  {
    if n > 0 {
      NewlinesCountLines(text, n - 1);
      assert text[..n][..n - 1] == text[..n - 1];
    }
  }

  /** The line of an offset is the last one that starts at or before it. */
  lemma LineNumberExactly(text: string, offset: nat)
    requires offset <= |text|
    ensures var n, starts := LineNumberAt(text, offset), LineStarts(text);
            1 <= n <= |starts| && starts[n - 1] <= offset && (n < |starts| ==> offset < starts[n])
  {
    NewlinesCountLines(text, offset);
    LineStartsOfPrefix(text, offset);
    LineStartsExact(text[..offset]);
    LineStartsExact(text);
    var n, starts := LineNumberAt(text, offset), LineStarts(text);
    var first := LineStarts(text[..offset]);
    assert |first| == n && first == starts[..n];
    if n < |starts| {
      assert starts[n] in starts && starts[n] !in first;
      assert IsLineStart(text, starts[n]) && !IsLineStart(text[..offset], starts[n]);
    }
  }
}

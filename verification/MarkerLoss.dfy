/** When form feeds are lost (`page_markers.apply_page_markers`): markers that share a position. */
module MarkerLoss {
  import opened Prelude
  import opened PageMarkers

  ghost predicate StrictlyRising(markers: seq<PageStart>) {
    forall i, j :: 0 <= i < j < |markers| ==> markers[i].offset < markers[j].offset
  }

  /** Every form feed is written exactly when no two markers share a position and none stands at the cursor. */
  lemma {:induction false} MarkersWrittenExactly(snippet: string, markers: seq<PageStart>, shift: int, cursor: nat)
    requires cursor <= |snippet| && Ascending(markers) && AllPositive(markers)
    requires forall i :: 0 <= i < |markers| ==> cursor <= markers[i].offset + shift <= |snippet|
    ensures |Marked(snippet, markers, shift, cursor)| == |snippet| - cursor + SumCounts(markers)
       <==> (markers == [] || markers[0].offset + shift > cursor) && StrictlyRising(markers)
    decreases |markers|
  {
    if markers != [] {
      var pos, rest := markers[0].offset + shift, markers[1..];
      if pos == cursor {
        MarkedLength(snippet, rest, shift, cursor);
      } else {
        MarkersWrittenExactly(snippet, rest, shift, pos);
        RisingFromHead(markers);
      }
    }
  }

  lemma RisingFromHead(markers: seq<PageStart>)
    requires markers != [] && Ascending(markers)
    ensures StrictlyRising(markers)
       <==> (markers[1..] == [] || markers[1..][0].offset > markers[0].offset) && StrictlyRising(markers[1..])
  {
    var rest := markers[1..];
    assert forall i :: 0 <= i < |rest| ==> rest[i] == markers[i + 1];
    if StrictlyRising(rest) && rest != [] && rest[0].offset > markers[0].offset {
      forall i, j | 0 <= i < j < |markers| ensures markers[i].offset < markers[j].offset {
        assert markers[j] == rest[j - 1];
        assert i > 0 ==> markers[i] == rest[i - 1];
        assert j > 1 ==> rest[0].offset < rest[j - 1].offset;
      }
    }
  }
}

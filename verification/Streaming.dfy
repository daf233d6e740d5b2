/**
  Cutting plain text (`chunking.chunk_text`) and cutting it while it is read
  from a file (`chunking.iter_file_text_chunks`) give the same chunks.
 */
module Streaming {
  import opened Prelude

  /** The chunks of a text: full ones, then the rest; one empty chunk for no text. */
  function Chunks(text: string, n: nat): (chunks: seq<string>)
    requires n >= 1
    ensures chunks != []
    decreases |text|
  {
    if |text| <= n then [text] else [text[..n]] + Chunks(text[n..], n)
  }

  /** The chunks are the text, and every chunk but the last is full. */
  lemma {:induction false} ChunksExact(text: string, n: nat)
    requires n >= 1
    ensures Flatten(Chunks(text, n)) == text
    ensures forall i :: 0 <= i < |Chunks(text, n)| - 1 ==> |Chunks(text, n)[i]| == n
    ensures |Chunks(text, n)[|Chunks(text, n)| - 1]| <= n
    ensures text != "" ==> forall i :: 0 <= i < |Chunks(text, n)| ==> Chunks(text, n)[i] != ""
    decreases |text|
  {
    if |text| <= n {
      assert [text][1..] == [];
    } else {
      var rest := Chunks(text[n..], n);
      ChunksExact(text[n..], n);
      assert Chunks(text, n) == [text[..n]] + rest;
      assert Chunks(text, n)[1..] == rest;
      assert text == text[..n] + text[n..];
    }
  }

  /** `chunk_text`; None where it raises for a part size below 1. */
  method ChunkText(text: string, partMax: int) returns (r: Option<seq<string>>)
    ensures r == if partMax < 1 then None else Some(Chunks(text, partMax))
  {
    if partMax < 1 {
      return None;
    }
    if text == "" {
      return Some([""]);
    }
    var chunks: seq<string> := [];
    var start := 0;
    while start < |text|
      invariant start <= |text|
      invariant start < |text| ==> chunks + Chunks(text[start..], partMax) == Chunks(text, partMax)
      invariant start == |text| ==> chunks == Chunks(text, partMax)
    {
      var end := Min(start + partMax, |text|);
      if end < |text| {
        assert text[start..][..partMax] == text[start..end];
        assert text[start..][partMax..] == text[end..];
      } else {
        assert text[start..end] == text[start..];
      }
      chunks := chunks + [text[start..end]];
      start := end;
    }
    return Some(chunks);
  }

  /** A buffer longer than a part gives up its first chunk, whatever follows it. */
  lemma TakeFirst(buf: string, rest: string, n: nat)
    requires n >= 1 && |buf| > n
    ensures Chunks(buf + rest, n) == [buf[..n]] + Chunks(buf[n..] + rest, n)
  {
    assert (buf + rest)[..n] == buf[..n];
    assert (buf + rest)[n..] == buf[n..] + rest;
  }

  /** `_take_first_chunk` */
  function TakeFirstChunk(text: string, n: nat): (string, string) {
    if |text| <= n then (text, "") else (text[..n], text[n..])
  }

  /**
    `iter_file_text_chunks`: at most one part is buffered beside the block just
    read, and the chunks are those of the whole text -- for any blocks the reads
    return, as long as none before the end of the file is empty.
   */
  method FileTextChunks(blocks: seq<string>, partMax: int) returns (r: Option<seq<string>>)
    requires forall i :: 0 <= i < |blocks| ==> blocks[i] != ""
    ensures r == if partMax < 1 then None else Some(Chunks(Flatten(blocks), partMax))
  {
    if partMax < 1 {
      return None;
    }
    var chunks: seq<string> := [];
    var buf := "";
    assert blocks[0..] == blocks && "" + Flatten(blocks) == Flatten(blocks);
    for i := 0 to |blocks|
      invariant |buf| <= partMax && (i > 0 ==> buf != "") && (i == 0 ==> buf == "" && chunks == [])
      invariant chunks + Chunks(buf + Flatten(blocks[i..]), partMax) == Chunks(Flatten(blocks), partMax)
    {
      ghost var rest := Flatten(blocks[i + 1..]);
      assert blocks[i..] == [blocks[i]] + blocks[i + 1..];
      assert buf + Flatten(blocks[i..]) == (buf + blocks[i]) + rest;
      buf := buf + blocks[i];
      while |buf| > partMax
        invariant buf != ""
        invariant chunks + Chunks(buf + rest, partMax) == Chunks(Flatten(blocks), partMax)
      {
        TakeFirst(buf, rest, partMax);
        var (chunk, left) := TakeFirstChunk(buf, partMax);
        chunks, buf := chunks + [chunk], left;
      }
    }
    assert blocks[|blocks|..] == [] && buf + "" == buf;
    if blocks == [] {
      return Some([""]);
    }
    while buf != ""
      invariant |buf| <= partMax
      invariant buf != "" ==> chunks + Chunks(buf, partMax) == Chunks(Flatten(blocks), partMax)
      invariant buf == "" ==> chunks == Chunks(Flatten(blocks), partMax)
      decreases |buf|
    {
      var (chunk, left) := TakeFirstChunk(buf, partMax);
      chunks, buf := chunks + [chunk], left;
    }
    return Some(chunks);
  }
}

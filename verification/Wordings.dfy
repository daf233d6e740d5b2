/**
  How a failure's text is judged, by its wording: in any letter case, and without the
  lower-cased copy and the searches of the code (`document_text.is_unconvertible_error`,
  `sync_executor._is_server_side_error`, `_is_configuration_error`).
 */
module Wordings {
  import opened Prelude
  import opened Strings
  import opened Recording

  /** The letter `c` in either case; `l` is in lower case. */
  predicate SameLetter(c: char, l: char) {
    c == l || ('a' <= l <= 'z' && c as int == l as int - 32)
  }

  /** The text begins with these words, in any letter case. */
  predicate Begins(text: string, words: string) {
    |words| <= |text| && forall i :: 0 <= i < |words| ==> SameLetter(text[i], words[i])
  }

  /** These words stand somewhere in the text. */
  predicate Mentions(text: string, words: string) {
    exists k :: 0 <= k <= |text| && Begins(text[k..], words)
  }

  predicate LowerWords(words: string) { forall i :: 0 <= i < |words| ==> !('A' <= words[i] <= 'Z') }

  lemma LetterLowered(c: char, l: char)
    requires !('A' <= l <= 'Z')
    ensures LowerChar(c) == l <==> SameLetter(c, l)
  {
  }

  lemma BeginsExact(text: string, words: string)
    requires LowerWords(words)
    ensures StartsWith(Lower(text), words) <==> Begins(text, words)
  {
    var low := Lower(text);
    forall i | 0 <= i < |words| && i < |text| ensures low[i] == words[i] <==> SameLetter(text[i], words[i]) {
      LetterLowered(text[i], words[i]);
    }
    if Begins(text, words) {
      assert low[..|words|] == words;
    }
    if StartsWith(low, words) {
      assert forall i :: 0 <= i < |words| ==> low[i] == words[i];
    }
  }

  lemma {:induction false} MentionsExact(text: string, words: string)
    requires LowerWords(words)
    ensures Contains(Lower(text), words) <==> Mentions(text, words)
    decreases |text|
  {
    BeginsExact(text, words);
    assert text[0..] == text;
    if text != "" {
      var rest := text[1..];
      MentionsExact(rest, words);
      assert Lower(text)[1..] == Lower(rest);
      assert forall k :: 0 <= k <= |rest| ==> rest[k..] == text[k + 1..];
      if Mentions(text, words) && !Begins(text, words) {
        var k :| 0 <= k <= |text| && Begins(text[k..], words);
        assert rest[k - 1..] == text[k..];
      }
      if Mentions(rest, words) {
        var k :| 0 <= k <= |rest| && Begins(rest[k..], words);
        assert Begins(text[k + 1..], words);
      }
    }
  }

  // ----- the wordings ------------------------------------------------------------------

  /** The Secure API failed. */
  predicate FromTheServer(error: string) {
    Begins(error, "init failed:") || (Begins(error, "part ") && Mentions(error, " failed:"))
  }

  /** The connector or its settings failed, not the file. */
  predicate NeverAVerdict(error: string) {
    || Begins(error, "extraction timeout") || Begins(error, "extraction configuration invalid")
    || Begins(error, "extractor died") || Begins(error, "ocr budget exceeded")
    || Begins(error, "resource limit exceeded: ocr")
  }

  /** Words of the library about a file it cannot convert, at the beginning or anywhere. */
  const VERDICT_BEGINNINGS: seq<string> :=
    ["unsupported extension", "corrupt ", "encrypted ", "resource limit exceeded", "valueerror:"]

  const VERDICT_WORDS: seq<string> :=
    ["no extractable text", "not valid utf-8", "invalid literal for int", "not a zip file",
     "not a valid zip container", "bad zipfile", "bad magic number"]

  predicate IsVerdict(error: string) {
    || (exists i :: 0 <= i < |VERDICT_BEGINNINGS| && Begins(error, VERDICT_BEGINNINGS[i]))
    || (exists i :: 0 <= i < |VERDICT_WORDS| && Mentions(error, VERDICT_WORDS[i]))
  }

  lemma VerdictBeginnings(error: string)
    ensures (exists i :: 0 <= i < |VERDICT_BEGINNINGS| && Begins(error, VERDICT_BEGINNINGS[i]))
       <==> (var e := Lower(error);
             || StartsWith(e, "unsupported extension") || StartsWith(e, "corrupt ") || StartsWith(e, "encrypted ")
             || StartsWith(e, "resource limit exceeded") || StartsWith(e, "valueerror:"))
  {
    var w := VERDICT_BEGINNINGS;
    assert w[0] == "unsupported extension" && w[1] == "corrupt " && w[2] == "encrypted ";
    assert w[3] == "resource limit exceeded" && w[4] == "valueerror:" && |w| == 5;
    forall i | 0 <= i < |w| ensures StartsWith(Lower(error), w[i]) <==> Begins(error, w[i]) {
      BeginsExact(error, w[i]);
    }
  }

  lemma VerdictWords(error: string)
    ensures (exists i :: 0 <= i < |VERDICT_WORDS| && Mentions(error, VERDICT_WORDS[i]))
       <==> (var e := Lower(error);
             || Contains(e, "no extractable text") || Contains(e, "not valid utf-8") || Contains(e, "invalid literal for int")
             || Contains(e, "not a zip file") || Contains(e, "not a valid zip container") || Contains(e, "bad zipfile")
             || Contains(e, "bad magic number"))
  {
    var w := VERDICT_WORDS;
    assert w[0] == "no extractable text" && w[1] == "not valid utf-8" && w[2] == "invalid literal for int" && w[3] == "not a zip file";
    assert w[4] == "not a valid zip container" && w[5] == "bad zipfile" && w[6] == "bad magic number" && |w| == 7;
    forall i | 0 <= i < |w| ensures Contains(Lower(error), w[i]) <==> Mentions(error, w[i]) {
      MentionsExact(error, w[i]);
    }
  }

  lemma ServerWords(error: string)
    ensures StartsWith(Lower(error), "init failed:") <==> Begins(error, "init failed:")
    ensures StartsWith(Lower(error), "part ") <==> Begins(error, "part ")
    ensures Contains(Lower(error), " failed:") <==> Mentions(error, " failed:")
    ensures Contains(Lower(error), "rate limit") <==> Mentions(error, "rate limit")
  {
    BeginsExact(error, "init failed:");
    BeginsExact(error, "part ");
    MentionsExact(error, " failed:");
    MentionsExact(error, "rate limit");
  }

  lemma ConnectorWords(error: string)
    ensures StartsWith(Lower(error), "extraction timeout") <==> Begins(error, "extraction timeout")
    ensures StartsWith(Lower(error), "extraction configuration invalid") <==> Begins(error, "extraction configuration invalid")
    ensures StartsWith(Lower(error), "extractor died") <==> Begins(error, "extractor died")
    ensures StartsWith(Lower(error), "ocr budget exceeded") <==> Begins(error, "ocr budget exceeded")
    ensures StartsWith(Lower(error), "resource limit exceeded: ocr") <==> Begins(error, "resource limit exceeded: ocr")
  {
    BeginsExact(error, "extraction timeout");
    BeginsExact(error, "extraction configuration invalid");
    BeginsExact(error, "extractor died");
    BeginsExact(error, "ocr budget exceeded");
    BeginsExact(error, "resource limit exceeded: ocr");
  }

  /** The library's verdict on the file. */
  predicate Judged(error: string) { IsVerdict(error) && !FromTheServer(error) && !NeverAVerdict(error) }

  /** The server, a rate limit or the configuration. */
  predicate NobodysFault(error: string) {
    FromTheServer(error) || Mentions(error, "rate limit") || Begins(error, "extraction configuration invalid")
  }

  /**
    Every text is judged by its wording: a verdict on the file, unless the server or the connector speaks; else not
    the file's fault if the server, a rate limit or the configuration failed; else an extraction to be tried again.
   */
  lemma KindExactly(error: string)
    ensures KindOf(error) == if Judged(error) then Unconvertible else if NobodysFault(error) then NotTheFile else ExtractionSide
  {
    VerdictBeginnings(error);
    VerdictWords(error);
    ServerWords(error);
    ConnectorWords(error);
    if error == "" {
      assert !IsVerdict(error);
    }
  }

  // ----- some of them, with any continuation ---------------------------------------------

  /** Two beginnings that differ somewhere exclude one another. */
  lemma BeginsDiffer(error: string, a: string, b: string, i: nat)
    requires LowerWords(a) && LowerWords(b) && i < |a| && i < |b| && a[i] != b[i]
    requires Begins(error, a)
    ensures !Begins(error, b)
  {
    LetterLowered(error[i], a[i]);
    LetterLowered(error[i], b[i]);
  }

  lemma BeginsOn(head: string, rest: string, words: string)
    requires Begins(head, words)
    ensures Begins(head + rest, words)
  {
    assert forall i :: 0 <= i < |words| ==> (head + rest)[i] == head[i];
  }

  /** The connector's own settings refused: never the file's fault, whatever else the text says. */
  lemma ConfigurationIsNotTheFile(head: string, rest: string)
    requires Begins(head, "extraction configuration invalid")
    ensures KindOf(head + rest) == NotTheFile
  {
    BeginsOn(head, rest, "extraction configuration invalid");
    KindExactly(head + rest);
  }

  lemma NotTheServer(error: string, w: string)
    requires LowerWords(w) && w != "" && Begins(error, w) && w[0] != 'i' && w[0] != 'p'
    ensures !FromTheServer(error)
  {
    BeginsDiffer(error, w, "init failed:", 0);
    BeginsDiffer(error, w, "part ", 0);
  }

  lemma NotTheConnector(error: string, w: string)
    requires LowerWords(w) && |w| >= 2 && Begins(error, w) && w[1] != 'x' && w[0] != 'o' && w[0] != 'r'
    ensures !NeverAVerdict(error)
  {
    BeginsDiffer(error, w, "extraction timeout", 1);
    BeginsDiffer(error, w, "extraction configuration invalid", 1);
    BeginsDiffer(error, w, "extractor died", 1);
    BeginsDiffer(error, w, "ocr budget exceeded", 0);
    BeginsDiffer(error, w, "resource limit exceeded: ocr", 0);
  }

  lemma BeginningIsJudged(error: string, i: nat)
    requires i < |VERDICT_BEGINNINGS| && i != 3 && Begins(error, VERDICT_BEGINNINGS[i])
    ensures KindOf(error) == Unconvertible
  {
    var w := VERDICT_BEGINNINGS[i];
    NotTheServer(error, w);
    NotTheConnector(error, w);
    KindExactly(error);
  }

  /** An encrypted file is judged, whatever else the text says. */
  lemma EncryptedIsJudged(head: string, rest: string)
    requires Begins(head, "encrypted ")
    ensures KindOf(head + rest) == Unconvertible
  {
    BeginsOn(head, rest, "encrypted ");
    assert VERDICT_BEGINNINGS[2] == "encrypted ";
    BeginningIsJudged(head + rest, 2);
  }

  /** A timeout counts against the file, unless it speaks of a rate limit. */
  lemma TimeoutCounts(head: string, rest: string)
    requires Begins(head, "extraction timeout") && !Mentions(head + rest, "rate limit")
    ensures KindOf(head + rest) == ExtractionSide
  {
    var error, w := head + rest, "extraction timeout";
    BeginsOn(head, rest, w);
    TimeoutIsNoConfiguration(error);
    NotTheServer(error, w);
    KindExactly(error);
  }

  lemma TimeoutIsNoConfiguration(error: string)
    requires Begins(error, "extraction timeout")
    ensures !Begins(error, "extraction configuration invalid") && NeverAVerdict(error)
  {
    BeginsDiffer(error, "extraction timeout", "extraction configuration invalid", 11);
  }
}

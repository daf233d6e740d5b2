/**
  Which keys a payload may use (`sync/doc_fields_payload.py`, `_key_reason`), stated without
  the pattern and the substitution the code uses.
 */
module FieldKeys {
  import opened Prelude
  import opened Strings
  import opened Payload

  const LETTERS: string := "abcdefghijklmnopqrstuvwxyz"
  const DIGITS: string := "0123456789"

  lemma LetterExactly(c: char)
    ensures 'a' <= c <= 'z' <==> c in LETTERS
  {
    assert forall i :: 0 <= i < 26 ==> LETTERS[i] as int == 97 + i;
    if 'a' <= c <= 'z' {
      assert LETTERS[c as int - 97] == c;
    }
  }

  lemma DigitExactly(c: char)
    ensures IsDigit(c) <==> c in DIGITS
  {
    assert forall i :: 0 <= i < 10 ==> DIGITS[i] as int == 48 + i;
    if IsDigit(c) {
      assert DIGITS[c as int - 48] == c;
    }
  }

  /** One to 64 lower-case letters, digits and underscores, the first a letter. */
  predicate Word(body: string) {
    && 1 <= |body| <= 64 && body[0] in LETTERS
    && forall i :: 0 <= i < |body| ==> body[i] in LETTERS || body[i] in DIGITS || body[i] == '_'
  }

  lemma WordExactly(body: string)
    ensures Word(body) <==> MatchesBody(body)
  {
    if body != "" {
      LetterExactly(body[0]);
    }
    forall i | 0 <= i < |body| ensures IsKeyChar(body[i]) <==> body[i] in LETTERS || body[i] in DIGITS || body[i] == '_' {
      LetterExactly(body[i]);
      DigitExactly(body[i]);
    }
  }

  /** A key matches when it is such a word; the pattern also lets one line break follow. */
  lemma MatchesExactly(key: string)
    ensures MatchesKey(key) <==> if key != "" && key[|key| - 1] == '\n' then Word(key[..|key| - 1]) else Word(key)
  {
    WordExactly(if key != "" && key[|key| - 1] == '\n' then key[..|key| - 1] else key);
  }

  // ----- system keys -------------------------------------------------------------------------

  predicate InWord(c: char) { 'a' <= LowerChar(c) <= 'z' || IsDigit(LowerChar(c)) }

  /** The runs of letters and digits of a key, in lower case. */
  function Words(key: string): seq<string> {
    if key == "" then []
    else if !InWord(key[0]) then Words(key[1..])
    else
      var c, rest := LowerChar(key[0]), Words(key[1..]);
      if |key| > 1 && InWord(key[1]) && rest != [] then [[c] + rest[0]] + rest[1..] else [[c]] + rest
  }

  function Joined(words: seq<string>): string {
    if words == [] then "" else if |words| == 1 then words[0] else words[0] + "_" + Joined(words[1..])
  }

  /** The words of a key, with an underscore at either end where something else stood there. */
  function Framed(key: string): string {
    if key == "" then ""
    else if Words(key) == [] then "_"
    else Lead(key) + (Joined(Words(key)) + Tail(key))
  }

  function Lead(key: string): string { if key == "" || InWord(key[0]) then "" else "_" }

  function Tail(key: string): string { if key == "" || InWord(key[|key| - 1]) then "" else "_" }

  lemma {:induction false} WordsAre(key: string)
    ensures forall i :: 0 <= i < |Words(key)| ==> Words(key)[i] != "" && forall k :: 0 <= k < |Words(key)[i]| ==> Words(key)[i][k] != '_'
    ensures Words(key) == [] <==> forall k :: 0 <= k < |key| ==> !InWord(key[k])
    ensures key != "" && InWord(key[0]) ==> Words(key) != []
  {
    if key != "" {
      WordsAre(key[1..]);
      assert forall k :: 0 < k < |key| ==> key[k] == key[1..][k - 1];
    }
  }

  lemma JoinedCons(first: string, rest: seq<string>)
    ensures Joined([first] + rest) == if rest == [] then first else first + ("_" + Joined(rest))
  {
    var words := [first] + rest;
    assert words[0] == first && words[1..] == rest;
    if rest != [] {
      assert first + "_" + Joined(rest) == first + ("_" + Joined(rest));
    }
  }

  lemma JoinedHead(c: char, words: seq<string>)
    requires words != []
    ensures Joined([[c] + words[0]] + words[1..]) == [c] + Joined(words)
    ensures Joined([[c]] + words) == [c] + ("_" + Joined(words))
  {
    var first, rest := words[0], words[1..];
    assert words == [first] + rest;
    JoinedCons([c] + first, rest);
    JoinedCons(first, rest);
    JoinedCons([c], words);
    assert ([c] + first) + ("_" + Joined(rest)) == [c] + (first + ("_" + Joined(rest)));
  }

  lemma OtherFirst(key: string)
    requires key != "" && !InWord(key[0])
    ensures Framed(key) == if key[1..] != "" && !InWord(key[1]) then Framed(key[1..]) else "_" + Framed(key[1..])
  {
    var rest := key[1..];
    WordsAre(key);
    WordsAre(rest);
    if rest != "" {
      assert Tail(rest) == Tail(key) && rest[0] == key[1] && Words(key) == Words(rest);
      var middle := Joined(Words(rest)) + Tail(rest);
      assert "" + middle == middle;
    }
  }

  lemma Regrouped(c: string, gap: string, j: string, t: string)
    ensures (c + gap + j) + t == c + (gap + (j + t))
  {
  }

  lemma JoinedFirst(key: string)
    requires |key| > 1 && InWord(key[0]) && Words(key[1..]) != []
    ensures Joined(Words(key)) == [LowerChar(key[0])] + Lead(key[1..]) + Joined(Words(key[1..]))
  {
    var c, w := LowerChar(key[0]), Words(key[1..]);
    assert key[1..][0] == key[1];
    JoinedHead(c, w);
    assert [c] + "" + Joined(w) == [c] + Joined(w);
    assert [c] + "_" + Joined(w) == [c] + ("_" + Joined(w));
  }

  lemma WordFirst(key: string)
    requires key != "" && InWord(key[0])
    ensures Framed(key) == [LowerChar(key[0])] + Framed(key[1..])
  {
    var c, rest := [LowerChar(key[0])], key[1..];
    var w := Words(rest);
    WordsAre(key);
    WordsAre(rest);
    if rest != "" {
      assert Tail(rest) == Tail(key) && rest[0] == key[1];
      if w != [] {
        var gap := Lead(rest);
        JoinedFirst(key);
        Regrouped(c, gap, Joined(w), Tail(key));
      } else {
        assert Words(key) == [c];
      }
    }
  }

  lemma {:induction false} CollapsedIsFramed(key: string)
    ensures Collapsed(key) == Framed(key)
    ensures Collapsed(key) != "" && Collapsed(key)[0] == '_' <==> key != "" && !InWord(key[0])
  {
    if key != "" {
      CollapsedIsFramed(key[1..]);
      if InWord(key[0]) {
        WordFirst(key);
      } else {
        OtherFirst(key);
      }
    }
  }

  /** What strips off at the ends: underscores, and nothing of words without them. */
  lemma {:induction false} StrippedWords(a: string, s: string, b: string)
    requires s != "" && s[0] != '_' && s[|s| - 1] != '_'
    requires (forall k :: 0 <= k < |a| ==> a[k] == '_') && forall k :: 0 <= k < |b| ==> b[k] == '_'
    ensures Stripped(a + s + b) == s
    decreases |a| + |b|
  {
    var t := a + s + b;
    if a != "" {
      assert t[0] == '_' && t[1..] == a[1..] + s + b;
      StrippedWords(a[1..], s, b);
    } else if b != "" {
      assert t[0] == s[0] && t[|t| - 1] == b[|b| - 1] && t[..|t| - 1] == a + s + b[..|b| - 1];
      StrippedWords(a, s, b[..|b| - 1]);
    } else {
      assert t == s;
    }
  }

  lemma {:induction false} JoinedEnds(words: seq<string>)
    requires words != [] && forall i :: 0 <= i < |words| ==> words[i] != "" && forall k :: 0 <= k < |words[i]| ==> words[i][k] != '_'
    ensures var s := Joined(words); s != "" && s[0] != '_' && s[|s| - 1] != '_'
  {
    if |words| > 1 {
      JoinedEnds(words[1..]);
    }
  }

  /** A key is normalised to its words. */
  lemma NormalisedExactly(key: string)
    ensures Stripped(Collapsed(key)) == Joined(Words(key))
  {
    CollapsedIsFramed(key);
    WordsAre(key);
    if Words(key) != [] {
      JoinedEnds(Words(key));
      StrippedWords(Lead(key), Joined(Words(key)), Tail(key));
      assert Framed(key) == Lead(key) + Joined(Words(key)) + Tail(key);
    } else if key != "" {
      assert "_"[1..] == "";
    }
  }

  ghost predicate PlainWord(w: string) { w != "" && '_' !in w }

  lemma {:induction false} JoinedIsOne(words: seq<string>, w: string)
    requires PlainWord(w) && forall i :: 0 <= i < |words| ==> PlainWord(words[i])
    ensures Joined(words) == w <==> words == [w]
  {
    if |words| > 1 {
      assert Joined(words)[|words[0]|] == '_';
    }
  }

  lemma SplitAtGap(x: string, p: string, y: string, q: string)
    requires '_' !in x && '_' !in y && x + "_" + p == y + "_" + q
    ensures x == y && p == q
  {
    var s, t := x + "_" + p, y + "_" + q;
    assert s[|x|] == '_' && t[|y|] == '_';
    assert forall i :: 0 <= i < |x| ==> s[i] == x[i];
    assert forall i :: 0 <= i < |y| ==> t[i] == y[i];
    assert |x| == |y|;
    assert x == s[..|x|] && y == t[..|y|] && p == s[|x| + 1..] && q == t[|y| + 1..];
  }

  lemma JoinedIsTwo(words: seq<string>, a: string, b: string)
    requires PlainWord(a) && PlainWord(b) && forall i :: 0 <= i < |words| ==> PlainWord(words[i])
    ensures Joined(words) == a + "_" + b <==> words == [a, b]
  {
    if |words| > 1 {
      var rest := words[1..];
      JoinedIsOne(rest, b);
      if Joined(words) == a + "_" + b {
        SplitAtGap(words[0], Joined(rest), a, b);
      }
      assert words == [words[0]] + rest;
    } else {
      assert (a + "_" + b)[|a|] == '_';
    }
  }

  /** The keys of the anchor's own fields, however they are written. */
  lemma SystemExactly(key: string)
    ensures IsSystemKey(key)
       <==> Words(key) == ["title"] || Words(key) == ["description"] || Words(key) == ["path"]
            || Words(key) == ["ingested", "at"] || Words(key) == ["pointer"]
  {
    NormalisedExactly(key);
    WordsAre(key);
    var w := Words(key);
    forall i | 0 <= i < |w| ensures PlainWord(w[i]) {
    }
    JoinedIsOne(w, "title");
    JoinedIsOne(w, "description");
    JoinedIsOne(w, "path");
    JoinedIsOne(w, "pointer");
    assert "ingested" + "_" + "at" == "ingested_at";
    JoinedIsTwo(w, "ingested", "at");
  }

  /** A key may be used exactly when it is a word, or a word and a line break, and no system key. */
  lemma AllowsExactly(key: string)
    ensures AllowsKey(key)
       <==> && (if key != "" && key[|key| - 1] == '\n' then Word(key[..|key| - 1]) else Word(key))
            && Words(key) !in {["title"], ["description"], ["path"], ["ingested", "at"], ["pointer"]}
  {
    MatchesExactly(key);
    SystemExactly(key);
  }
}

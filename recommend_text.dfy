/** Text normalisation for the TF-IDF part of the recommendation engine
    (`tokenizeText` and `normalizeAndStem` in backend/controllers/jobRecommendation.js). */
module RecommendText {
  import opened Text

  /** A character a token may hold: `[a-z0-9]`. */
  predicate IsTokenChar(c: char) {
    IsLowerAscii(c) || IsDigit(c)
  }

  /** Curly quotes become a straight quote. */
  function StraightenQuote(c: char): char {
    if c == '\U{2018}' || c == '\U{2019}' || c == '\U{201C}' || c == '\U{201D}' then '\'' else c
  }

  /** Anything other than `[a-z0-9]` or white space becomes a space. */
  function Blank(c: char): char {
    if IsTokenChar(c) || IsSpace(c) then c else ' '
  }

  /** Lowercase, straighten quotes, blank out punctuation. */
  function Clean(s: string): (r: string)
    ensures |r| == |s|
    ensures forall i :: 0 <= i < |r| ==> IsTokenChar(r[i]) || IsSpace(r[i])
  {
    seq(|s|, i requires 0 <= i < |s| => Blank(StraightenQuote(LowerChar(s[i]))))
  }

  /** The end of the run of non-space characters that starts at `i`. */
  function WordEnd(s: string, i: nat): (e: nat)
    requires i <= |s|
    ensures i <= e <= |s|
    ensures forall k :: i <= k < e ==> !IsSpace(s[k])
    ensures e == |s| || IsSpace(s[e])
    decreases |s| - i
  {
    if i == |s| || IsSpace(s[i]) then i else WordEnd(s, i + 1)
  }

  /** `s.split(/\s+/).filter(Boolean)`. */
  function Words(s: string): seq<string>
    decreases |s|
  {
    if s == [] then []
    else if IsSpace(s[0]) then Words(s[1..])
    else
      var e := WordEnd(s, 0);
      [s[..e]] + Words(s[e..])
  }

  /** `tokenizeText(text)`; an undefined text is passed as "". */
  function Tokenize(text: string): seq<string> {
    Words(Clean(text))
  }

  /** `normalizeAndStem(text)`: every token through the stemmer, joined by single spaces. */
  function NormalizeAndStem(text: string, stem: string -> string): string {
    var tokens := Tokenize(text);
    Join(seq(|tokens|, i requires 0 <= i < |tokens| => stem(tokens[i])), " ")
  }

  /** The characters of `s` other than white space, in order. */
  function NonSpace(s: string): string
    decreases |s|
  {
    if s == [] then [] else (if IsSpace(s[0]) then [] else [s[0]]) + NonSpace(s[1..])
  }

  function Concat(ws: seq<string>): string
    decreases |ws|
  {
    if ws == [] then [] else ws[0] + Concat(ws[1..])
  }

  /** A word: non-empty and free of white space. */
  predicate IsWord(w: string) {
    w != [] && forall c :: c in w ==> !IsSpace(c)
  }

  lemma {:induction false} NonSpaceOfWord(s: string, e: nat)
    requires e <= |s|
    requires forall k :: 0 <= k < e ==> !IsSpace(s[k])
    ensures NonSpace(s) == s[..e] + NonSpace(s[e..])
    decreases e
  {
    if e > 0 {
      NonSpaceOfWord(s[1..], e - 1);
      assert s[1..][..e - 1] == s[1..e];
      assert s[1..][e - 1..] == s[e..];
      assert s[..e] == [s[0]] + s[1..e];
    }
  }

  /** Splitting on white space yields words only, and loses nothing but the white space. */
  lemma {:induction false} WordsSpec(s: string)
    ensures forall w :: w in Words(s) ==> IsWord(w)
    ensures forall w, c :: w in Words(s) && c in w ==> c in s
    ensures Concat(Words(s)) == NonSpace(s)
    decreases |s|
  {
    if s == [] {
    } else if IsSpace(s[0]) {
      WordsSpec(s[1..]);
      assert NonSpace(s) == NonSpace(s[1..]);
      forall w, c | w in Words(s) && c in w ensures c in s {
        assert c in s[1..];
      }
    } else {
      var e := WordEnd(s, 0);
      WordsSpec(s[e..]);
      NonSpaceOfWord(s, e);
      assert Words(s) == [s[..e]] + Words(s[e..]);
      assert Concat(Words(s)) == s[..e] + Concat(Words(s[e..]));
      forall w | w in Words(s) ensures IsWord(w) {
        if w != s[..e] {
          assert w in Words(s[e..]);
        } else {
          assert s[0] in w;
        }
      }
      forall w, c | w in Words(s) && c in w ensures c in s {
        if w == s[..e] {
          assert c in s[..e];
        } else {
          assert w in Words(s[e..]);
          assert c in s[e..];
        }
      }
    }
  }

  /** Every token of `tokenizeText` is non-empty and made of `[a-z0-9]` only, and the
      tokens spell out the cleaned text with its white space removed. */
  lemma TokenizeSpec(text: string)
    ensures forall t :: t in Tokenize(text) ==> t != [] && forall c :: c in t ==> IsTokenChar(c)
    ensures Concat(Tokenize(text)) == NonSpace(Clean(text))
  {
    var s := Clean(text);
    WordsSpec(s);
    forall t, c | t in Tokenize(text) && c in t ensures IsTokenChar(c) {
      assert c in s;
    }
  }

  /** Splitting a space-joined list of words gives the words back. */
  lemma {:induction false} WordsOfJoin(ws: seq<string>)
    requires forall w :: w in ws ==> IsWord(w)
    ensures Words(Join(ws, " ")) == ws
    decreases |ws|
  {
    if ws == [] {
    } else {
      var w := ws[0];
      var s := Join(ws, " ");
      assert IsWord(w);
      if |ws| == 1 {
        assert s == w;
        WordOfWordPrefix(s, w, []);
      } else {
        WordsOfJoin(ws[1..]);
        var rest := " " + Join(ws[1..], " ");
        assert s == w + rest;
        WordOfWordPrefix(s, w, rest);
        assert Words(rest) == Words(Join(ws[1..], " ")) by {
          assert rest[1..] == Join(ws[1..], " ");
        }
      }
    }
  }

  /** A word followed by text that is empty or starts with white space is the first word. */
  lemma WordOfWordPrefix(s: string, w: string, rest: string)
    requires IsWord(w) && s == w + rest
    requires rest == [] || IsSpace(rest[0])
    ensures Words(s) == [w] + Words(rest)
  {
    assert !IsSpace(s[0]) by { assert s[0] == w[0] && w[0] in w; }
    var e := WordEnd(s, 0);
    forall k | 0 <= k < |w| ensures !IsSpace(s[k]) {
      assert s[k] == w[k] && w[k] in w;
    }
    assert |w| == |s| || IsSpace(s[|w|]);
    assert e == |w|;
    assert s[..e] == w && s[e..] == rest;
  }

  /** When the stemmer maps every token to a word, `normalizeAndStem` keeps one stem per
      token: splitting its output again gives exactly the stemmed tokens, in order. */
  lemma NormalizeAndStemWords(text: string, stem: string -> string)
    requires forall t :: IsWord(t) ==> IsWord(stem(t))
    ensures var tokens := Tokenize(text);
      Words(NormalizeAndStem(text, stem)) == seq(|tokens|, i requires 0 <= i < |tokens| => stem(tokens[i]))
  {
    var tokens := Tokenize(text);
    var stems := seq(|tokens|, i requires 0 <= i < |tokens| => stem(tokens[i]));
    TokenizeSpec(text);
    forall w | w in stems ensures IsWord(w) {
      var i :| 0 <= i < |stems| && stems[i] == w;
      assert tokens[i] in tokens;
      assert IsWord(tokens[i]) by {
        assert forall c :: c in tokens[i] ==> IsTokenChar(c);
      }
    }
    WordsOfJoin(stems);
  }
}

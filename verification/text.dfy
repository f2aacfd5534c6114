/**
  `normalise` of `backend/eval/text.py`: white space, as Python's `str.isspace` has it, made single blanks.
 */
module Text {
  import opened Strings

  // ----- White space -----

  function WordLength(s: string): (n: nat)
    ensures n <= |s|
    ensures forall i :: 0 <= i < n ==> !IsSpace(s[i])
    ensures n < |s| ==> IsSpace(s[n])
  {
    if s == [] || IsSpace(s[0]) then 0 else 1 + WordLength(s[1..])
  }

  /** `text.split()`. */
  function Words(s: string): seq<string>
    decreases |s|
  {
    if s == [] then []
    else if IsSpace(s[0]) then Words(s[1..])
    else [s[..WordLength(s)]] + Words(s[WordLength(s)..])
  }

  /** `" ".join(words)`. */
  function Join(words: seq<string>): string {
    if words == [] then [] else if |words| == 1 then words[0] else words[0] + (" " + Join(words[1..]))
  }

  function Normalise(raw: string): string {
    Join(Words(raw))
  }

  /** Single blanks, and only between words. */
  ghost predicate Normal(text: string) {
    && (forall i :: 0 <= i < |text| && IsSpace(text[i]) ==> text[i] == ' ')
    && (text != [] ==> !IsSpace(text[0]) && !IsSpace(text[|text| - 1]))
    && (forall i :: 0 < i < |text| ==> !(IsSpace(text[i - 1]) && IsSpace(text[i])))
  }

  ghost predicate IsWord(w: string) {
    w != [] && forall i :: 0 <= i < |w| ==> !IsSpace(w[i])
  }

  lemma {:induction false} WordsAreWords(s: string)
    ensures forall i :: 0 <= i < |Words(s)| ==> IsWord(Words(s)[i])
    decreases |s|
  {
    if s != [] {
      if IsSpace(s[0]) { WordsAreWords(s[1..]); } else { WordsAreWords(s[WordLength(s)..]); }
    }
  }

  lemma {:induction false} JoinIsNormal(words: seq<string>)
    requires forall i :: 0 <= i < |words| ==> IsWord(words[i])
    ensures Normal(Join(words)) && (words != [] ==> Join(words) != [])
  {
    if |words| > 1 {
      JoinIsNormal(words[1..]);
      var rest := Join(words[1..]);
      assert Join(words) == words[0] + (" " + rest);
    }
  }

  lemma WordLengthIs(w: string, rest: string)
    requires IsWord(w) && (rest != [] ==> IsSpace(rest[0]))
    ensures WordLength(w + rest) == |w|
  {
    assert forall i :: 0 <= i < |w| ==> (w + rest)[i] == w[i];
    assert rest != [] ==> (w + rest)[|w|] == rest[0];
  }

  lemma {:induction false} WordsOfJoin(words: seq<string>)
    requires forall i :: 0 <= i < |words| ==> IsWord(words[i])
    ensures Words(Join(words)) == words
  {
    if |words| == 1 {
      WordLengthIs(words[0], []);
      assert words[0] + [] == words[0] && words[0][|words[0]|..] == [];
    } else if words != [] {
      var w, tail := words[0], " " + Join(words[1..]);
      WordLengthIs(w, tail);
      assert (w + tail)[0] == w[0] && (w + tail)[..|w|] == w && (w + tail)[|w|..] == tail;
      assert tail[1..] == Join(words[1..]);
      WordsOfJoin(words[1..]);
      assert words == [w] + words[1..];
    }
  }

  /** Normalising keeps every word in order, leaves single blanks only, and is idempotent. */
  lemma NormaliseNormalises(raw: string)
    ensures Normal(Normalise(raw)) && Words(Normalise(raw)) == Words(raw) && Normalise(Normalise(raw)) == Normalise(raw)
  {
    WordsAreWords(raw);
    JoinIsNormal(Words(raw));
    WordsOfJoin(Words(raw));
  }

  // ----- White space, character by character -----

  ghost predicate AllIn(s: string, codes: set<int>) {
    forall i :: 0 <= i < |s| ==> s[i] as int in codes
  }

  ghost predicate NoneIn(s: string, codes: set<int>) {
    forall i :: 0 <= i < |s| ==> s[i] as int !in codes
  }

  /** A word, white space, and what follows: the word is kept and the white space is one blank.  White
      space before the first word and after the last goes. */
  ghost predicate RunsAreBlanks(white: set<int>) {
    forall a: string, w: string, rest: string ::
      a != [] && NoneIn(a, white) && w != [] && AllIn(w, white) && rest != [] && rest[0] as int !in white ==>
        && Normalise(a + (w + rest)) == a + (" " + Normalise(rest))
        && Normalise(w + rest) == Normalise(rest) && Normalise(a + w) == a == Normalise(a)
  }

  /** Python's white space, code point by code point: none is left but single blanks, and any run of it
      between two words, a line break in the middle of a sentence, is one blank. */
  lemma NormalisedCharacters(raw: string)
    ensures var white := {9, 10, 11, 12, 13, 28, 29, 30, 31, 32, 0x85, 0xA0, 0x1680, 0x2000, 0x2001, 0x2002, 0x2003,
                          0x2004, 0x2005, 0x2006, 0x2007, 0x2008, 0x2009, 0x200A, 0x2028, 0x2029, 0x202F, 0x205F,
                          0x3000};
      RunsAreBlanks(white) && forall c :: c in Normalise(raw) && c as int in white ==> c == ' '
  {
    var white := {9, 10, 11, 12, 13, 28, 29, 30, 31, 32, 0x85, 0xA0, 0x1680, 0x2000, 0x2001, 0x2002, 0x2003,
                  0x2004, 0x2005, 0x2006, 0x2007, 0x2008, 0x2009, 0x200A, 0x2028, 0x2029, 0x202F, 0x205F, 0x3000};
    assert Spaces(white) by {
      forall c ensures IsSpace(c) <==> c as int in white {}
    }
    SpacesAreBlanks(white);
    SpacesAreGone(raw, white);
  }

  ghost predicate Spaces(white: set<int>) {
    forall c :: IsSpace(c) <==> c as int in white
  }

  lemma SpacesAreGone(raw: string, white: set<int>)
    requires Spaces(white)
    ensures forall c :: c in Normalise(raw) && c as int in white ==> c == ' '
  {
    NormaliseNormalises(raw);
  }

  lemma SpacesAreBlanks(white: set<int>)
    requires Spaces(white)
    ensures RunsAreBlanks(white)
  {
    forall a: string, w: string, rest: string
      | a != [] && NoneIn(a, white) && w != [] && AllIn(w, white) && rest != [] && rest[0] as int !in white
      ensures Normalise(a + (w + rest)) == a + (" " + Normalise(rest))
      ensures Normalise(w + rest) == Normalise(rest) && Normalise(a + w) == a == Normalise(a)
    {
      RunIsBlank(a, w, rest);
    }
  }

  lemma {:induction false} SpacesSkipped(w: string, rest: string)
    requires forall i :: 0 <= i < |w| ==> IsSpace(w[i])
    ensures Words(w + rest) == Words(rest)
  {
    if w == [] {
      assert w + rest == rest;
    } else {
      SpacesSkipped(w[1..], rest);
      assert (w + rest)[1..] == w[1..] + rest;
    }
  }

  lemma WordFirst(a: string, tail: string)
    requires IsWord(a) && (tail != [] ==> IsSpace(tail[0]))
    ensures Words(a + tail) == [a] + Words(tail)
  {
    WordLengthIs(a, tail);
    assert (a + tail)[0] == a[0] && (a + tail)[..|a|] == a && (a + tail)[|a|..] == tail;
  }

  lemma JoinCons(word: string, words: seq<string>)
    requires words != []
    ensures Join([word] + words) == word + (" " + Join(words))
  {
    assert ([word] + words)[1..] == words;
  }

  lemma RunIsBlank(a: string, w: string, rest: string)
    requires IsWord(a) && w != [] && (forall i :: 0 <= i < |w| ==> IsSpace(w[i])) && rest != [] && !IsSpace(rest[0])
    ensures Normalise(a + (w + rest)) == a + (" " + Normalise(rest))
    ensures Normalise(w + rest) == Normalise(rest) && Normalise(a + w) == a == Normalise(a)
  {
    SpacesSkipped(w, rest);
    WordFirst(a, w + rest);
    JoinCons(a, Words(rest));
    SpacesSkipped(w, []);
    assert w + [] == w && a + [] == a;
    WordFirst(a, w);
    WordFirst(a, []);
  }
}

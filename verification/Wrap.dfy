/** Greedy text wrapping for the detail panel: faithful to the text, within the width, and using the fewest lines. */
module Wrapping {
  import opened Basics

  type Word = string

  /** The characters Unicode gives the White_Space property. */
  predicate IsWhite(c: char) {
    || '\U{9}' <= c <= '\U{D}'
    || c == ' ' || c == '\U{85}' || c == '\U{A0}' || c == '\U{1680}'
    || '\U{2000}' <= c <= '\U{200A}'
    || c == '\U{2028}' || c == '\U{2029}' || c == '\U{202F}' || c == '\U{205F}' || c == '\U{3000}'
  }

  /** The text between line feeds. */
  function Paragraphs(text: string): (paragraphs: seq<string>)
    ensures |paragraphs| >= 1
  {
    if text == [] then [[]]
    else
      var rest := Paragraphs(text[1..]);
      if text[0] == '\n' then [[]] + rest else [[text[0]] + rest[0]] + rest[1..]
  }

  function WordLength(text: string): (n: nat)
    ensures n <= |text|
    ensures text != [] && !IsWhite(text[0]) ==> n > 0
  {
    if text == [] || IsWhite(text[0]) then 0 else 1 + WordLength(text[1..])
  }

  /** The maximal runs of characters that are not white space. */
  function Words(text: string): seq<Word>
    decreases |text|
  {
    if text == [] then []
    else if IsWhite(text[0]) then Words(text[1..])
    else [text[..WordLength(text)]] + Words(text[WordLength(text)..])
  }

  // ------------------------------------------------------------------
  // Specification
  // ------------------------------------------------------------------

  /** A word cut into pieces of the given width, the last one possibly shorter. */
  function Pieces(word: Word, width: nat): (pieces: seq<string>)
    requires width > 0
    ensures |pieces| >= 1
    decreases |word|
  {
    if |word| <= width then [word] else [word[..width]] + Pieces(word[width..], width)
  }

  function Front(pieces: seq<string>): seq<string>
    requires |pieces| >= 1
  {
    pieces[..|pieces| - 1]
  }

  function Last(pieces: seq<string>): string
    requires |pieces| >= 1
  {
    pieces[|pieces| - 1]
  }

  predicate Joins(current: string, word: Word, width: nat) {
    current != [] && |current| + 1 + |word| <= width
  }

  /** The lines finished by placing `word` after `current`. */
  function Finished(current: string, word: Word, width: nat): seq<string>
    requires width > 0
  {
    if Joins(current, word, width) then []
    else (if current == [] then [] else [current]) + Front(Pieces(word, width))
  }

  /** The line in progress once `word` is placed after `current`. */
  function Placed(current: string, word: Word, width: nat): string
    requires width > 0
  {
    if Joins(current, word, width) then current + " " + word else Last(Pieces(word, width))
  }

  function Fill(current: string, words: seq<Word>, width: nat): seq<string>
    requires width > 0
    decreases |words|
  {
    if words == [] then [current]
    else Finished(current, words[0], width) + Fill(Placed(current, words[0], width), words[1..], width)
  }

  function WrapParagraph(paragraph: string, width: nat): seq<string>
    requires width > 0
  {
    Fill("", Words(paragraph), width)
  }

  function WrapAll(paragraphs: seq<string>, width: nat): seq<string>
    requires width > 0
  {
    if paragraphs == [] then []
    else WrapAll(paragraphs[..|paragraphs| - 1], width) + WrapParagraph(paragraphs[|paragraphs| - 1], width)
  }

  // ------------------------------------------------------------------
  // The wrapper
  // ------------------------------------------------------------------

  method PushWord(lines: seq<string>, word: Word, width: nat) returns (grown: seq<string>, current: string)
    requires width > 0
    ensures grown == lines + Front(Pieces(word, width)) && current == Last(Pieces(word, width))
  {
    grown := lines;
    if |word| <= width {
      current := word;
      return;
    }
    var chunk := "";
    var i := 0;
    while i < |word|
      invariant |chunk| <= i <= |word| && |chunk| <= width && word[i - |chunk|..i] == chunk
      invariant i > 0 ==> |chunk| > 0
      invariant grown + Pieces(word[i - |chunk|..], width) == lines + Pieces(word, width)
    {
      ghost var start := i - |chunk|;
      if |chunk| == width {
        assert word[start..][..width] == chunk && word[start..][width..] == word[i..];
        grown := grown + [chunk];
        chunk := "";
      }
      chunk := chunk + [word[i]];
      i := i + 1;
    }
    assert word[i - |chunk|..] == chunk;
    assert grown + [chunk] == lines + Pieces(word, width);
    assert chunk == (grown + [chunk])[|grown|] == Last(Pieces(word, width));
    assert grown == (grown + [chunk])[..|grown|] == lines + Front(Pieces(word, width));
    current := chunk;
  }

  method PlaceWord(lines: seq<string>, current: string, word: Word, width: nat)
    returns (grown: seq<string>, next: string)
    requires width > 0
    ensures grown == lines + Finished(current, word, width) && next == Placed(current, word, width)
  {
    hide Pieces, Front, Last;
    if current == "" {
      grown, next := PushWord(lines, word, width);
    } else if |current| + 1 + |word| <= width {
      grown := lines;
      next := current + " ";
      next := next + word;
    } else {
      grown := lines + [current];
      grown, next := PushWord(grown, word, width);
      assert (lines + [current]) + Front(Pieces(word, width)) == lines + ([current] + Front(Pieces(word, width)));
    }
  }

  lemma FillStep(lines: seq<string>, current: string, words: seq<Word>, w: nat, width: nat)
    requires width > 0 && w < |words|
    ensures lines + Fill(current, words[w..], width)
         == (lines + Finished(current, words[w], width)) + Fill(Placed(current, words[w], width), words[w + 1..], width)
  {
    hide Finished, Placed;
    var done, rest := Finished(current, words[w], width), Fill(Placed(current, words[w], width), words[w + 1..], width);
    assert words[w..][1..] == words[w + 1..];
    assert lines + (done + rest) == (lines + done) + rest;
  }

  lemma WrapAllStep(paragraphs: seq<string>, p: nat, width: nat)
    requires width > 0 && p < |paragraphs|
    ensures WrapAll(paragraphs[..p + 1], width)
         == WrapAll(paragraphs[..p], width) + WrapParagraph(paragraphs[p], width)
  {
    assert paragraphs[..p + 1][..p] == paragraphs[..p];
  }

  method WrapText(text: string, width: nat) returns (lines: seq<string>)
    ensures width == 0 ==> lines == [text]
    ensures width > 0 ==> lines == WrapAll(Paragraphs(text), width)
    ensures width > 0 ==> forall line | line in lines :: |line| <= width
    ensures Ink(Concat(lines)) == Ink(text)
  {
    if width == 0 {
      lines := [text];
      ConcatOne(text);
      return;
    }
    lines := [];
    var paragraphs := Paragraphs(text);
    for p := 0 to |paragraphs|
      invariant lines == WrapAll(paragraphs[..p], width)
    {
      var current := "";
      var words := Words(paragraphs[p]);
      ghost var before := lines;
      for w := 0 to |words|
        invariant lines + Fill(current, words[w..], width) == before + WrapParagraph(paragraphs[p], width)
      {
        FillStep(lines, current, words, w, width);
        lines, current := PlaceWord(lines, current, words[w], width);
      }
      lines := lines + [current];
      WrapAllStep(paragraphs, p, width);
    }
    assert paragraphs[..|paragraphs|] == paragraphs;
    WrapIsFaithful(text, width);
  }

  // ------------------------------------------------------------------
  // What words, paragraphs and pieces are
  // ------------------------------------------------------------------

  predicate AllWhite(text: string) {
    forall i | 0 <= i < |text| :: IsWhite(text[i])
  }

  predicate AllVisible(text: string) {
    forall i | 0 <= i < |text| :: !IsWhite(text[i])
  }

  lemma PlainWhiteSpace(c: char)
    requires c < '\U{80}'
    ensures IsWhite(c) <==> c == ' ' || c == '\t' || c == '\n' || c == '\U{B}' || c == '\U{C}' || c == '\r'
  {
  }

  /** The words set between the gaps, in order. */
  function Interleave(gaps: seq<string>, words: seq<Word>): string
    requires |gaps| == |words| + 1
  {
    if words == [] then gaps[0] else gaps[0] + (words[0] + Interleave(gaps[1..], words[1..]))
  }

  lemma {:induction false} WordIsMaximal(text: string)
    ensures AllVisible(text[..WordLength(text)])
    ensures WordLength(text) < |text| ==> IsWhite(text[WordLength(text)])
  {
    if text != [] && !IsWhite(text[0]) {
      WordIsMaximal(text[1..]);
      assert text[..WordLength(text)] == [text[0]] + text[1..][..WordLength(text[1..])];
    }
  }

  /** The words are exactly the stretches between white space: put back between the gaps they give the text. */
  ghost predicate Separates(gaps: seq<string>, words: seq<Word>, text: string) {
    && |gaps| == |words| + 1 && Interleave(gaps, words) == text
    && (forall i | 0 <= i < |words| :: words[i] != [] && AllVisible(words[i]))
    && (forall i | 0 <= i < |gaps| :: AllWhite(gaps[i]))
    && (forall i | 0 < i < |words| :: gaps[i] != [])
    && (text != [] && IsWhite(text[0]) ==> gaps[0] != [])
  }

  lemma {:induction false} WordsExactly(text: string) returns (gaps: seq<string>)
    ensures Separates(gaps, Words(text), text)
    decreases |text|
  {
    hide Separates, IsWhite;
    if text == [] {
      gaps := [[]];
      NoWords();
    } else if IsWhite(text[0]) {
      var rest := WordsExactly(text[1..]);
      gaps := GapGrows(text[0], rest, Words(text[1..]), text[1..]);
      assert text == [text[0]] + text[1..];
    } else {
      var n := WordLength(text);
      WordIsMaximal(text);
      var rest := WordsExactly(text[n..]);
      gaps := WordGoesFirst(text[..n], rest, Words(text[n..]), text[n..]);
      assert text == text[..n] + text[n..];
    }
  }

  lemma NoWords()
    ensures Separates([[]], [], [])
  {
  }

  lemma GapGrows(c: char, gaps: seq<string>, words: seq<Word>, text: string) returns (more: seq<string>)
    requires IsWhite(c) && Separates(gaps, words, text)
    ensures Separates(more, words, [c] + text)
  {
    more := [[c] + gaps[0]] + gaps[1..];
    assert more[1..] == gaps[1..];
    if words != [] {
      Reassociate([c], gaps[0], words[0] + Interleave(gaps[1..], words[1..]));
    }
    assert AllWhite(more[0]);
  }

  lemma WordGoesFirst(word: Word, gaps: seq<string>, words: seq<Word>, text: string) returns (more: seq<string>)
    requires word != [] && AllVisible(word) && Separates(gaps, words, text)
    requires text != [] ==> IsWhite(text[0])
    ensures Separates(more, [word] + words, word + text)
  {
    more := [[]] + gaps;
    assert more[1..] == gaps && ([word] + words)[1..] == words;
    assert [] + (word + text) == word + text;
    if words != [] {
      NotEmpty(gaps, words);
    }
    forall i | 0 < i < |[word] + words|
      ensures more[i] != []
    {
      assert more[i] == gaps[i - 1];
    }
  }

  lemma NotEmpty(gaps: seq<string>, words: seq<Word>)
    requires |gaps| == |words| + 1 && words != [] && words[0] != []
    ensures Interleave(gaps, words) != []
  {
  }

  /** The paragraphs with a line feed between each two. */
  function JoinLines(paragraphs: seq<string>): string
    requires paragraphs != []
  {
    if |paragraphs| == 1 then paragraphs[0] else paragraphs[0] + ("\n" + JoinLines(paragraphs[1..]))
  }

  /** The paragraphs are exactly what stands between line feeds. */
  lemma {:induction false} ParagraphsExactly(text: string)
    ensures JoinLines(Paragraphs(text)) == text
    ensures forall i | 0 <= i < |Paragraphs(text)| :: '\n' !in Paragraphs(text)[i]
  {
    if text != [] {
      var rest, paragraphs := Paragraphs(text[1..]), Paragraphs(text);
      ParagraphsExactly(text[1..]);
      if text[0] == '\n' {
        assert paragraphs[1..] == rest;
        assert [] + ("\n" + text[1..]) == text;
      } else {
        assert paragraphs[1..] == rest[1..];
        if |rest| > 1 {
          Reassociate([text[0]], rest[0], "\n" + JoinLines(rest[1..]));
        }
        assert [text[0]] + text[1..] == text;
      }
    }
  }

  /** Every piece of a word but the last fills the width, and none is empty. */
  lemma {:induction false} PieceIsFull(word: Word, width: nat, i: nat)
    requires width > 0 && word != [] && i < |Pieces(word, width)|
    ensures 0 < |Pieces(word, width)[i]| <= width
    ensures i < |Pieces(word, width)| - 1 ==> |Pieces(word, width)[i]| == width
    decreases |word|
  {
    if i > 0 {
      assert Pieces(word, width)[i] == Pieces(word[width..], width)[i - 1];
      PieceIsFull(word[width..], width, i - 1);
    }
  }

  // ------------------------------------------------------------------
  // Faithful and within the width
  // ------------------------------------------------------------------

  /** The characters that are not white space, in order. */
  function Ink(text: string): string {
    if text == [] then []
    else if IsWhite(text[0]) then Ink(text[1..])
    else [text[0]] + Ink(text[1..])
  }

  function Concat(lines: seq<string>): string {
    if lines == [] then [] else lines[0] + Concat(lines[1..])
  }

  lemma {:induction false} InkAdds(first: string, second: string)
    ensures Ink(first + second) == Ink(first) + Ink(second)
  {
    if first == [] {
      assert first + second == second;
    } else {
      InkAdds(first[1..], second);
      FirstOf(first, second);
      Reassociate([first[0]], Ink(first[1..]), Ink(second));
    }
  }

  lemma {:induction false} ConcatAdds(first: seq<string>, second: seq<string>)
    ensures Concat(first + second) == Concat(first) + Concat(second)
  {
    if first == [] {
      assert first + second == second;
    } else {
      ConcatAdds(first[1..], second);
      FirstOf(first, second);
      Reassociate(first[0], Concat(first[1..]), Concat(second));
    }
  }

  lemma Regroup(a: string, b: string, c: string, d: string, tail: string)
    requires a + b == c + d
    ensures a + (b + tail) == c + (d + tail)
  {
    assert a + (b + tail) == (a + b) + tail;
    assert c + (d + tail) == (c + d) + tail;
  }

  lemma InkOfConcat(first: seq<string>, second: seq<string>)
    ensures Ink(Concat(first + second)) == Ink(Concat(first)) + Ink(Concat(second))
  {
    ConcatAdds(first, second);
    InkAdds(Concat(first), Concat(second));
  }

  lemma {:induction false} WordIsInk(text: string)
    ensures Ink(text[..WordLength(text)]) == text[..WordLength(text)]
  {
    if WordLength(text) > 0 {
      WordIsInk(text[1..]);
      assert text[..WordLength(text)][1..] == text[1..][..WordLength(text[1..])];
    }
  }

  lemma {:induction false} WordsKeepInk(text: string)
    ensures Concat(Words(text)) == Ink(text)
    decreases |text|
  {
    if text != [] {
      if IsWhite(text[0]) {
        WordsKeepInk(text[1..]);
      } else {
        var n := WordLength(text);
        WordsKeepInk(text[n..]);
        WordIsInk(text);
        InkAdds(text[..n], text[n..]);
        assert text[..n] + text[n..] == text;
        assert Words(text)[1..] == Words(text[n..]);
      }
    }
  }

  lemma {:induction false} WordsAreInk(text: string)
    ensures forall word | word in Words(text) :: word != [] && Ink(word) == word
    decreases |text|
  {
    if text != [] {
      if IsWhite(text[0]) {
        WordsAreInk(text[1..]);
      } else {
        WordIsInk(text);
        WordsAreInk(text[WordLength(text)..]);
      }
    }
  }

  lemma InkFirst(c: char, rest: string)
    ensures Ink([c] + rest) == if IsWhite(c) then Ink(rest) else [c] + Ink(rest)
  {
    assert ([c] + rest)[1..] == rest;
  }

  lemma ConcatFirst(c: char, rest: seq<string>)
    requires rest != []
    ensures Concat([[c] + rest[0]] + rest[1..]) == [c] + Concat(rest)
  {
    assert ([[c] + rest[0]] + rest[1..])[1..] == rest[1..];
    assert ([c] + rest[0]) + Concat(rest[1..]) == [c] + (rest[0] + Concat(rest[1..]));
  }

  lemma {:induction false} ParagraphsKeepInk(text: string)
    ensures Ink(Concat(Paragraphs(text))) == Ink(text)
  {
    if text == [] {
      assert Concat(Paragraphs(text)) == [];
    } else {
      var rest := Paragraphs(text[1..]);
      ParagraphsKeepInk(text[1..]);
      if text[0] == '\n' {
        assert ([[]] + rest)[1..] == rest && Concat([[]] + rest) == Concat(rest);
      } else {
        ConcatFirst(text[0], rest);
        InkFirst(text[0], Concat(rest));
      }
    }
  }

  lemma {:induction false} PiecesAreFaithful(word: Word, width: nat)
    requires width > 0
    ensures Concat(Pieces(word, width)) == word
    ensures forall piece | piece in Pieces(word, width) :: |piece| <= width
    decreases |word|
  {
    var pieces := Pieces(word, width);
    if |word| > width {
      PiecesAreFaithful(word[width..], width);
      assert pieces[1..] == Pieces(word[width..], width);
    } else {
      assert pieces[1..] == [];
    }
  }

  lemma JoinIsFaithful(current: string, word: Word, width: nat)
    requires width > 0 && Joins(current, word, width)
    ensures Ink(Placed(current, word, width)) == Ink(current) + Ink(word)
  {
    InkAdds(current + " ", word);
    InkAdds(current, " ");
    assert Ink(" ") == Ink(" "[1..]) == [];
    assert Ink(current) + [] == Ink(current);
  }

  lemma BreakIsFaithful(current: string, word: Word, width: nat)
    requires width > 0 && !Joins(current, word, width)
    ensures Concat(Finished(current, word, width)) + Placed(current, word, width) == current + word
  {
    hide Pieces, Front, Last;
    var front, last := Front(Pieces(word, width)), Last(Pieces(word, width));
    PiecesRejoin(word, width);
    if current == [] {
      assert Finished(current, word, width) == [] + front == front;
      assert current + word == word;
    } else {
      hide Concat;
      ConcatAdds([current], front);
      ConcatOne(current);
      assert (current + Concat(front)) + last == current + (Concat(front) + last);
    }
  }

  lemma PiecesRejoin(word: Word, width: nat)
    requires width > 0
    ensures Concat(Front(Pieces(word, width))) + Last(Pieces(word, width)) == word
  {
    var pieces := Pieces(word, width);
    PiecesAreFaithful(word, width);
    ConcatAdds(Front(pieces), [Last(pieces)]);
    assert Front(pieces) + [Last(pieces)] == pieces;
    ConcatOne(Last(pieces));
  }

  lemma ConcatOne(line: string)
    ensures Concat([line]) == line
  {
    assert Concat([line]) == line + Concat([]);
  }

  lemma PlaceIsFaithful(current: string, word: Word, width: nat)
    requires width > 0
    ensures Ink(Concat(Finished(current, word, width)) + Placed(current, word, width)) == Ink(current) + Ink(word)
  {
    var done, next := Finished(current, word, width), Placed(current, word, width);
    if Joins(current, word, width) {
      JoinIsFaithful(current, word, width);
      assert Concat(done) + next == next;
    } else {
      BreakIsFaithful(current, word, width);
      InkAdds(current, word);
    }
  }

  lemma PlaceFits(current: string, word: Word, width: nat)
    requires width > 0 && |current| <= width
    ensures |Placed(current, word, width)| <= width
    ensures forall line | line in Finished(current, word, width) :: |line| <= width
  {
    PiecesAreFaithful(word, width);
  }

  lemma {:induction false} FillIsFaithful(current: string, words: seq<Word>, width: nat)
    requires width > 0 && |current| <= width
    ensures Ink(Concat(Fill(current, words, width))) == Ink(current) + Ink(Concat(words))
    ensures forall line | line in Fill(current, words, width) :: |line| <= width
    decreases |words|
  {
    if words == [] {
      assert Concat([current]) == current;
    } else {
      var done, next := Finished(current, words[0], width), Placed(current, words[0], width);
      var rest, later := Fill(next, words[1..], width), Concat(words[1..]);
      PlaceIsFaithful(current, words[0], width);
      PlaceFits(current, words[0], width);
      FillIsFaithful(next, words[1..], width);
      InkOfConcat(done, rest);
      InkAdds(Concat(done), next);
      InkAdds(words[0], later);
      Regroup(Ink(Concat(done)), Ink(next), Ink(current), Ink(words[0]), Ink(later));
    }
  }

  lemma {:induction false} WrapAllIsFaithful(paragraphs: seq<string>, width: nat)
    requires width > 0
    ensures Ink(Concat(WrapAll(paragraphs, width))) == Ink(Concat(paragraphs))
    ensures forall line | line in WrapAll(paragraphs, width) :: |line| <= width
  {
    hide WrapParagraph, Ink;
    if paragraphs != [] {
      var before, last := paragraphs[..|paragraphs| - 1], paragraphs[|paragraphs| - 1];
      WrapAllIsFaithful(before, width);
      ParagraphIsFaithful(last, width);
      InkOfConcat(WrapAll(before, width), WrapParagraph(last, width));
      assert before + [last] == paragraphs;
      InkOfConcat(before, [last]);
      ConcatOne(last);
    }
  }

  lemma ParagraphIsFaithful(paragraph: string, width: nat)
    requires width > 0
    ensures Ink(Concat(WrapParagraph(paragraph, width))) == Ink(paragraph)
    ensures forall line | line in WrapParagraph(paragraph, width) :: |line| <= width
  {
    FillIsFaithful("", Words(paragraph), width);
    WordsKeepInk(paragraph);
    InkTwice(paragraph);
  }

  lemma {:induction false} InkTwice(text: string)
    ensures Ink(Ink(text)) == Ink(text)
  {
    if text != [] {
      InkTwice(text[1..]);
      if !IsWhite(text[0]) {
        assert Ink(text)[1..] == Ink(text[1..]);
      }
    }
  }

  /** Every line keeps to the width, and the characters that are not white space come out as they went in. */
  lemma WrapIsFaithful(text: string, width: nat)
    requires width > 0
    ensures Ink(Concat(WrapAll(Paragraphs(text), width))) == Ink(text)
    ensures forall line | line in WrapAll(Paragraphs(text), width) :: |line| <= width
  {
    WrapAllIsFaithful(Paragraphs(text), width);
    ParagraphsKeepInk(text);
  }

  // ------------------------------------------------------------------
  // Fewest lines
  // ------------------------------------------------------------------

  predicate AllFit(words: seq<Word>, width: nat) {
    forall word | word in words :: 0 < |word| <= width
  }

  /** The words of a line with single spaces between them. */
  function Join(line: seq<Word>): string {
    if line == [] then []
    else if |line| == 1 then line[0]
    else Join(line[..|line| - 1]) + " " + line[|line| - 1]
  }

  function Flatten(lines: seq<seq<Word>>): seq<Word> {
    if lines == [] then [] else lines[0] + Flatten(lines[1..])
  }

  /** A way to split `words` into consecutive lines that all keep to the width. */
  ghost predicate IsSplit(lines: seq<seq<Word>>, words: seq<Word>, width: nat) {
    Flatten(lines) == words && forall line | line in lines :: |Join(line)| <= width
  }

  /** The length of a line in progress of length `length` once `word` is added to it. */
  function Extended(length: nat, word: Word): nat {
    if length == 0 then |word| else length + 1 + |word|
  }

  /** How many lines the greedy choice uses from a line in progress of length `length`. */
  function LinesFrom(length: nat, words: seq<Word>, width: nat): nat
    decreases |words|
  {
    if words == [] then 1
    else if length == 0 || Extended(length, words[0]) <= width
    then LinesFrom(Extended(length, words[0]), words[1..], width)
    else 1 + LinesFrom(|words[0]|, words[1..], width)
  }

  lemma PlaceFitting(current: string, word: Word, width: nat)
    requires width > 0 && |word| <= width
    ensures Placed(current, word, width) == if Joins(current, word, width) then current + " " + word else word
    ensures Finished(current, word, width) == if current == [] || Joins(current, word, width) then [] else [current]
  {
    assert Pieces(word, width) == [word];
  }

  lemma {:induction false} FillCountsLines(current: string, words: seq<Word>, width: nat)
    requires AllFit(words, width) && width > 0
    ensures |Fill(current, words, width)| == LinesFrom(|current|, words, width)
    decreases |words|
  {
    hide Pieces, Placed, Finished, Fill;
    if words != [] {
      var done, next := Finished(current, words[0], width), Placed(current, words[0], width);
      PlaceFitting(current, words[0], width);
      FillCountsLines(next, words[1..], width);
      FillOne(current, words[0], words[1..], width);
      assert [words[0]] + words[1..] == words;
    } else {
      FillNone(current, width);
    }
  }

  /** A shorter line in progress never needs more lines, and starting over costs at most one. */
  lemma {:induction false} ShorterIsNoWorse(length: nat, other: nat, words: seq<Word>, width: nat)
    requires AllFit(words, width)
    ensures LinesFrom(length, words, width) <= 1 + LinesFrom(other, words, width)
    ensures length <= other ==> LinesFrom(length, words, width) <= LinesFrom(other, words, width)
    decreases |words|
  {
    if words != [] {
      var word := words[0];
      assert word in words;
      var next := if length == 0 || Extended(length, word) <= width then Extended(length, word) else |word|;
      var next' := if other == 0 || Extended(other, word) <= width then Extended(other, word) else |word|;
      ShorterIsNoWorse(next, next', words[1..], width);
    }
  }

  /** The length of a line in progress once all of `line` is added to it. */
  function ExtendedBy(length: nat, line: seq<Word>): nat
    decreases |line|
  {
    if line == [] then length else ExtendedBy(Extended(length, line[0]), line[1..])
  }

  lemma {:induction false} ExtendedByIsJoin(line: seq<Word>)
    requires forall word | word in line :: word != []
    ensures ExtendedBy(0, line) == |Join(line)|
    ensures line != [] ==> Join(line) != []
  {
    if |line| > 1 {
      var front, last := line[..|line| - 1], line[|line| - 1];
      assert front + [last] == line;
      forall word | word in front
        ensures word != []
      {
        assert word in line;
      }
      ExtendedByIsJoin(front);
      ExtendedBySnoc(0, front, last);
    } else if |line| == 1 {
      assert line[1..] == [] && line[0] in line;
    }
  }

  lemma {:induction false} ExtendedBySnoc(length: nat, line: seq<Word>, last: Word)
    ensures ExtendedBy(length, line + [last]) == Extended(ExtendedBy(length, line), last)
    decreases |line|
  {
    if line == [] {
      assert (line + [last])[1..] == [];
    } else {
      ExtendedBySnoc(Extended(length, line[0]), line[1..], last);
      assert (line + [last])[1..] == line[1..] + [last];
    }
  }

  lemma {:induction false} ExtendedByGrows(length: nat, line: seq<Word>)
    ensures ExtendedBy(length, line) >= length
    decreases |line|
  {
    if line != [] {
      ExtendedByGrows(Extended(length, line[0]), line[1..]);
    }
  }

  /**
    * Greedy stays ahead: while another split fills its line `line`, the greedy line in progress is no longer
    * than the other's, so it never breaks before the other does.
    */
  lemma {:induction false} GreedyStaysAhead(length: nat, other: nat, line: seq<Word>, rest: seq<seq<Word>>, width: nat)
    requires length <= other && ExtendedBy(other, line) <= width
    requires AllFit(line + Flatten(rest), width)
    requires forall next | next in rest :: ExtendedBy(0, next) <= width
    ensures LinesFrom(length, line + Flatten(rest), width) <= 1 + |rest|
    decreases |rest|, |line|
  {
    var words := line + Flatten(rest);
    if line != [] {
      assert words[0] == line[0] && words[1..] == line[1..] + Flatten(rest);
      assert words[0] in words;
      ExtendedByGrows(Extended(other, line[0]), line[1..]);
      forall word | word in words[1..]
        ensures 0 < |word| <= width
      {
        assert word in words;
      }
      GreedyStaysAhead(Extended(length, line[0]), Extended(other, line[0]), line[1..], rest, width);
    } else if rest != [] {
      assert words == rest[0] + Flatten(rest[1..]);
      ShorterIsNoWorse(length, 0, words, width);
      GreedyStaysAhead(0, 0, rest[0], rest[1..], width);
    }
  }

  lemma {:induction false} FlattenHolds(lines: seq<seq<Word>>, line: seq<Word>, word: Word)
    requires line in lines && word in line
    ensures word in Flatten(lines)
  {
    if line != lines[0] {
      FlattenHolds(lines[1..], line, word);
    }
  }

  /** What wrapping may not break further: the words, and of a word too long for a line its pieces. */
  function Units(words: seq<Word>, width: nat): seq<Word>
    requires width > 0
  {
    if words == [] then [] else Pieces(words[0], width) + Units(words[1..], width)
  }

  lemma {:induction false} FittingUnits(words: seq<Word>, width: nat)
    requires width > 0 && AllFit(words, width)
    ensures Units(words, width) == words
  {
    if words != [] {
      assert words[0] in words;
      FittingUnits(words[1..], width);
      assert Pieces(words[0], width) == [words[0]];
      assert [words[0]] + words[1..] == words;
    }
  }

  lemma {:induction false} UnitsFit(words: seq<Word>, width: nat)
    requires width > 0 && forall i | 0 <= i < |words| :: words[i] != []
    ensures AllFit(Units(words, width), width)
  {
    if words != [] {
      UnitsFit(words[1..], width);
      var pieces, rest := Pieces(words[0], width), Units(words[1..], width);
      forall unit | unit in pieces + rest
        ensures 0 < |unit| <= width
      {
        if unit in pieces {
          var i :| 0 <= i < |pieces| && pieces[i] == unit;
          PieceIsFull(words[0], width, i);
        } else {
          assert unit in rest;
        }
      }
    }
  }

  lemma FillNone(current: string, width: nat)
    requires width > 0
    ensures Fill(current, [], width) == [current]
  {
  }

  lemma FillOne(current: string, word: Word, rest: seq<Word>, width: nat)
    requires width > 0
    ensures Fill(current, [word] + rest, width)
         == Finished(current, word, width) + Fill(Placed(current, word, width), rest, width)
  {
    assert ([word] + rest)[1..] == rest;
  }

  lemma LongWord(current: string, word: Word, width: nat)
    requires width > 0 && |word| > width
    ensures Pieces(word, width) == [word[..width]] + Pieces(word[width..], width)
    ensures Finished(current, word, width) == Finished(current, word[..width], width)
                                              + Finished(word[..width], word[width..], width)
    ensures Placed(current, word, width) == Placed(word[..width], word[width..], width)
    ensures Placed(current, word[..width], width) == word[..width]
  {
    var first, pieces := word[..width], Pieces(word[width..], width);
    assert Pieces(first, width) == [first];
    assert !Joins(first, word[width..], width) && !Joins(current, first, width) && !Joins(current, word, width);
    PiecesGoOn(word, width);
    hide Pieces, Front, Last, Joins;
    Reassociate(if current == [] then [] else [current], [first], Front(pieces));
  }

  lemma PiecesGoOn(word: Word, width: nat)
    requires width > 0 && |word| > width
    ensures Front(Pieces(word, width)) == [word[..width]] + Front(Pieces(word[width..], width))
    ensures Last(Pieces(word, width)) == Last(Pieces(word[width..], width))
    ensures Front([word[..width]]) == [] && Last([word[..width]]) == word[..width]
  {
  }

  /** A word too long for a line is wrapped as its pieces are. */
  lemma {:induction false} FillPieces(current: string, word: Word, rest: seq<Word>, width: nat)
    requires width > 0
    ensures Fill(current, [word] + rest, width) == Fill(current, Pieces(word, width) + rest, width)
    decreases |word|
  {
    if |word| > width {
      hide Fill, Finished, Placed, Pieces;
      var first, left := word[..width], word[width..];
      var more := Pieces(left, width) + rest;
      LongWord(current, word, width);
      FillOne(current, word, rest, width);
      FillOne(first, left, rest, width);
      FillOne(current, first, more, width);
      FillPieces(first, left, rest, width);
      Reassociate([first], Pieces(left, width), rest);
      Reassociate(Finished(current, first, width), Finished(first, left, width),
                  Fill(Placed(first, left, width), rest, width));
    } else {
      assert Pieces(word, width) == [word];
    }
  }

  lemma {:induction false} FillUnits(current: string, words: seq<Word>, width: nat)
    requires width > 0
    ensures Fill(current, words, width) == Fill(current, Units(words, width), width)
    decreases |words|
  {
    if words != [] {
      hide Fill, Finished, Placed, Pieces;
      var word, rest := words[0], words[1..];
      assert [word] + rest == words;
      FillOne(current, word, rest, width);
      FillUnits(Placed(current, word, width), rest, width);
      FillOne(current, word, Units(rest, width), width);
      FillPieces(current, word, Units(rest, width), width);
    }
  }

  /** Words are never empty, so their pieces fit. */
  lemma ParagraphUnits(paragraph: string, width: nat) returns (units: seq<Word>)
    requires width > 0
    ensures units == Units(Words(paragraph), width) && AllFit(units, width)
    ensures WrapParagraph(paragraph, width) == Fill("", units, width)
  {
    units := Units(Words(paragraph), width);
    var gaps := WordsExactly(paragraph);
    UnitsFit(Words(paragraph), width);
    FillUnits("", Words(paragraph), width);
  }

  /**
    * Optimality, for every paragraph. No split of its units into consecutive lines of at most the width, each line
    * joined by single spaces, has fewer lines than the wrapper uses (an empty paragraph still takes one line). When
    * all words fit the width, the units are the words.
    */
  lemma GreedyIsOptimal(paragraph: string, width: nat, split: seq<seq<Word>>)
    requires width > 0 && IsSplit(split, Units(Words(paragraph), width), width)
    ensures |WrapParagraph(paragraph, width)| <= if split == [] then 1 else |split|
    ensures AllFit(Words(paragraph), width) ==> Units(Words(paragraph), width) == Words(paragraph)
  {
    var units := ParagraphUnits(paragraph, width);
    if AllFit(Words(paragraph), width) {
      FittingUnits(Words(paragraph), width);
    }
    FillIsOptimal(units, width, split);
  }

  lemma FillIsOptimal(words: seq<Word>, width: nat, split: seq<seq<Word>>)
    requires width > 0 && AllFit(words, width) && IsSplit(split, words, width)
    ensures |Fill("", words, width)| <= if split == [] then 1 else |split|
  {
    FillCountsLines("", words, width);
    forall line | line in split
      ensures ExtendedBy(0, line) <= width
    {
      forall word | word in line
        ensures word != []
      {
        FlattenHolds(split, line, word);
      }
      ExtendedByIsJoin(line);
    }
    if split != [] {
      assert words == split[0] + Flatten(split[1..]);
      GreedyStaysAhead(0, 0, split[0], split[1..], width);
    }
  }

  /** The greedy split itself: the line in progress holds `line`. */
  function GreedySplit(line: seq<Word>, words: seq<Word>, width: nat): seq<seq<Word>>
    decreases |words|
  {
    if words == [] then [line]
    else if line == [] || |Join(line)| + 1 + |words[0]| <= width then GreedySplit(line + [words[0]], words[1..], width)
    else [line] + GreedySplit([words[0]], words[1..], width)
  }

  lemma JoinGrows(line: seq<Word>, word: Word)
    requires forall other | other in line :: other != []
    ensures Join(line + [word]) == if line == [] then word else Join(line) + " " + word
    ensures line != [] <==> Join(line) != []
  {
    ExtendedByIsJoin(line);
    assert (line + [word])[..|line|] == line;
  }

  /** The printed lines are the lines of a split of `words`, each joined by single spaces. */
  ghost predicate Shows(lines: seq<string>, split: seq<seq<Word>>, words: seq<Word>, width: nat) {
    && IsSplit(split, words, width)
    && |lines| == |split| && forall i | 0 <= i < |lines| :: lines[i] == Join(split[i])
  }

  lemma OneMoreLine(line: seq<Word>, lines: seq<string>, split: seq<seq<Word>>, words: seq<Word>, width: nat)
    requires Shows(lines, split, words, width) && |Join(line)| <= width
    ensures Shows([Join(line)] + lines, [line] + split, line + words, width)
  {
    hide Join;
    assert ([line] + split)[1..] == split;
  }

  lemma FitsApart(line: seq<Word>, words: seq<Word>, width: nat)
    requires AllFit(line, width) && AllFit(words, width) && words != []
    ensures 0 < |words[0]| <= width
    ensures AllFit(words[1..], width) && AllFit([words[0]], width) && AllFit(line + [words[0]], width)
    ensures forall word | word in line :: word != []
  {
    assert words[0] in words;
  }

  /** The two ways the wrapper and the greedy split go on, side by side. */
  lemma FillGoesOn(line: seq<Word>, words: seq<Word>, width: nat)
    requires width > 0 && AllFit(line, width) && AllFit(words, width) && words != []
    ensures var word, rest := words[0], words[1..];
            if line == [] || |Join(line)| + 1 + |word| <= width then
              && Fill(Join(line), words, width) == Fill(Join(line + [word]), rest, width)
              && GreedySplit(line, words, width) == GreedySplit(line + [word], rest, width)
              && |Join(line + [word])| <= width
            else
              && Fill(Join(line), words, width) == [Join(line)] + Fill(Join([word]), rest, width)
              && GreedySplit(line, words, width) == [line] + GreedySplit([word], rest, width)
              && |Join([word])| <= width
  {
    hide Pieces, Placed, Finished, Join, AllFit;
    FitsApart(line, words, width);
    PlaceFitting(Join(line), words[0], width);
    JoinGrows(line, words[0]);
    JoinOne(words[0]);
  }

  lemma NextWord(line: seq<Word>, words: seq<Word>)
    requires words != []
    ensures [words[0]] + words[1..] == words && (line + [words[0]]) + words[1..] == line + words
  {
  }

  lemma NoMoreWords(line: seq<Word>, width: nat)
    requires width > 0 && |Join(line)| <= width
    ensures Shows(Fill(Join(line), [], width), GreedySplit(line, [], width), line + [], width)
  {
    assert line + [] == line && Flatten([line]) == line + Flatten([]);
  }

  lemma {:induction false} FillIsASplit(line: seq<Word>, words: seq<Word>, width: nat)
    requires width > 0 && AllFit(line, width) && AllFit(words, width) && |Join(line)| <= width
    ensures Shows(Fill(Join(line), words, width), GreedySplit(line, words, width), line + words, width)
    decreases |words|
  {
    hide Fill, GreedySplit, Join, Shows, AllFit;
    if words == [] {
      NoMoreWords(line, width);
    } else {
      var word, rest := words[0], words[1..];
      FitsApart(line, words, width);
      FillGoesOn(line, words, width);
      NextWord(line, words);
      if line == [] || |Join(line)| + 1 + |word| <= width {
        FillIsASplit(line + [word], rest, width);
      } else {
        FillIsASplit([word], rest, width);
        OneMoreLine(line, Fill(Join([word]), rest, width), GreedySplit([word], rest, width), words, width);
      }
    }
  }

  lemma JoinOne(word: Word)
    ensures Join([word]) == word
  {
  }

  /** No line could have taken in the first unit of the next one. */
  ghost predicate LeavesNoRoom(split: seq<seq<Word>>, width: nat) {
    forall i | 0 < i < |split| :: split[i] != [] && |Join(split[i - 1])| + 1 + |split[i][0]| > width
  }

  lemma {:induction false} SplitLeavesNoRoom(line: seq<Word>, words: seq<Word>, width: nat)
    ensures var split := GreedySplit(line, words, width);
            && split != [] && LeavesNoRoom(split, width)
            && line <= split[0]
    decreases |words|
  {
    if words != [] {
      if line == [] || |Join(line)| + 1 + |words[0]| <= width {
        SplitLeavesNoRoom(line + [words[0]], words[1..], width);
        assert line <= line + [words[0]] <= GreedySplit(line, words, width)[0];
      } else {
        SplitLeavesNoRoom([words[0]], words[1..], width);
        MoreLeavesNoRoom(line, GreedySplit([words[0]], words[1..], width), words[0], width);
      }
    }
  }

  lemma MoreLeavesNoRoom(line: seq<Word>, split: seq<seq<Word>>, word: Word, width: nat)
    requires split != [] && [word] <= split[0] && LeavesNoRoom(split, width) && |Join(line)| + 1 + |word| > width
    ensures LeavesNoRoom([line] + split, width)
  {
    hide Join;
    var more := [line] + split;
    forall i | 0 < i < |more|
      ensures more[i] != [] && |Join(more[i - 1])| + 1 + |more[i][0]| > width
    {
      if i > 1 {
        assert more[i] == split[i - 1] && more[i - 1] == split[i - 2];
      } else {
        assert more[1] == split[0] && split[0][0] == word;
      }
    }
  }

  /**
    * The wrapper's own lines are such a split: all units in order, single spaces, nothing added or lost; and each line
    * takes all it can.
    */
  lemma WrapIsASplit(paragraph: string, width: nat)
    requires width > 0
    ensures var units := Units(Words(paragraph), width);
            var split := GreedySplit([], units, width);
            Shows(WrapParagraph(paragraph, width), split, units, width) && LeavesNoRoom(split, width)
  {
    var units := ParagraphUnits(paragraph, width);
    SplitLeavesNoRoom([], units, width);
    assert [] + units == units;
    FillIsASplit([], units, width);
  }
}

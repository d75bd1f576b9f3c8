// The word-by-word reveal of the page's descriptive text, `revealDescriptiveText`
// (main.js:143-181). The container's children are modelled as a list of tokens: a word span
// with the delay its reveal timeout is scheduled at, or a line break.
module WordReveal {
  import opened Arith

  /** A child of the reveal container: a word span and its reveal delay in milliseconds,
      or a <br> element. */
  datatype Token = Word(text: string, delay: int) | Br

  /** The line separator of `split(/\n/)`. */
  predicate IsNewline(c: char)
  {
    c == '\n'
  }

  /** The characters of the JavaScript class \s: the ASCII blanks, the no-break and
      Unicode spaces, the line and paragraph separators and the byte order mark. */
  predicate IsSpace(c: char)
  {
    var n := c as int;
    || n == 0x09 || n == 0x0A || n == 0x0B || n == 0x0C || n == 0x0D || n == 0x20
    || n == 0xA0 || n == 0x1680 || (0x2000 <= n <= 0x200A) || n == 0x2028 || n == 0x2029
    || n == 0x202F || n == 0x205F || n == 0x3000 || n == 0xFEFF
  }

  /** The separators of s under sep, in order. */
  function Separators(s: string, sep: char -> bool): seq<char>
  {
    if |s| == 0 then []
    else (if sep(s[0]) then [s[0]] else []) + Separators(s[1..], sep)
  }

  /** s with its separator characters removed. */
  function Keep(s: string, sep: char -> bool): string
  {
    if |s| == 0 then []
    else (if sep(s[0]) then [] else [s[0]]) + Keep(s[1..], sep)
  }

  /** String.prototype.split at every single separator character: the pieces between
      consecutive separators, empty ones included; one more piece than separators. */
  function Split(s: string, sep: char -> bool): (r: seq<string>)
    ensures |r| == |Separators(s, sep)| + 1
  {
    if |s| == 0 then [""]
    else
      var rest := Split(s[1..], sep);
      if sep(s[0]) then [""] + rest else [[s[0]] + rest[0]] + rest[1..]
  }

  /** The pieces with the separators put back between them. */
  function Interleave(pieces: seq<string>, seps: seq<char>): string
    requires |pieces| == |seps| + 1
  {
    if |seps| == 0 then pieces[0]
    else pieces[0] + [seps[0]] + Interleave(pieces[1..], seps[1..])
  }

  /** The pieces one after another. */
  function Concat(pieces: seq<string>): string
  {
    if |pieces| == 0 then [] else pieces[0] + Concat(pieces[1..])
  }

  /** `.filter(Boolean)` on strings: the non-empty pieces, in order. */
  function NonEmpty(pieces: seq<string>): (r: seq<string>)
    ensures |r| <= |pieces|
    ensures forall i :: 0 <= i < |r| ==> |r[i]| > 0
    ensures forall i :: 0 <= i < |r| ==> r[i] in pieces
  {
    if |pieces| == 0 then []
    else (if |pieces[0]| > 0 then [pieces[0]] else []) + NonEmpty(pieces[1..])
  }

  /** The lines of the text, `String(text).split(/\n/)`. */
  function Lines(text: string): seq<string>
  {
    Split(text, IsNewline)
  }

  /** The words of a line, `line.split(/\s+/).filter(Boolean)`. Splitting at every
      whitespace character and dropping the empty pieces leaves the same words as
      splitting at whitespace runs. */
  function Words(line: string): (r: seq<string>)
    ensures forall i :: 0 <= i < |r| ==> |r[i]| > 0
    ensures forall i :: 0 <= i < |r| ==> Clean(r[i], IsSpace)
  {
    SplitPiecesClean(line, IsSpace);
    NonEmpty(Split(line, IsSpace))
  }

  /** The piece holds no separator. */
  predicate Clean(piece: string, sep: char -> bool)
  {
    forall k :: 0 <= k < |piece| ==> !sep(piece[k])
  }

  /** No piece holds a separator. */
  lemma {:induction false} SplitPiecesClean(s: string, sep: char -> bool)
    ensures forall i :: 0 <= i < |Split(s, sep)| ==> Clean(Split(s, sep)[i], sep)
    decreases |s|
  {
    if |s| > 0 {
      SplitPiecesClean(s[1..], sep);
      var rest := Split(s[1..], sep);
      var r := Split(s, sep);
      if sep(s[0]) {
        assert r == [""] + rest;
        assert Clean("", sep);
      } else {
        assert r == [[s[0]] + rest[0]] + rest[1..];
        assert Clean(rest[0], sep);
        assert Clean([s[0]] + rest[0], sep);
      }
    }
  }

  /** Splitting loses nothing: putting the separators back between the pieces gives the
      text back, so the pieces are exactly the stretches between separators. */
  lemma {:induction false} SplitRoundTrip(s: string, sep: char -> bool)
    ensures Interleave(Split(s, sep), Separators(s, sep)) == s
    decreases |s|
  {
    if |s| > 0 {
      var rest, seps := Split(s[1..], sep), Separators(s[1..], sep);
      SplitRoundTrip(s[1..], sep);
      if sep(s[0]) {
        assert Split(s, sep) == [""] + rest && Separators(s, sep) == [s[0]] + seps;
        InterleaveSeparator(s[0], rest, seps);
      } else {
        assert Split(s, sep) == [[s[0]] + rest[0]] + rest[1..] && Separators(s, sep) == [] + seps;
        assert [] + seps == seps;
        InterleaveOther(s[0], rest, seps);
      }
      assert s == [s[0]] + s[1..];
    }
  }

  /** A separator in front: an empty first piece, then the separator. */
  lemma InterleaveSeparator(c: char, rest: seq<string>, seps: seq<char>)
    requires |rest| == |seps| + 1
    ensures Interleave([""] + rest, [c] + seps) == [c] + Interleave(rest, seps)
  {
    var p, q := [""] + rest, [c] + seps;
    assert p[0] == "" && q[0] == c && p[1..] == rest && q[1..] == seps;
    assert Interleave(p, q) == p[0] + [q[0]] + Interleave(rest, seps);
  }

  /** Another character in front: it joins the first piece. */
  lemma InterleaveOther(c: char, rest: seq<string>, seps: seq<char>)
    requires |rest| == |seps| + 1
    ensures Interleave([[c] + rest[0]] + rest[1..], seps) == [c] + Interleave(rest, seps)
  {
    var p := [[c] + rest[0]] + rest[1..];
    if |seps| > 0 {
      assert p[1..] == rest[1..];
    }
  }

  /** The pieces hold exactly the text's non-separator characters, in order. */
  lemma {:induction false} SplitKeepsText(s: string, sep: char -> bool)
    ensures Concat(Split(s, sep)) == Keep(s, sep)
    decreases |s|
  {
    if |s| > 0 {
      var rest := Split(s[1..], sep);
      SplitKeepsText(s[1..], sep);
      if sep(s[0]) {
        assert Split(s, sep)[1..] == rest;
      } else {
        assert Split(s, sep)[1..] == rest[1..];
        assert Concat(Split(s, sep)) == [s[0]] + rest[0] + Concat(rest[1..]);
      }
    }
  }

  /** Dropping empty pieces does not change their concatenation. */
  lemma {:induction false} NonEmptyKeepsText(pieces: seq<string>)
    ensures Concat(NonEmpty(pieces)) == Concat(pieces)
    decreases |pieces|
  {
    if |pieces| > 0 {
      NonEmptyKeepsText(pieces[1..]);
      ConcatAppend(if |pieces[0]| > 0 then [pieces[0]] else [], NonEmpty(pieces[1..]));
      if |pieces[0]| > 0 {
        assert Concat([pieces[0]]) == pieces[0] + Concat([]);
      }
    }
  }

  lemma {:induction false} ConcatAppend(a: seq<string>, b: seq<string>)
    ensures Concat(a + b) == Concat(a) + Concat(b)
    decreases |a|
  {
    if |a| > 0 {
      assert (a + b)[1..] == a[1..] + b;
      ConcatAppend(a[1..], b);
    } else {
      assert a + b == b;
    }
  }

  /** The words of a line are its non-whitespace characters, in order, cut at whitespace. */
  lemma WordsKeepText(line: string)
    ensures Concat(Words(line)) == Keep(line, IsSpace)
  {
    NonEmptyKeepsText(Split(line, IsSpace));
    SplitKeepsText(line, IsSpace);
  }

  /** The spans of one line's words, the j-th scheduled at slot base + j. */
  function Tagged(words: seq<string>, base: int, wordDelay: int): seq<Token>
  {
    seq(|words|, j requires 0 <= j < |words| => Word(words[j], (base + j) * wordDelay))
  }

  /** The words of every line. */
  function LineWords(lines: seq<string>): seq<seq<string>>
  {
    seq(|lines|, i requires 0 <= i < |lines| => Words(lines[i]))
  }

  /** The container's children once the lines before li, with words `ls`, have been
      processed: each line's word spans, scheduled from the next free slot on, then a
      <br> after every line but the last, which also takes a slot. */
  function Emitted(ls: seq<seq<string>>, li: nat, wordDelay: int): seq<Token>
    requires li <= |ls|
    decreases li
  {
    if li == 0 then []
    else
      var prev := Emitted(ls, li - 1, wordDelay);
      prev + Tagged(ls[li - 1], |prev|, wordDelay) + (if li < |ls| then [Br] else [])
  }

  /** What revealDescriptiveText leaves in the container for `text`. */
  function Schedule(text: string, wordDelay: int): seq<Token>
  {
    var ls := LineWords(Lines(text));
    Emitted(ls, |ls|, wordDelay)
  }

  /** The texts of the word spans, in order. */
  function WordTexts(ts: seq<Token>): seq<string>
  {
    if |ts| == 0 then []
    else (if ts[0].Word? then [ts[0].text] else []) + WordTexts(ts[1..])
  }

  /** The number of <br> elements. */
  function CountBr(ts: seq<Token>): nat
  {
    if |ts| == 0 then 0 else (if ts[0].Br? then 1 else 0) + CountBr(ts[1..])
  }

  /** The words of all lines, in order. */
  function Flatten(ls: seq<seq<string>>): seq<string>
  {
    if |ls| == 0 then [] else Flatten(ls[..|ls| - 1]) + ls[|ls| - 1]
  }

  /** The number of words on the lines before line li. */
  function WordsBefore(ls: seq<seq<string>>, li: nat): nat
    requires li <= |ls|
  {
    if li == 0 then 0 else WordsBefore(ls, li - 1) + |ls[li - 1]|
  }

  lemma {:induction false} TextsAppend(a: seq<Token>, b: seq<Token>)
    ensures WordTexts(a + b) == WordTexts(a) + WordTexts(b)
    ensures CountBr(a + b) == CountBr(a) + CountBr(b)
    decreases |a|
  {
    if |a| > 0 {
      assert (a + b)[1..] == a[1..] + b;
      TextsAppend(a[1..], b);
    } else {
      assert a + b == b;
    }
  }

  lemma {:induction false} TaggedTexts(words: seq<string>, base: int, wordDelay: int)
    ensures WordTexts(Tagged(words, base, wordDelay)) == words
    ensures CountBr(Tagged(words, base, wordDelay)) == 0
    decreases |words|
  {
    if |words| > 0 {
      var t := Tagged(words, base, wordDelay);
      assert t[1..] == Tagged(words[1..], base + 1, wordDelay);
      TaggedTexts(words[1..], base + 1, wordDelay);
      assert words == [words[0]] + words[1..];
    }
  }

  /** A <br> adds no word and one line break. */
  lemma BrTexts()
    ensures WordTexts([Br]) == [] && CountBr([Br]) == 1
  {
    assert [Br][1..] == [];
  }

  /** After the lines before li, the word spans carry their words in source order, and
      there is one <br> per processed line except the last line of all, whether or not
      the line has words. */
  lemma {:induction false} EmittedTexts(ls: seq<seq<string>>, li: nat, wordDelay: int)
    requires li <= |ls|
    ensures WordTexts(Emitted(ls, li, wordDelay)) == Flatten(ls[..li])
    ensures CountBr(Emitted(ls, li, wordDelay)) == if li == |ls| && li > 0 then li - 1 else li
    decreases li
  {
    if li > 0 {
      var prev := Emitted(ls, li - 1, wordDelay);
      var t := Tagged(ls[li - 1], |prev|, wordDelay);
      var brk: seq<Token> := if li < |ls| then [Br] else [];
      EmittedTexts(ls, li - 1, wordDelay);
      TaggedTexts(ls[li - 1], |prev|, wordDelay);
      TextsAppend(prev, t);
      TextsAppend(prev + t, brk);
      BrTexts();
      assert WordTexts([]) == [] && CountBr([]) == 0;
      assert ls[..li][..li - 1] == ls[..li - 1];
    }
  }

  /** Every child takes one slot, so a word span at position p is scheduled at slot p:
      the <br> elements are the extra slot per line break. */
  lemma {:induction false} EmittedDelays(ls: seq<seq<string>>, li: nat, wordDelay: int)
    requires li <= |ls|
    ensures forall p :: 0 <= p < |Emitted(ls, li, wordDelay)| && Emitted(ls, li, wordDelay)[p].Word? ==>
      Emitted(ls, li, wordDelay)[p].delay == p * wordDelay
    decreases li
  {
    if li > 0 {
      var prev := Emitted(ls, li - 1, wordDelay);
      EmittedDelays(ls, li - 1, wordDelay);
      var e := Emitted(ls, li, wordDelay);
      forall p | 0 <= p < |e| && e[p].Word?
        ensures e[p].delay == p * wordDelay
      {
        if p < |prev| {
          assert e[p] == prev[p];
        }
      }
    }
  }

  /** Before the last line, the children are all words so far and one <br> per line. */
  lemma {:induction false} EmittedLength(ls: seq<seq<string>>, li: nat, wordDelay: int)
    requires li < |ls|
    ensures |Emitted(ls, li, wordDelay)| == WordsBefore(ls, li) + li
    decreases li
  {
    if li > 0 {
      EmittedLength(ls, li - 1, wordDelay);
    }
  }

  /** Processing more lines only appends children. */
  lemma {:induction false} EmittedPrefix(ls: seq<seq<string>>, a: nat, b: nat, wordDelay: int)
    requires a <= b <= |ls|
    ensures |Emitted(ls, a, wordDelay)| <= |Emitted(ls, b, wordDelay)|
    ensures Emitted(ls, b, wordDelay)[..|Emitted(ls, a, wordDelay)|] == Emitted(ls, a, wordDelay)
    decreases b
  {
    if a < b {
      EmittedPrefix(ls, a, b - 1, wordDelay);
      var prev := Emitted(ls, b - 1, wordDelay);
      var e := Emitted(ls, b, wordDelay);
      assert e[..|prev|] == prev;
      assert e[..|Emitted(ls, a, wordDelay)|] == prev[..|Emitted(ls, a, wordDelay)|];
    }
  }

  /** The children for text hold its words in order, as non-empty whitespace-free spans,
      and one <br> per newline in the text. */
  lemma ScheduleTexts(text: string, wordDelay: int)
    ensures WordTexts(Schedule(text, wordDelay)) == Flatten(LineWords(Lines(text)))
    ensures CountBr(Schedule(text, wordDelay)) == |Separators(text, IsNewline)|
  {
    var ls := LineWords(Lines(text));
    EmittedTexts(ls, |ls|, wordDelay);
    assert ls[..|ls|] == ls;
  }

  /** The j-th word of line li sits at position WordsBefore(ls, li) + li + j of the
      final children: after all earlier words and one <br> per earlier line. */
  lemma EmittedWordAt(ls: seq<seq<string>>, li: nat, j: nat, wordDelay: int)
    requires li < |ls| && j < |ls[li]|
    ensures WordsBefore(ls, li) + li + j < |Emitted(ls, |ls|, wordDelay)|
    ensures Emitted(ls, |ls|, wordDelay)[WordsBefore(ls, li) + li + j]
         == Word(ls[li][j], (WordsBefore(ls, li) + li + j) * wordDelay)
  {
    var prev := Emitted(ls, li, wordDelay);
    var e := Emitted(ls, li + 1, wordDelay);
    EmittedLength(ls, li, wordDelay);
    EmittedPrefix(ls, li + 1, |ls|, wordDelay);
    assert e == prev + Tagged(ls[li], |prev|, wordDelay) + (if li + 1 < |ls| then [Br] else []);
    assert e[|prev| + j] == Word(ls[li][j], (|prev| + j) * wordDelay);
    var f := Emitted(ls, |ls|, wordDelay);
    assert f[|prev| + j] == f[..|e|][|prev| + j];
  }

  /** The k-th word of the text overall, the j-th of line li, is scheduled at
      (k + li) * wordDelay: one extra slot per line break before it. */
  lemma ScheduleWordAt(text: string, wordDelay: int, li: nat, j: nat)
    requires li < |Lines(text)| && j < |Words(Lines(text)[li])|
    ensures var k := WordsBefore(LineWords(Lines(text)), li) + j;
      k + li < |Schedule(text, wordDelay)|
      && Schedule(text, wordDelay)[k + li] == Word(Words(Lines(text)[li])[j], (k + li) * wordDelay)
  {
    EmittedWordAt(LineWords(Lines(text)), li, j, wordDelay);
  }

  /** With a positive delay, the spans are revealed strictly in document order. */
  lemma DelaysIncrease(text: string, wordDelay: int, p: nat, q: nat)
    requires wordDelay > 0 && p < q < |Schedule(text, wordDelay)|
    requires Schedule(text, wordDelay)[p].Word? && Schedule(text, wordDelay)[q].Word?
    ensures Schedule(text, wordDelay)[p].delay < Schedule(text, wordDelay)[q].delay
  {
    var ls := LineWords(Lines(text));
    EmittedDelays(ls, |ls|, wordDelay);
    MulStrict(p, q, wordDelay);
  }

  /** The page element with id "revealText": its children and whether it carries the
      `active` class. */
  class RevealContainer {
    var children: seq<Token>
    var active: bool

    constructor ()
      ensures children == [] && !active
    {
      children, active := [], false;
    }
  }

  /** The inner forEach of revealDescriptiveText (main.js:163-172): one span per word,
      appended in order, the word at wordIndex + j scheduled at that slot times wordDelay;
      returns the next free slot. */
  method AppendWords(container: RevealContainer, words: seq<string>, wordIndex: int, wordDelay: int)
    returns (next: int)
    modifies container
    ensures container.children == old(container.children) + Tagged(words, wordIndex, wordDelay)
    ensures next == wordIndex + |words| && container.active == old(container.active)
  {
    next := wordIndex;
    var j := 0;
    while j < |words|
      invariant 0 <= j <= |words|
      invariant next == wordIndex + j
      invariant container.children == old(container.children) + Tagged(words[..j], wordIndex, wordDelay)
      invariant container.active == old(container.active)
    {
      container.children := container.children + [Word(words[j], next * wordDelay)];
      assert Tagged(words[..j + 1], wordIndex, wordDelay)
          == Tagged(words[..j], wordIndex, wordDelay) + [Word(words[j], next * wordDelay)];
      next := next + 1;
      j := j + 1;
    }
    assert words[..j] == words;
  }

  /** revealDescriptiveText (main.js:143-181): with no container, nothing; otherwise the
      container is emptied and activated, then every line's words are appended as spans,
      each scheduled at wordIndex * wordDelay, with a <br> and one extra slot after every
      line but the last. */
  method RevealDescriptiveText(container: RevealContainer?, text: string, wordDelay: int)
    modifies container
    ensures container != null ==> container.children == Schedule(text, wordDelay) && container.active
  {
    if container == null {
      return;
    }
    container.children := [];
    container.active := true;
    var lines := Lines(text);
    ghost var ls := LineWords(lines);
    var wordIndex := 0;
    var li := 0;
    while li < |lines|
      invariant 0 <= li <= |lines|
      invariant container.children == Emitted(ls, li, wordDelay)
      invariant wordIndex == |container.children|
      invariant container.active
    {
      wordIndex := AppendWords(container, Words(lines[li]), wordIndex, wordDelay);
      if li < |lines| - 1 {
        container.children := container.children + [Br];
        wordIndex := wordIndex + 1;
      }
      li := li + 1;
    }
  }
}

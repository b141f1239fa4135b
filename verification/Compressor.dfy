/**
  The cognitive compressor: scrub a text to lower-case words, drop stop words, collapse synonyms, drop adjacent
  repeats, and join. NFKC normalisation with lower-casing is an opaque function.
 */
module Compressor {
  import opened Seqs
  import opened WordLists

  datatype Options = Options(stripStops: bool, normalizeSynonyms: bool)

  // ----- text and words -----

  /** The characters for which Python's str.isspace holds, which are also those the regular expression's \s matches. */
  predicate IsSpace(c: char) {
    var n := c as int;
    9 <= n <= 13 || 28 <= n <= 32 || n == 133 || n == 160 || n == 5760 || 8192 <= n <= 8202
    || n == 8232 || n == 8233 || n == 8239 || n == 8287 || n == 12288
  }

  /** Every character outside a-z, 0-9 and white space becomes a blank. */
  function Scrub(text: string): string {
    seq(|text|, i requires 0 <= i < |text| => if IsWordChar(text[i]) || IsSpace(text[i]) then text[i] else ' ')
  }

  /** The maximal runs of characters that are not spaces, whatever a space is. */
  function SplitBy(space: char -> bool, text: string): (words: seq<Word>)
    ensures text != "" && !space(text[|text| - 1]) ==> words != []
  {
    if text == "" then []
    else
      var n := |text| - 1;
      Grown(space, SplitBy(space, text[..n]), n == 0 || space(text[n - 1]), text[n])
  }

  /** What one more character makes of the words so far: nothing, a new word, or a longer last word. */
  function Grown(space: char -> bool, words: seq<Word>, starts: bool, c: char): (r: seq<Word>)
    ensures !space(c) ==> r != []
  {
    if space(c) then words
    else if starts || words == [] then words + [[c]]
    else words[..|words| - 1] + [words[|words| - 1] + [c]]
  }

  function Space(): char -> bool {
    (c: char) => IsSpace(c)
  }

  /** str.split(). */
  function Split(text: string): seq<Word> {
    SplitBy(Space(), text)
  }

  function Join(words: seq<Word>): string {
    if words == [] then ""
    else if |words| == 1 then words[0]
    else Join(words[..|words| - 1]) + " " + words[|words| - 1]
  }

  lemma SplitGrows(space: char -> bool, text: string, c: char)
    ensures SplitBy(space, text + [c]) == Grown(space, SplitBy(space, text), Starts(space, text), c)
  {
    var longer, n := text + [c], |text|;
    assert longer[..n] == text && longer[n] == c;
    assert (n == 0 || space(longer[n - 1])) == Starts(space, text);
    assert SplitBy(space, longer) == Grown(space, SplitBy(space, longer[..n]), n == 0 || space(longer[n - 1]), longer[n]);
  }

  lemma GrownBehind(space: char -> bool, front: seq<Word>, words: seq<Word>, starts: bool, c: char)
    requires starts || words != []
    ensures Grown(space, front + words, starts, c) == front + Grown(space, words, starts, c)
  {
  }

  /** The next character starts a word here. */
  predicate Starts(space: char -> bool, text: string) {
    text == "" || space(text[|text| - 1])
  }

  /** What one more character does to the words of b it does to the same words behind others. */
  lemma OneMoreChar(space: char -> bool, text: string, b: string, c: char, words: seq<Word>)
    requires Starts(space, text) == Starts(space, b) && SplitBy(space, text) == words + SplitBy(space, b)
    ensures SplitBy(space, text + [c]) == words + SplitBy(space, b + [c])
  {
    SplitGrows(space, text, c);
    SplitGrows(space, b, c);
    GrownBehind(space, words, SplitBy(space, b), Starts(space, b), c);
  }

  /** b is split behind front as if it stood alone. */
  ghost predicate Parts(space: char -> bool, front: string, b: string) {
    SplitBy(space, front + b) == SplitBy(space, front) + SplitBy(space, b)
  }

  lemma PartsGrow(space: char -> bool, front: string, b: string, c: char)
    requires Starts(space, front) && Parts(space, front, b)
    ensures Parts(space, front, b + [c])
  {
    var text := front + b;
    StartsBehind(space, front, b);
    OneMoreChar(space, text, b, c, SplitBy(space, front));
    assert text + [c] == front + (b + [c]);
  }

  /** What follows a space is split as if it stood alone. */
  lemma {:induction false} SplitAfterSpace(space: char -> bool, front: string, b: string)
    requires Starts(space, front)
    ensures Parts(space, front, b)
  {
    if b == "" {
      assert front + b == front;
    } else {
      var init := b[..|b| - 1];
      SplitAfterSpace(space, front, init);
      PartsGrow(space, front, init, b[|b| - 1]);
      assert init + [b[|b| - 1]] == b;
    }
  }

  lemma StartsBehind(space: char -> bool, front: string, b: string)
    requires Starts(space, front)
    ensures Starts(space, front + b) == Starts(space, b)
  {
    if b == "" {
      assert front + b == front;
    } else {
      assert (front + b)[|front + b| - 1] == b[|b| - 1];
    }
  }

  /** A text without spaces is one word. */
  lemma {:induction false} SplitWord(space: char -> bool, w: Word)
    requires w != "" && forall i :: 0 <= i < |w| ==> !space(w[i])
    ensures SplitBy(space, w) == [w]
  {
    var init, c := w[..|w| - 1], w[|w| - 1];
    assert init + [c] == w;
    SplitGrows(space, init, c);
    if init != "" {
      SplitWord(space, init);
    } else {
      assert SplitBy(space, "") == [];
    }
  }

  lemma SplitLastWord(front: string, w: Word)
    requires front == "" || IsSpace(front[|front| - 1])
    requires w != "" && forall i :: 0 <= i < |w| ==> !IsSpace(w[i])
    ensures Split(front + w) == Split(front) + [w]
  {
    SplitAfterSpace(Space(), front, w);
    SplitWord(Space(), w);
  }

  /** A space at the end adds no word. */
  lemma SplitSpaceAtEnd(text: string, c: char)
    requires IsSpace(c)
    ensures Split(text + [c]) == Split(text)
  {
    SplitGrows(Space(), text, c);
  }

  /** Splitting undoes joining for words without white space. */
  lemma {:induction false} SplitJoin(words: seq<Word>)
    requires forall w :: w in words ==> w != "" && forall i :: 0 <= i < |w| ==> !IsSpace(w[i])
    ensures Split(Join(words)) == words
  {
    if words != [] {
      var n := |words| - 1;
      var w := words[n];
      assert w in words && words == words[..n] + [w];
      if n == 0 {
        SplitLastWord("", w);
        assert "" + w == w;
      } else {
        SplitJoin(words[..n]);
        var front := Join(words[..n]) + " ";
        SplitSpaceAtEnd(Join(words[..n]), ' ');
        SplitLastWord(front, w);
      }
    }
  }

  /** A space of any kind parts the words on its two sides; with a word alone splitting to itself this determines split. */
  lemma SplitAtSpace(a: string, space: char, b: string)
    requires IsSpace(space)
    ensures Split(a + [space] + b) == Split(a) + Split(b)
  {
    SplitAfterSpace(Space(), a + [space], b);
    SplitSpaceAtEnd(a, space);
  }

  lemma ScrubParts(a: string, c: char, b: string)
    requires !IsWordChar(c)
    ensures exists space :: IsSpace(space) && Scrub(a + [c] + b) == Scrub(a) + [space] + Scrub(b)
  {
    var space := if IsSpace(c) then c else ' ';
    assert Scrub(a + [c] + b) == Scrub(a) + [space] + Scrub(b);
  }

  /**
    The words of a text are its maximal runs of a-z and 0-9: any other character, white space or not, parts them,
    and a text of such characters only is one word.
   */
  lemma WordsAreRuns(a: string, c: char, b: string, w: Word)
    ensures !IsWordChar(c) ==> Split(Scrub(a + [c] + b)) == Split(Scrub(a)) + Split(Scrub(b))
    ensures IsClean(w) ==> Split(Scrub(w)) == [w]
    ensures Split(Scrub("")) == []
  {
    if !IsWordChar(c) {
      ScrubParts(a, c, b);
      var space :| IsSpace(space) && Scrub(a + [c] + b) == Scrub(a) + [space] + Scrub(b);
      SplitAtSpace(Scrub(a), space, Scrub(b));
    }
    if IsClean(w) {
      assert Scrub(w) == w && "" + w == w;
      SplitLastWord("", w);
    }
  }

  /** A join has no blank at either end and no two in a row, so with SplitJoin it separates the words by single blanks. */
  lemma {:induction false} JoinIsTight(ws: seq<Word>)
    requires forall w :: w in ws ==> IsClean(w)
    ensures var text := Join(ws);
      && (text == "" <==> ws == [])
      && (text != "" ==> text[0] != ' ' && text[|text| - 1] != ' ')
      && forall i :: 0 < i < |text| ==> !(text[i - 1] == ' ' && text[i] == ' ')
  {
    if ws != [] {
      var n := |ws| - 1;
      var w := ws[n];
      assert w in ws && ws == ws[..n] + [w] && forall i :: 0 <= i < |w| ==> w[i] != ' ';
      JoinIsTight(ws[..n]);
    }
  }

  lemma {:induction false} SplitOfScrubbedIsClean(text: string)
    requires forall i :: 0 <= i < |text| ==> IsWordChar(text[i]) || IsSpace(text[i])
    ensures forall w :: w in Split(text) ==> IsClean(w)
  {
    if text != "" {
      var n := |text| - 1;
      var before, after := Split(text[..n]), Split(text);
      SplitOfScrubbedIsClean(text[..n]);
      forall w | w in after ensures IsClean(w) {
        if w !in before {
          assert !IsSpace(text[n]) && w == after[|after| - 1];
          assert n > 0 && !IsSpace(text[n - 1]) ==> before[|before| - 1] in before;
        }
      }
    }
  }

  // ----- the word pipeline -----

  function MapWords(f: Word -> Word, ws: seq<Word>): (r: seq<Word>)
    ensures |r| == |ws|
  {
    seq(|ws|, i requires 0 <= i < |ws| => f(ws[i]))
  }

  /** Drops every word equal to the word just before it. */
  function Dedup(ws: seq<Word>): (r: seq<Word>)
    ensures |r| <= |ws|
  {
    if ws == [] then []
    else
      var n := |ws| - 1;
      if n > 0 && ws[n] == ws[n - 1] then Dedup(ws[..n]) else Dedup(ws[..n]) + [ws[n]]
  }

  function Keep(o: Options): Word -> bool {
    (w: Word) => o.stripStops ==> !IsStopWord(w)
  }

  function Canon(o: Options): Word -> Word {
    (w: Word) => if o.normalizeSynonyms then Canonical(w) else w
  }

  function Reduce(o: Options, ws: seq<Word>): seq<Word> {
    Dedup(MapWords(Canon(o), Filter(Keep(o), ws)))
  }

  ghost predicate NoRepeats(ws: seq<Word>) {
    forall i :: 0 < i < |ws| ==> ws[i] != ws[i - 1]
  }

  lemma {:induction false} DedupFacts(ws: seq<Word>)
    ensures NoRepeats(Dedup(ws))
    ensures forall w :: w in Dedup(ws) <==> w in ws
    ensures ws != [] ==> Dedup(ws) != [] && Dedup(ws)[|Dedup(ws)| - 1] == ws[|ws| - 1]
  {
    if ws != [] {
      var n := |ws| - 1;
      DedupFacts(ws[..n]);
      assert ws == ws[..n] + [ws[n]];
    }
  }

  lemma {:induction false} DedupNothing(ws: seq<Word>)
    requires NoRepeats(ws)
    ensures Dedup(ws) == ws
  {
    if ws != [] {
      var n := |ws| - 1;
      DedupNothing(ws[..n]);
      assert Dedup(ws) == Dedup(ws[..n]) + [ws[n]];
      assert ws == ws[..n] + [ws[n]];
    }
  }

  /** Repeating a word on the spot makes no difference; with DedupNothing this determines Dedup. */
  lemma {:induction false} DedupRepeat(a: seq<Word>, x: Word, b: seq<Word>)
    ensures Dedup(a + [x, x] + b) == Dedup(a + [x] + b)
  {
    var long, short := a + [x, x] + b, a + [x] + b;
    if b == [] {
      assert long[..|long| - 1] == short;
    } else {
      var init := b[..|b| - 1];
      DedupRepeat(a, x, init);
      assert long[..|long| - 1] == a + [x, x] + init && short[..|short| - 1] == a + [x] + init;
      assert long[|long| - 2] == short[|short| - 2];
    }
  }

  /** Both filters leave w as it is. */
  ghost predicate Fixed(keep: Word -> bool, canon: Word -> Word, w: Word) {
    keep(w) && canon(w) == w
  }

  lemma OptionsSettle(o: Options, w: Word)
    requires Keep(o)(w)
    ensures Fixed(Keep(o), Canon(o), Canon(o)(w))
  {
    CanonicalIsLeftAlone(w);
  }

  lemma {:induction false} MapMember(f: Word -> Word, ws: seq<Word>, x: Word)
    ensures x in MapWords(f, ws) <==> exists w :: w in ws && f(w) == x
  {
    if x in MapWords(f, ws) {
      var i :| 0 <= i < |ws| && MapWords(f, ws)[i] == x;
      assert ws[i] in ws;
    }
    if exists w :: w in ws && f(w) == x {
      var w :| w in ws && f(w) == x;
      var i :| 0 <= i < |ws| && ws[i] == w;
      assert MapWords(f, ws)[i] == x;
    }
  }

  /** What reducing leaves: exactly the canonical forms of the kept words, each fixed by both filters, with no adjacent repeats, and no more words than came in. */
  lemma ReduceFacts(o: Options, ws: seq<Word>)
    ensures var r := Reduce(o, ws);
      && NoRepeats(r) && |r| <= |ws|
      && (forall x :: x in r <==> exists w :: w in ws && Keep(o)(w) && Canon(o)(w) == x)
      && (forall x :: x in r ==> Fixed(Keep(o), Canon(o), x))
  {
    var kept := Filter(Keep(o), ws);
    var mapped := MapWords(Canon(o), kept);
    FilterMember(Keep(o), ws);
    DedupFacts(mapped);
    forall x ensures x in Reduce(o, ws) <==> exists w :: w in ws && Keep(o)(w) && Canon(o)(w) == x {
      MapMember(Canon(o), kept, x);
    }
    forall x | x in Reduce(o, ws) ensures Fixed(Keep(o), Canon(o), x) {
      var w :| w in ws && Keep(o)(w) && Canon(o)(w) == x;
      OptionsSettle(o, w);
    }
  }

  /** The last word kept so far, in the form it was given out. */
  function LastOut(words: seq<Word>): Word
    requires words != []
  {
    words[|words| - 1]
  }

  /**
    The reduction word by word, told by the options and the two lists: a stop word is dropped when stop words are
    stripped; any other word is given out, as its canonical form when synonyms are normalised, unless the word
    given out just before it in the kept list is the same.
   */
  lemma ReduceNextWord(o: Options, ws: seq<Word>, w: Word)
    ensures Reduce(o, []) == []
    ensures var before, after := Reduce(o, ws), Reduce(o, ws + [w]);
      var out := if o.normalizeSynonyms then Canonical(w) else w;
      after ==
        if o.stripStops && IsStopWord(w) then before
        else if before != [] && LastOut(before) == out then before
        else before + [out]
  {
    ReduceOne(Keep(o), Canon(o), ws, w);
  }

  lemma ReduceOne(keep: Word -> bool, canon: Word -> Word, ws: seq<Word>, w: Word)
    ensures var before, after := Dedup(MapWords(canon, Filter(keep, ws))), Dedup(MapWords(canon, Filter(keep, ws + [w])));
      after ==
        if !keep(w) then before
        else if before != [] && LastOut(before) == canon(w) then before
        else before + [canon(w)]
  {
    var kept, next := Filter(keep, ws), Filter(keep, ws + [w]);
    FilterOne(keep, ws, w);
    if keep(w) {
      MapOne(canon, kept, w);
      DedupOne(MapWords(canon, kept), canon(w));
    }
  }

  lemma FilterOne(keep: Word -> bool, ws: seq<Word>, w: Word)
    ensures Filter(keep, ws + [w]) == if keep(w) then Filter(keep, ws) + [w] else Filter(keep, ws)
  {
    FilterConcat(keep, ws, [w]);
    var one := [w];
    assert one[1..] == [];
    assert Filter(keep, one) == if keep(w) then [w] else [];
  }

  lemma MapOne(f: Word -> Word, ws: seq<Word>, w: Word)
    ensures MapWords(f, ws + [w]) == MapWords(f, ws) + [f(w)]
  {
  }

  lemma DedupOne(ws: seq<Word>, w: Word)
    ensures Dedup(ws + [w]) == if Dedup(ws) != [] && LastOut(Dedup(ws)) == w then Dedup(ws) else Dedup(ws) + [w]
  {
    assert (ws + [w])[..|ws|] == ws;
    DedupFacts(ws);
  }

  lemma ReduceNothing(keep: Word -> bool, canon: Word -> Word, ws: seq<Word>)
    requires NoRepeats(ws) && forall w :: w in ws ==> Fixed(keep, canon, w)
    ensures Dedup(MapWords(canon, Filter(keep, ws))) == ws
  {
    FilterAll(keep, ws);
    assert MapWords(canon, ws) == ws by {
      forall i | 0 <= i < |ws| ensures canon(ws[i]) == ws[i] {
        var w := ws[i];
        assert w in ws;
      }
    }
    DedupNothing(ws);
  }

  lemma ReduceIsIdempotent(o: Options, ws: seq<Word>)
    ensures Reduce(o, Reduce(o, ws)) == Reduce(o, ws)
  {
    ReduceFacts(o, ws);
    ReduceNothing(Keep(o), Canon(o), Reduce(o, ws));
  }

  // ----- the whole pipeline -----

  function WordsOf(lowered: string -> string, text: string): seq<Word> {
    Split(Scrub(lowered(text)))
  }

  function Compress(o: Options, lowered: string -> string, text: string): string {
    Join(Reduce(o, WordsOf(lowered, text)))
  }

  /** Lower-case ASCII words and blanks. */
  predicate IsPlain(text: string) {
    forall i :: 0 <= i < |text| ==> IsWordChar(text[i]) || text[i] == ' '
  }

  lemma {:induction false} JoinIsPlain(ws: seq<Word>)
    requires forall w :: w in ws ==> IsClean(w)
    ensures IsPlain(Join(ws))
  {
    if ws != [] {
      var n := |ws| - 1;
      assert ws[n] in ws && ws == ws[..n] + [ws[n]];
      JoinIsPlain(ws[..n]);
    }
  }

  lemma CanonIsClean(o: Options, w: Word)
    requires IsClean(w)
    ensures IsClean(Canon(o)(w))
  {
    CanonicalIsLeftAlone(w);
  }

  lemma ReduceKeepsClean(o: Options, ws: seq<Word>)
    requires forall w :: w in ws ==> IsClean(w)
    ensures forall w :: w in Reduce(o, ws) ==> IsClean(w)
  {
    ReduceFacts(o, ws);
    forall x | x in Reduce(o, ws) ensures IsClean(x) {
      var w :| w in ws && Keep(o)(w) && Canon(o)(w) == x;
      CanonIsClean(o, w);
    }
  }

  /**
    Compression is a projection: for every text and both option flags, compressing a compressed text changes
    nothing, given a normaliser that leaves lower-case ASCII words alone; and reading the output back gives the reduced words.
   */
  lemma CompressIsIdempotent(o: Options, lowered: string -> string, text: string)
    requires forall s :: IsPlain(s) ==> lowered(s) == s
    ensures Compress(o, lowered, Compress(o, lowered, text)) == Compress(o, lowered, text)
    ensures WordsOf(lowered, Compress(o, lowered, text)) == Reduce(o, WordsOf(lowered, text))
  {
    var words := WordsOf(lowered, text);
    var reduced, out := Reduce(o, words), Compress(o, lowered, text);
    SplitOfScrubbedIsClean(Scrub(lowered(text)));
    ReduceKeepsClean(o, words);
    JoinIsPlain(reduced);
    assert Scrub(out) == out;
    SplitJoin(reduced);
    ReduceIsIdempotent(o, words);
  }

  // ----- the mutable object -----

  class CognitiveCompressor {
    const options: Options
    const lowered: string -> string
    var calls: nat
    var wordsIn: nat
    var wordsOut: nat

    ghost predicate Valid()
      reads this
    {
      wordsOut <= wordsIn
    }

    constructor (options: Options, lowered: string -> string)
      ensures Valid() && this.options == options && this.lowered == lowered && calls == wordsIn == wordsOut == 0
    {
      this.options, this.lowered := options, lowered;
      calls, wordsIn, wordsOut := 0, 0, 0;
    }

    method CompressText(text: string) returns (r: string)
      requires Valid()
      modifies this
      ensures Valid() && r == Compress(options, lowered, text)
      ensures calls == old(calls) + 1
      ensures wordsIn == old(wordsIn) + |WordsOf(lowered, text)|
      ensures wordsOut == old(wordsOut) + |Reduce(options, WordsOf(lowered, text))|
    {
      calls := calls + 1;
      var words := Split(Scrub(lowered(text)));
      wordsIn := wordsIn + |words|;
      ReduceFacts(options, words);
      words := Filter(Keep(options), words);
      words := MapWords(Canon(options), words);
      var deduped := Deduplicate(words);
      wordsOut := wordsOut + |deduped|;
      return Join(deduped);
    }

    /** The loop with prev. */
    method Deduplicate(words: seq<Word>) returns (deduped: seq<Word>)
      ensures deduped == Dedup(words)
    {
      deduped := [];
      var prev: seq<Word> := [];
      for i := 0 to |words|
        invariant deduped == Dedup(words[..i])
        invariant prev == if i == 0 then [] else [words[i - 1]]
      {
        assert words[..i + 1][..i] == words[..i];
        if prev != [words[i]] {
          deduped := deduped + [words[i]];
        }
        prev := [words[i]];
      }
      assert words[..|words|] == words;
    }

    /** The ratio stays within [0, 1] in every run, since no call gives out more words than it takes in. */
    function CompressionRatio(): (r: real)
      requires Valid()
      reads this
      ensures 0.0 <= r <= 1.0
      ensures wordsIn > 0 ==> r == (wordsIn - wordsOut) as real / wordsIn as real
    {
      if wordsIn == 0 then 0.0
      else
        RatioBound(wordsOut, wordsIn);
        1.0 - wordsOut as real / wordsIn as real
    }
  }

  lemma RatioBound(out: nat, inn: nat)
    requires out <= inn && inn > 0
    ensures 0.0 <= out as real / inn as real <= 1.0
  {
  }
}

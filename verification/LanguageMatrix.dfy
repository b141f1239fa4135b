/**
  Multilingual hypervectors: a word's vector is its language anchor bound to a base vector, a text is the
  bundle of its words, and translation unbinds one anchor and binds another. Hash-seeded random generation is
  an opaque function, as is lower-casing.
 */
module LanguageMatrix {
  import opened Wrappers
  import opened Hypervectors

  type Code = string
  type Word = string

  type Anchors = map<Code, Vector>

  /** The opaque parts: the base vector seeded by language and word, the anchor seeded by a language name, and lower-casing. */
  datatype Seeds = Seeds(base: (Code, Word) -> Vector, anchor: string -> Vector, lower: string -> string)

  /** The anchor under the code as given, else under its lower-case form. */
  function AnchorOf(anchors: Anchors, seeds: Seeds, lang: Code): Option<Vector> {
    if lang in anchors then Some(anchors[lang])
    else if seeds.lower(lang) in anchors then Some(anchors[seeds.lower(lang)])
    else None
  }

  ghost predicate WellSized(anchors: Anchors, seeds: Seeds, d: nat) {
    && (forall l :: l in anchors ==> Bipolar(anchors[l], d))
    && (forall l, w :: Bipolar(seeds.base(l, w), d))
    && forall name :: Bipolar(seeds.anchor(name), d)
  }

  lemma AnchorIsBipolar(anchors: Anchors, seeds: Seeds, d: nat, lang: Code)
    requires WellSized(anchors, seeds, d)
    ensures AnchorOf(anchors, seeds, lang).Some? ==> Bipolar(AnchorOf(anchors, seeds, lang).value, d)
  {
  }

  // ----- translation -----

  function Translate(v: Vector, source: Vector, target: Vector): Vector
    requires |v| == |source| == |target|
  {
    Bind(Bind(v, source), target)
  }

  function TranslateAll(vs: seq<Vector>, source: Vector, target: Vector): (r: seq<Vector>)
    requires |source| == |target| && forall k :: 0 <= k < |vs| ==> |vs[k]| == |source|
    ensures |r| == |vs| && forall k :: 0 <= k < |vs| ==> r[k] == Translate(vs[k], source, target)
  {
    seq(|vs|, k requires 0 <= k < |vs| => Translate(vs[k], source, target))
  }

  /** Translations compose, so going there and back is the identity. */
  lemma TranslationsCompose(v: Vector, a: Vector, b: Vector, c: Vector)
    requires Bipolar(a, |v|) && Bipolar(b, |v|) && Bipolar(c, |v|)
    ensures Translate(Translate(v, a, b), b, c) == Translate(v, a, c)
    ensures Translate(Translate(v, a, b), b, a) == v
  {
    BindInverts(Bind(v, a), b);
    BindInverts(v, a);
  }

  /** translate_hypervector: None is the error for an unknown language on either side. */
  function TranslateBetween(anchors: Anchors, seeds: Seeds, v: Vector, source: Code, target: Code, d: nat): Option<Vector>
    requires WellSized(anchors, seeds, d) && |v| == d
  {
    var a, b := AnchorOf(anchors, seeds, source), AnchorOf(anchors, seeds, target);
    if a.None? || b.None? then None else Some(Translate(v, a.value, b.value))
  }

  /** Translating a vector bound to one anchor binds it to the other; a language translates to itself unchanged. */
  lemma TranslationMovesAnchor(x: Vector, a: Vector, b: Vector)
    requires Bipolar(a, |x|) && Bipolar(b, |x|)
    ensures Translate(Bind(a, x), a, b) == Bind(b, x)
    ensures Translate(x, a, a) == x
  {
    forall i | 0 <= i < |x| ensures a[i] * x[i] * a[i] * b[i] == b[i] * x[i] && x[i] * a[i] * a[i] == x[i] {}
  }

  /** A code in the table has its own anchor, any other that of its lower-case form, and one unknown either way is an error; a word translates exactly when both languages are known, to the same base vector under the other anchor. */
  lemma WordTranslates(anchors: Anchors, seeds: Seeds, word: Word, source: Code, target: Code, d: nat)
    requires WellSized(anchors, seeds, d)
    ensures source in anchors ==> AnchorOf(anchors, seeds, source) == Some(anchors[source])
    ensures source !in anchors && seeds.lower(source) in anchors ==> AnchorOf(anchors, seeds, source) == Some(anchors[seeds.lower(source)])
    ensures var v := WordVector(anchors, seeds, word, source, d);
      v.None? <==> source !in anchors && seeds.lower(source) !in anchors
    ensures var v, b := WordVector(anchors, seeds, word, source, d), AnchorOf(anchors, seeds, target);
      v.Some? ==>
        TranslateBetween(anchors, seeds, v.value, source, target, d) ==
          if b.None? then None else Some(Bind(b.value, seeds.base(source, seeds.lower(word))))
  {
    var a, b := AnchorOf(anchors, seeds, source), AnchorOf(anchors, seeds, target);
    AnchorIsBipolar(anchors, seeds, d, source);
    AnchorIsBipolar(anchors, seeds, d, target);
    if a.Some? && b.Some? {
      TranslationMovesAnchor(seeds.base(source, seeds.lower(word)), a.value, b.value);
    }
  }

  lemma {:induction false} TranslatedColumn(vs: seq<Vector>, a: Vector, b: Vector, i: nat)
    requires |a| == |b| && i < |a| && forall k :: 0 <= k < |vs| ==> |vs[k]| == |a|
    ensures ColumnSum(TranslateAll(vs, a, b), i) == ColumnSum(vs, i) * (a[i] * b[i])
  {
    if vs != [] {
      var n := |vs| - 1;
      TranslatedColumn(vs[..n], a, b, i);
      assert TranslateAll(vs, a, b)[..n] == TranslateAll(vs[..n], a, b);
      assert vs[n][i] * a[i] * b[i] == vs[n][i] * (a[i] * b[i]);
      assert (ColumnSum(vs[..n], i) + vs[n][i]) * (a[i] * b[i])
          == ColumnSum(vs[..n], i) * (a[i] * b[i]) + vs[n][i] * (a[i] * b[i]);
    }
  }

  /** The tie-breaks of the two sides agree: where a column is tied, the later one is the earlier one translated. */
  ghost predicate TiesTranslate(vs: seq<Vector>, a: Vector, b: Vector, before: Vector, after: Vector)
    requires |a| == |b| == |before| == |after| && forall k :: 0 <= k < |vs| ==> |vs[k]| == |a|
  {
    forall i :: 0 <= i < |a| && ColumnSum(vs, i) == 0 ==> after[i] == before[i] * a[i] * b[i]
  }

  /** Translating a bundle equals bundling the translations exactly when the random tie-breaks of the tied columns translate too. */
  lemma BundleCommutesExactly(vs: seq<Vector>, d: nat, a: Vector, b: Vector, before: Vector, after: Vector)
    requires vs != [] && AllBipolar(vs, d) && Bipolar(a, d) && Bipolar(b, d) && |before| == |after| == d
    ensures Translate(Bundle(vs, d, before), a, b) == Bundle(TranslateAll(vs, a, b), d, after)
      <==> TiesTranslate(vs, a, b, before, after)
  {
    var left, right := Translate(Bundle(vs, d, before), a, b), Bundle(TranslateAll(vs, a, b), d, after);
    forall i | 0 <= i < d ensures left[i] == right[i] <==> (ColumnSum(vs, i) == 0 ==> after[i] == before[i] * a[i] * b[i]) {
      TranslatedColumn(vs, a, b, i);
      SignOfProduct(ColumnSum(vs, i), a[i], b[i]);
    }
  }

  lemma SignOfProduct(s: int, x: int, y: int)
    requires (x == 1 || x == -1) && (y == 1 || y == -1)
    ensures s != 0 ==> forall t, u :: Sign(s * (x * y), t) == Sign(s, u) * x * y
    ensures s == 0 ==> s * (x * y) == 0
  {
  }

  /** An odd number of words leaves no ties, so translation commutes with bundling whatever the random tie-breaks are. */
  lemma OddTextTranslatesWordwise(vs: seq<Vector>, d: nat, a: Vector, b: Vector, before: Vector, after: Vector)
    requires |vs| % 2 == 1 && AllBipolar(vs, d) && Bipolar(a, d) && Bipolar(b, d) && |before| == |after| == d
    ensures Translate(Bundle(vs, d, before), a, b) == Bundle(TranslateAll(vs, a, b), d, after)
  {
    forall i | 0 <= i < d ensures ColumnSum(vs, i) != 0 {
      ColumnParity(vs, d, i);
    }
    BundleCommutesExactly(vs, d, a, b, before, after);
  }

  // ----- words and texts -----

  /** A word's vector, computed afresh; None is the error for an unknown language. */
  function WordVector(anchors: Anchors, seeds: Seeds, word: Word, lang: Code, d: nat): Option<Vector>
    requires WellSized(anchors, seeds, d)
  {
    var anchor := AnchorOf(anchors, seeds, lang);
    if anchor.None? then None else Some(Bind(anchor.value, seeds.base(lang, seeds.lower(word))))
  }

  function WordVectors(anchors: Anchors, seeds: Seeds, words: seq<Word>, lang: Code, d: nat): (vs: seq<Vector>)
    requires WellSized(anchors, seeds, d) && AnchorOf(anchors, seeds, lang).Some?
    ensures |vs| == |words|
    ensures forall k :: 0 <= k < |words| ==> Some(vs[k]) == WordVector(anchors, seeds, words[k], lang, d)
    ensures AllBipolar(vs, d)
  {
    seq(|words|, k requires 0 <= k < |words| => WordVector(anchors, seeds, words[k], lang, d).value)
  }

  type Cache = map<(Word, Code), Vector>

  /** Every cached vector is what would be computed now. */
  ghost predicate Coherent(anchors: Anchors, seeds: Seeds, cache: Cache, d: nat) {
    forall w, l :: (w, l) in cache ==>
      && AnchorOf(anchors, seeds, l).Some?
      && |AnchorOf(anchors, seeds, l).value| == |seeds.base(l, w)| == d
      && cache[(w, l)] == Bind(AnchorOf(anchors, seeds, l).value, seeds.base(l, w))
  }

  /** add_language ignores a code it already has. */
  function AddedLanguage(anchors: Anchors, seeds: Seeds, code: Code, name: string): Anchors {
    if code in anchors then anchors else anchors[code := seeds.anchor(name)]
  }

  lemma BindDetermines(a: Vector, b: Vector, x: Vector)
    requires |a| == |b| == |x| && Bipolar(x, |x|) && Bind(a, x) == Bind(b, x)
    ensures a == b
  {
    BindInverts(a, x);
    BindInverts(b, x);
  }

  /**
    The word cache is never invalidated. Adding a language keeps it coherent exactly when the code was already
    there, or no word is cached under that very code (a word is when the code served before as an upper-case
    alias), or the new anchor equals the one in use.
   */
  lemma AddLanguageKeepsCacheExactly(anchors: Anchors, seeds: Seeds, cache: Cache, d: nat, code: Code, name: string)
    requires WellSized(anchors, seeds, d) && Coherent(anchors, seeds, cache, d)
    ensures WellSized(AddedLanguage(anchors, seeds, code, name), seeds, d)
    ensures Coherent(AddedLanguage(anchors, seeds, code, name), seeds, cache, d) <==>
      code in anchors || (forall w :: (w, code) !in cache) || AnchorOf(anchors, seeds, code) == Some(seeds.anchor(name))
  {
    var after := AddedLanguage(anchors, seeds, code, name);
    forall w, l | (w, l) in cache && l != code ensures AnchorOf(after, seeds, l) == AnchorOf(anchors, seeds, l) {
      assert AnchorOf(anchors, seeds, l).Some?;
    }
    if Coherent(after, seeds, cache, d) && code !in anchors && exists w :: (w, code) in cache {
      var w :| (w, code) in cache;
      BindDetermines(AnchorOf(anchors, seeds, code).value, seeds.anchor(name), seeds.base(code, w));
    }
  }

  // ----- the mutable object -----

  class Matrix {
    const dimensions: nat
    const seeds: Seeds
    var anchors: Anchors
    var wordCache: Cache

    ghost predicate Valid()
      reads this
    {
      WellSized(anchors, seeds, dimensions) && Coherent(anchors, seeds, wordCache, dimensions)
    }

    constructor (dimensions: nat, seeds: Seeds, anchors: Anchors)
      requires WellSized(anchors, seeds, dimensions)
      ensures Valid() && this.dimensions == dimensions && this.seeds == seeds && this.anchors == anchors && wordCache == map[]
    {
      this.dimensions, this.seeds, this.anchors, wordCache := dimensions, seeds, anchors, map[];
    }

    /** Cached or not, the answer is the vector computed afresh. */
    method GetWordVector(word: Word, lang: Code) returns (r: Option<Vector>)
      requires Valid()
      modifies this`wordCache
      ensures Valid() && r == WordVector(anchors, seeds, word, lang, dimensions)
      ensures forall key :: key in old(wordCache) ==> key in wordCache && wordCache[key] == old(wordCache[key])
    {
      var key := (seeds.lower(word), lang);
      if key in wordCache {
        return Some(wordCache[key]);
      }
      var anchor := AnchorOf(anchors, seeds, lang);
      if anchor.None? {
        return None;
      }
      AnchorIsBipolar(anchors, seeds, dimensions, lang);
      var bound := Bind(anchor.value, seeds.base(lang, seeds.lower(word)));
      wordCache := wordCache[key := bound];
      return Some(bound);
    }

    method TranslateHypervector(v: Vector, source: Code, target: Code) returns (r: Option<Vector>)
      requires Valid() && |v| == dimensions
      ensures r == TranslateBetween(anchors, seeds, v, source, target, dimensions)
    {
      var sourceAnchor, targetAnchor := AnchorOf(anchors, seeds, source), AnchorOf(anchors, seeds, target);
      if sourceAnchor.None? || targetAnchor.None? {
        return None;
      }
      AnchorIsBipolar(anchors, seeds, dimensions, source);
      AnchorIsBipolar(anchors, seeds, dimensions, target);
      return Some(Bind(Bind(v, sourceAnchor.value), targetAnchor.value));
    }

    method EncodeText(words: seq<Word>, lang: Code, ties: Vector) returns (r: Option<Vector>)
      requires Valid() && |ties| == dimensions
      modifies this`wordCache
      ensures Valid()
      ensures r == if words == [] then Some(Bundle([], dimensions, ties))
        else if AnchorOf(anchors, seeds, lang).None? then None
        else Some(Bundle(WordVectors(anchors, seeds, words, lang, dimensions), dimensions, ties))
    {
      if words == [] {
        return Some(seq(dimensions, _ => 0));
      }
      var vectors: seq<Vector> := [];
      for i := 0 to |words|
        invariant Valid() && |vectors| == i
        invariant i > 0 ==> AnchorOf(anchors, seeds, lang).Some?
        invariant forall k :: 0 <= k < i ==> Some(vectors[k]) == WordVector(anchors, seeds, words[k], lang, dimensions)
      {
        var v := GetWordVector(words[i], lang);
        if v.None? {
          return None;
        }
        vectors := vectors + [v.value];
      }
      assert vectors == WordVectors(anchors, seeds, words, lang, dimensions);
      return Some(Bundle(vectors, dimensions, ties));
    }

    method AddLanguage(code: Code, name: string)
      requires Valid()
      modifies this`anchors
      ensures anchors == AddedLanguage(old(anchors), seeds, code, name)
      ensures Valid() <==> (
        || code in old(anchors)
        || (forall w :: (w, code) !in wordCache)
        || AnchorOf(old(anchors), seeds, code) == Some(seeds.anchor(name)))
    {
      AddLanguageKeepsCacheExactly(anchors, seeds, wordCache, dimensions, code, name);
      if code !in anchors {
        anchors := anchors[code := seeds.anchor(name)];
      }
    }
  }
}

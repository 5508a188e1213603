/**
 * The glyph-table merge of the amalgamation script: glyphs of one source
 * font are inserted, one after another, into a target font keyed by glyph
 * name. The first glyph stored under a name keeps it; a later glyph with
 * that name is stored under "name.suffix" when a suffix is given and that
 * name is still free, and is dropped otherwise.
 */
module GlyphMerge {
  import opened Wrappers

  /** A glyph of a source font: its name and its (opaque) outline data. */
  datatype Glyph<G> = Glyph(name: string, data: G)

  /** The name a colliding glyph is offered: `name.suffix`, or the name itself without a suffix. */
  function SuffixedName(name: string, suffix: Option<string>): string
  {
    match suffix
    case None => name
    case Some(s) => name + "." + s
  }

  /** One iteration of the merge loop: where glyph `g` lands in table `t`, if anywhere. */
  function InsertGlyph<G>(t: map<string, G>, g: Glyph<G>, suffix: Option<string>): map<string, G>
  {
    var suffixed := SuffixedName(g.name, suffix);
    if g.name in t then
      if suffixed !in t then t[suffixed := g.data] else t
    else
      t[g.name := g.data]
  }

  /** The table after merging the glyphs of `source`, in order, into `t`. */
  function Merge<G>(t: map<string, G>, source: seq<Glyph<G>>, suffix: Option<string>): map<string, G>
    decreases |source|
  {
    if source == [] then t
    else InsertGlyph(Merge(t, source[..|source| - 1], suffix), source[|source| - 1], suffix)
  }

  /** The glyph names of a source font. */
  ghost function Names<G>(source: seq<Glyph<G>>): set<string>
  {
    set g | g in source :: g.name
  }

  /** Every name a merge of `source` may add: each glyph's own name and its suffixed name. */
  ghost function Candidates<G>(source: seq<Glyph<G>>, suffix: Option<string>): set<string>
  {
    Names(source) + set g | g in source :: SuffixedName(g.name, suffix)
  }

  /** Merging a concatenation is merging the parts one after the other. */
  lemma {:induction false} MergeAppend<G>(t: map<string, G>, a: seq<Glyph<G>>, b: seq<Glyph<G>>, suffix: Option<string>)
    ensures Merge(t, a + b, suffix) == Merge(Merge(t, a, suffix), b, suffix)
    decreases |b|
  {
    if b == [] {
      assert a + b == a;
    } else {
      var n := |b| - 1;
      assert (a + b)[..|a + b| - 1] == a + b[..n];
      assert (a + b)[|a + b| - 1] == b[n];
      MergeAppend(t, a, b[..n], suffix);
    }
  }

  /** First writer wins: a name already in the target keeps its glyph. */
  lemma {:induction false} MergeNeverOverwrites<G>(t: map<string, G>, source: seq<Glyph<G>>, suffix: Option<string>)
    ensures forall n :: n in t ==> n in Merge(t, source, suffix) && Merge(t, source, suffix)[n] == t[n]
    decreases |source|
  {
    if source != [] {
      MergeNeverOverwrites(t, source[..|source| - 1], suffix);
    }
  }

  /** Only a source glyph's own name or its suffixed name is ever added. */
  lemma {:induction false} MergeAddsOnlyCandidates<G>(t: map<string, G>, source: seq<Glyph<G>>, suffix: Option<string>)
    ensures Merge(t, source, suffix).Keys <= t.Keys + Candidates(source, suffix)
    decreases |source|
  {
    if source != [] {
      var n := |source| - 1;
      var init := source[..n];
      MergeAddsOnlyCandidates(t, init, suffix);
      forall g | g in init ensures g in source {
        var k :| 0 <= k < |init| && init[k] == g;
        assert source[k] == g;
      }
      assert source[n] in source;
    }
  }

  /** Each step adds at most one name, so the glyph count grows by at most the source's size. */
  lemma {:induction false} MergeCount<G>(t: map<string, G>, source: seq<Glyph<G>>, suffix: Option<string>)
    ensures |t| <= |Merge(t, source, suffix)| <= |t| + |source|
    decreases |source|
  {
    if source != [] {
      MergeCount(t, source[..|source| - 1], suffix);
    }
  }

  /**
   * A glyph whose name is free when its turn comes ends up in the target
   * under that name, with its own data.
   */
  lemma MergeKeepsFreeName<G>(t: map<string, G>, source: seq<Glyph<G>>, suffix: Option<string>, i: nat)
    requires i < |source|
    requires source[i].name !in Merge(t, source[..i], suffix)
    ensures source[i].name in Merge(t, source, suffix)
    ensures Merge(t, source, suffix)[source[i].name] == source[i].data
  {
    var head := source[..i + 1];
    assert head[..i] == source[..i];
    assert source == head + source[i + 1..];
    MergeAppend(t, head, source[i + 1..], suffix);
    MergeNeverOverwrites(Merge(t, head, suffix), source[i + 1..], suffix);
  }

  /**
   * A glyph whose name is taken when its turn comes is stored under its
   * suffixed name if and only if that name is free then; otherwise, and
   * always without a suffix, it leaves the target unchanged.
   */
  lemma MergeCollision<G>(t: map<string, G>, source: seq<Glyph<G>>, suffix: Option<string>, i: nat)
    requires i < |source|
    requires source[i].name in Merge(t, source[..i], suffix)
    ensures var before := Merge(t, source[..i], suffix);
            var alt := SuffixedName(source[i].name, suffix);
            Merge(t, source[..i + 1], suffix) == if alt in before then before else before[alt := source[i].data]
    ensures suffix.None? ==> Merge(t, source[..i + 1], suffix) == Merge(t, source[..i], suffix)
    ensures var alt := SuffixedName(source[i].name, suffix);
            alt !in Merge(t, source[..i], suffix) ==>
              alt in Merge(t, source, suffix) && Merge(t, source, suffix)[alt] == source[i].data
  {
    var head := source[..i + 1];
    assert head[..i] == source[..i];
    assert source == head + source[i + 1..];
    MergeAppend(t, head, source[i + 1..], suffix);
    MergeNeverOverwrites(Merge(t, head, suffix), source[i + 1..], suffix);
  }

  /** Without a suffix the merge adds exactly the source names not yet in the target. */
  lemma {:induction false} MergeWithoutSuffix<G>(t: map<string, G>, source: seq<Glyph<G>>)
    ensures Merge(t, source, None).Keys == t.Keys + Names(source)
    decreases |source|
  {
    if source != [] {
      var n := |source| - 1;
      var init := source[..n];
      MergeWithoutSuffix(t, init);
      assert source == init + [source[n]];
      forall g | g in source ensures g in init || g == source[n] {
        var k :| 0 <= k < |source| && source[k] == g;
        if k < n { assert init[k] == g; }
      }
      forall g | g in init ensures g in source {
        var k :| 0 <= k < |init| && init[k] == g;
        assert source[k] == g;
      }
    }
  }

  /** A target font: a glyph table updated in place. */
  class Font<G> {
    var glyphs: map<string, G>

    /** A new, empty font (what the defaultdict creates on first use). */
    constructor ()
      ensures glyphs == map[]
    {
      glyphs := map[];
    }
  }

  /**
   * Inserts the glyphs of `source` into `target`, in order, without ever
   * overwriting a glyph already there.
   */
  method InsertGlyphsInto<G>(source: seq<Glyph<G>>, target: Font<G>, suffix: Option<string>)
    modifies target
    ensures target.glyphs == Merge(old(target.glyphs), source, suffix)
    ensures forall n :: n in old(target.glyphs) ==> n in target.glyphs && target.glyphs[n] == old(target.glyphs)[n]
    ensures target.glyphs.Keys <= old(target.glyphs).Keys + Candidates(source, suffix)
  {
    for i := 0 to |source|
      invariant target.glyphs == Merge(old(target.glyphs), source[..i], suffix)
    {
      var glyph := source[i];
      var suffixedName := SuffixedName(glyph.name, suffix);
      if glyph.name in target.glyphs {
        if suffixedName !in target.glyphs {
          target.glyphs := target.glyphs[suffixedName := glyph.data];
        }
        // otherwise the glyph is dropped (the script only logs a warning)
      } else {
        target.glyphs := target.glyphs[glyph.name := glyph.data];
      }
      assert source[..i + 1][..i] == source[..i];
    }
    assert source[..|source|] == source;
    MergeNeverOverwrites(old(target.glyphs), source, suffix);
    MergeAddsOnlyCandidates(old(target.glyphs), source, suffix);
  }
}

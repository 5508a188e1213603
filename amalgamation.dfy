/**
 * The driver of the amalgamation script: every source font, from the
 * Glyphs files first and the UFO directories after, is merged into the
 * target font selected by its style key; a target is created empty the
 * first time its key is seen. A source without a style name aborts the run.
 */
module Amalgamation {
  import opened Wrappers
  import opened Naming
  import opened GlyphMerge

  /** One style of a font as the conversion libraries deliver it. */
  datatype SourceFont<G> = SourceFont(styleName: Option<string>, glyphs: seq<Glyph<G>>)

  /** A Glyphs source file: its path stem and the one font per style converted from it. */
  datatype GlyphsFile<G> = GlyphsFile(stem: string, masters: seq<SourceFont<G>>)

  /** A UFO source directory: its path stem and the font opened from it. */
  datatype UfoDir<G> = UfoDir(stem: string, font: SourceFont<G>)

  /** One unit of work: a source font and the stem of the path it came from. */
  datatype Job<G> = Job(stem: string, font: SourceFont<G>)

  /** The accumulated target glyph tables, keyed by style key. */
  type Targets<G> = map<string, map<string, G>>

  /** The target for `key`, empty when there is none yet (what the defaultdict hands out). */
  function TargetOf<G>(acc: Targets<G>, key: string): map<string, G>
  {
    if key in acc then acc[key] else map[]
  }

  /** Processing one source: resolve the key, fetch or create the target, merge into it. */
  function ProcessSource<G>(acc: Targets<G>, job: Job<G>): Result<Targets<G>, StyleError>
  {
    match AmalgamatedName(job.font.styleName)
    case Err(e) => Err(e)
    case Ok(key) => Ok(acc[key := Merge(TargetOf(acc, key), job.font.glyphs, SuffixFromName(job.stem))])
  }

  /** Processing `jobs` in order, stopping at the first source without a style name. */
  function RunSources<G>(acc: Targets<G>, jobs: seq<Job<G>>): Result<Targets<G>, StyleError>
    decreases |jobs|
  {
    if jobs == [] then Ok(acc)
    else
      match RunSources(acc, jobs[..|jobs| - 1])
      case Err(e) => Err(e)
      case Ok(m) => ProcessSource(m, jobs[|jobs| - 1])
  }

  /** The jobs of one Glyphs file: each converted style, with the file's stem. */
  function MasterJobs<G>(file: GlyphsFile<G>): seq<Job<G>>
  {
    seq(|file.masters|, k requires 0 <= k < |file.masters| => Job(file.stem, file.masters[k]))
  }

  /** The jobs of the first sweep, file after file. */
  function FileJobs<G>(files: seq<GlyphsFile<G>>): seq<Job<G>>
    decreases |files|
  {
    if files == [] then [] else FileJobs(files[..|files| - 1]) + MasterJobs(files[|files| - 1])
  }

  /** The jobs of the second sweep, one per UFO directory. */
  function DirJobs<G>(dirs: seq<UfoDir<G>>): seq<Job<G>>
  {
    seq(|dirs|, k requires 0 <= k < |dirs| => Job(dirs[k].stem, dirs[k].font))
  }

  /** The whole run: both sweeps in order, starting from no targets. */
  function Amalgamated<G>(files: seq<GlyphsFile<G>>, dirs: seq<UfoDir<G>>): Result<Targets<G>, StyleError>
  {
    RunSources(map[], FileJobs(files) + DirJobs(dirs))
  }

  /** The file name a target is saved under. */
  function OutputPath(style: string): string
  {
    "NotoAmalgamated-" + RemoveSpaces(style) + ".ufo"
  }

  /** The jobs, in order, whose source resolves to the style key `key`. */
  ghost function Matching<G>(jobs: seq<Job<G>>, key: string): seq<Job<G>>
    decreases |jobs|
  {
    if jobs == [] then []
    else
      var last := jobs[|jobs| - 1];
      Matching(jobs[..|jobs| - 1], key) + (if AmalgamatedName(last.font.styleName) == Ok(key) then [last] else [])
  }

  /** Merging the glyphs of `jobs`, each with its own suffix, into one table. */
  ghost function MergeJobs<G>(t: map<string, G>, jobs: seq<Job<G>>): map<string, G>
    decreases |jobs|
  {
    if jobs == [] then t
    else
      var last := jobs[|jobs| - 1];
      Merge(MergeJobs(t, jobs[..|jobs| - 1]), last.font.glyphs, SuffixFromName(last.stem))
  }

  /** The run fails exactly when some source has no style name. */
  lemma {:induction false} RunFailsIffMissingStyle<G>(acc: Targets<G>, jobs: seq<Job<G>>)
    ensures RunSources(acc, jobs).Err? <==> exists i :: 0 <= i < |jobs| && jobs[i].font.styleName.None?
    decreases |jobs|
  {
    if jobs != [] {
      var n := |jobs| - 1;
      RunFailsIffMissingStyle(acc, jobs[..n]);
      if exists i :: 0 <= i < n && jobs[..n][i].font.styleName.None? {
        var i :| 0 <= i < n && jobs[..n][i].font.styleName.None?;
        assert jobs[i].font.styleName.None?;
      }
      if exists i :: 0 <= i < |jobs| && jobs[i].font.styleName.None? {
        var i :| 0 <= i < |jobs| && jobs[i].font.styleName.None?;
        if i < n {
          assert jobs[..n][i].font.styleName.None?;
        }
      }
    }
  }

  /**
   * Grouping: after a successful run, the target for every key is what
   * merging, in order, exactly the sources with that style key into the
   * key's initial target gives; a key has a target exactly when it had one
   * before or some source resolves to it.
   */
  lemma {:induction false} RunGroupsByStyleKey<G>(acc: Targets<G>, jobs: seq<Job<G>>)
    requires RunSources(acc, jobs).Ok?
    ensures forall k :: TargetOf(RunSources(acc, jobs).value, k) == MergeJobs(TargetOf(acc, k), Matching(jobs, k))
    ensures forall k :: k in RunSources(acc, jobs).value <==> k in acc || Matching(jobs, k) != []
    decreases |jobs|
  {
    if jobs != [] {
      var n := |jobs| - 1;
      var init := jobs[..n];
      var last := jobs[n];
      RunGroupsByStyleKey(acc, init);
      var m := RunSources(acc, init).value;
      var key := AmalgamatedName(last.font.styleName).value;
      forall k
        ensures TargetOf(RunSources(acc, jobs).value, k) == MergeJobs(TargetOf(acc, k), Matching(jobs, k))
        ensures k in RunSources(acc, jobs).value <==> k in acc || Matching(jobs, k) != []
      {
        if k == key {
          assert (Matching(init, k) + [last])[..|Matching(init, k)|] == Matching(init, k);
        } else {
          assert Matching(jobs, k) == Matching(init, k);
        }
      }
    }
  }

  /** First writer wins across the whole run: no glyph already in a target is replaced. */
  lemma {:induction false} RunNeverOverwrites<G>(acc: Targets<G>, jobs: seq<Job<G>>)
    requires RunSources(acc, jobs).Ok?
    ensures forall k, n :: k in acc && n in acc[k] ==>
      k in RunSources(acc, jobs).value && n in RunSources(acc, jobs).value[k] &&
      RunSources(acc, jobs).value[k][n] == acc[k][n]
    decreases |jobs|
  {
    if jobs != [] {
      var n := |jobs| - 1;
      RunNeverOverwrites(acc, jobs[..n]);
      var m := RunSources(acc, jobs[..n]).value;
      var key := AmalgamatedName(jobs[n].font.styleName).value;
      MergeNeverOverwrites(TargetOf(m, key), jobs[n].font.glyphs, SuffixFromName(jobs[n].stem));
    }
  }

  /** Every target key is a space-free style key, so it survives the space removal of the output name. */
  lemma {:induction false} RunKeysSpaceFree<G>(acc: Targets<G>, jobs: seq<Job<G>>)
    requires forall k :: k in acc ==> ' ' !in k
    requires RunSources(acc, jobs).Ok?
    ensures forall k :: k in RunSources(acc, jobs).value ==> ' ' !in k && RemoveSpaces(k) == k
    decreases |jobs|
  {
    if jobs != [] {
      RunKeysSpaceFree(acc, jobs[..|jobs| - 1]);
    }
    forall k | k in RunSources(acc, jobs).value {
      RemoveSpacesFixed(k);
    }
  }

  /** Distinct style keys are saved to distinct files, so no target overwrites another's output. */
  lemma OutputPathsDistinct(a: string, b: string)
    requires ' ' !in a && ' ' !in b && a != b
    ensures OutputPath(a) != OutputPath(b)
  {
    RemoveSpacesFixed(a);
    RemoveSpacesFixed(b);
    assert OutputPath(a) == "NotoAmalgamated-" + a + ".ufo";
    assert OutputPath(b) == "NotoAmalgamated-" + b + ".ufo";
    assert OutputPath(a)[16..16 + |a|] == a;
    assert OutputPath(b)[16..16 + |b|] == b;
  }

  /** After a successful run every target is saved to a file of its own, named after its key. */
  lemma AmalgamatedOutputsDistinct<G>(files: seq<GlyphsFile<G>>, dirs: seq<UfoDir<G>>)
    requires Amalgamated(files, dirs).Ok?
    ensures forall k :: k in Amalgamated(files, dirs).value ==> OutputPath(k) == "NotoAmalgamated-" + k + ".ufo"
    ensures forall k1, k2 :: k1 in Amalgamated(files, dirs).value && k2 in Amalgamated(files, dirs).value && k1 != k2 ==>
      OutputPath(k1) != OutputPath(k2)
  {
    var targets := Amalgamated(files, dirs).value;
    RunKeysSpaceFree(map[], FileJobs(files) + DirJobs(dirs));
    forall k1, k2 | k1 in targets && k2 in targets && k1 != k2 ensures OutputPath(k1) != OutputPath(k2) {
      OutputPathsDistinct(k1, k2);
    }
  }

  /** A failure stays a failure however many sources follow it. */
  lemma {:induction false} RunErrPersists<G>(acc: Targets<G>, p: seq<Job<G>>, jobs: seq<Job<G>>)
    requires IsPrefix(p, jobs)
    requires RunSources(acc, p).Err?
    ensures RunSources(acc, jobs) == RunSources(acc, p)
    decreases |jobs|
  {
    if |p| == |jobs| {
      assert jobs[..|p|] == jobs;
    } else {
      var init := jobs[..|jobs| - 1];
      assert init[..|p|] == p;
      RunErrPersists(acc, p, init);
    }
  }

  /** The jobs of the first `i` Glyphs files come first among the jobs of all of them. */
  lemma {:induction false} FileJobsPrefix<G>(files: seq<GlyphsFile<G>>, i: nat)
    requires i <= |files|
    ensures IsPrefix(FileJobs(files[..i]), FileJobs(files))
    decreases |files|
  {
    if i == |files| {
      assert files[..i] == files;
    } else {
      var init := files[..|files| - 1];
      assert init[..i] == files[..i];
      FileJobsPrefix(init, i);
    }
  }

  /** Processing one more job continues from the state the jobs before it left. */
  lemma RunExtend<G>(acc: Targets<G>, prior: seq<Job<G>>, jobs: seq<Job<G>>, k: nat)
    requires k < |jobs|
    ensures RunSources(acc, prior + jobs[..k + 1]) ==
      match RunSources(acc, prior + jobs[..k])
      case Err(e) => Err(e)
      case Ok(m) => ProcessSource(m, jobs[k])
  {
    assert (prior + jobs[..k + 1])[..|prior + jobs[..k + 1]| - 1] == prior + jobs[..k];
  }

  /** A failure at job `k` is the failure of the whole sequence of jobs. */
  lemma RunExtendFails<G>(acc: Targets<G>, prior: seq<Job<G>>, jobs: seq<Job<G>>, k: nat)
    requires k < |jobs|
    requires RunSources(acc, prior + jobs[..k + 1]).Err?
    ensures RunSources(acc, prior + jobs) == RunSources(acc, prior + jobs[..k + 1])
  {
    assert (prior + jobs)[..|prior + jobs[..k + 1]|] == prior + jobs[..k + 1];
    RunErrPersists(acc, prior + jobs[..k + 1], prior + jobs);
  }

  /** A failure in the `i`-th Glyphs file is the failure of the whole first sweep. */
  lemma FileJobsFail<G>(files: seq<GlyphsFile<G>>, i: nat)
    requires i < |files|
    requires RunSources(map[], FileJobs(files[..i]) + MasterJobs(files[i])).Err?
    ensures RunSources(map[], FileJobs(files)) == RunSources(map[], FileJobs(files[..i]) + MasterJobs(files[i]))
  {
    assert files[..i + 1][..i] == files[..i];
    FileJobsPrefix(files, i + 1);
    RunErrPersists(map[], FileJobs(files[..i + 1]), FileJobs(files));
  }

  /**
   * The process-wide map from style key to target font. Distinct keys hold
   * distinct font objects, so merging into one target leaves the others
   * alone; `contents` is the glyph table of every target.
   */
  class Amalgamator<G> {
    var fonts: map<string, Font<G>>
    ghost var contents: Targets<G>
    ghost var Repr: set<object>

    ghost predicate Valid()
      reads this, Repr
    {
      && this in Repr
      && (forall k :: k in fonts ==> fonts[k] in Repr)
      && (forall k1, k2 :: k1 in fonts && k2 in fonts && k1 != k2 ==> fonts[k1] != fonts[k2])
      && contents.Keys == fonts.Keys
      && (forall k :: k in fonts ==> fonts[k].glyphs == contents[k])
    }

    constructor ()
      ensures Valid() && fresh(Repr) && contents == map[]
    {
      fonts := map[];
      contents := map[];
      Repr := {this};
    }

    /** The glyph tables of all targets, as they stand. */
    method Snapshot() returns (m: Targets<G>)
      requires Valid()
      ensures m == contents
    {
      m := map k | k in fonts :: fonts[k].glyphs;
    }

    /** The target for `key`, created empty on first use. */
    method Target(key: string) returns (target: Font<G>)
      requires Valid()
      modifies this
      ensures Valid() && fresh(Repr - old(Repr))
      ensures key in fonts && fonts[key] == target && target.glyphs == TargetOf(contents, key)
      ensures contents == old(contents)[key := TargetOf(old(contents), key)]
      ensures forall k :: k in fonts && k != key ==> fonts[k] != target
    {
      if key in fonts {
        target := fonts[key];
      } else {
        target := new Font();
        fonts := fonts[key := target];
        contents := contents[key := map[]];
        Repr := Repr + {target};
      }
    }

    /** Merges one source into the target of its style key; fails when it has no style name. */
    method AddSource(job: Job<G>) returns (r: Result<string, StyleError>)
      requires Valid()
      modifies Repr
      ensures Valid() && fresh(Repr - old(Repr))
      ensures r == AmalgamatedName(job.font.styleName)
      ensures r.Err? ==> contents == old(contents)
      ensures r.Ok? ==> contents == old(contents)[r.value :=
        Merge(TargetOf(old(contents), r.value), job.font.glyphs, SuffixFromName(job.stem))]
    {
      var suffix := SuffixFromName(job.stem);
      r := AmalgamatedName(job.font.styleName);
      if r.Err? {
        return;
      }
      var key := r.value;
      ghost var before := contents;
      var target := Target(key);
      ghost var merged := Merge(TargetOf(before, key), job.font.glyphs, suffix);
      InsertGlyphsInto(job.font.glyphs, target, suffix);
      contents := before[key := merged];
    }
  }

  /** Processes `jobs` in order after the jobs `prior`, stopping at the first source without a style name. */
  method ProcessJobs<G>(amalgamator: Amalgamator<G>, ghost prior: seq<Job<G>>, jobs: seq<Job<G>>)
    returns (r: Result<(), StyleError>)
    requires amalgamator.Valid() && RunSources(map[], prior) == Ok(amalgamator.contents)
    modifies amalgamator.Repr
    ensures amalgamator.Valid() && fresh(amalgamator.Repr - old(amalgamator.Repr))
    ensures RunSources(map[], prior + jobs) == if r.Ok? then Ok(amalgamator.contents) else Err(r.error)
  {
    assert prior + jobs[..0] == prior;
    for k := 0 to |jobs|
      invariant amalgamator.Valid() && fresh(amalgamator.Repr - old(amalgamator.Repr))
      invariant RunSources(map[], prior + jobs[..k]) == Ok(amalgamator.contents)
    {
      RunExtend(map[], prior, jobs, k);
      var key := amalgamator.AddSource(jobs[k]);
      if key.Err? {
        RunExtendFails(map[], prior, jobs, k);
        return Err(key.error);
      }
    }
    assert jobs[..|jobs|] == jobs;
    r := Ok(());
  }

  /** The first sweep: every style converted from every Glyphs file, file after file. */
  method SweepGlyphsFiles<G>(amalgamator: Amalgamator<G>, files: seq<GlyphsFile<G>>) returns (r: Result<(), StyleError>)
    requires amalgamator.Valid() && amalgamator.contents == map[]
    modifies amalgamator.Repr
    ensures amalgamator.Valid() && fresh(amalgamator.Repr - old(amalgamator.Repr))
    ensures RunSources(map[], FileJobs(files)) == if r.Ok? then Ok(amalgamator.contents) else Err(r.error)
  {
    for i := 0 to |files|
      invariant amalgamator.Valid() && fresh(amalgamator.Repr - old(amalgamator.Repr))
      invariant RunSources(map[], FileJobs(files[..i])) == Ok(amalgamator.contents)
    {
      assert files[..i + 1][..i] == files[..i];
      r := ProcessJobs(amalgamator, FileJobs(files[..i]), MasterJobs(files[i]));
      if r.Err? {
        FileJobsFail(files, i);
        return;
      }
    }
    assert files[..|files|] == files;
    r := Ok(());
  }

  /** The whole run: the Glyphs files first, then the UFO directories, into one set of targets. */
  method Amalgamate<G>(files: seq<GlyphsFile<G>>, dirs: seq<UfoDir<G>>) returns (r: Result<Targets<G>, StyleError>)
    ensures r == Amalgamated(files, dirs)
  {
    var amalgamator := new Amalgamator<G>();
    var first := SweepGlyphsFiles(amalgamator, files);
    if first.Err? {
      assert IsPrefix(FileJobs(files), FileJobs(files) + DirJobs(dirs));
      RunErrPersists(map[], FileJobs(files), FileJobs(files) + DirJobs(dirs));
      return Err(first.error);
    }
    var second := ProcessJobs(amalgamator, FileJobs(files), DirJobs(dirs));
    if second.Err? {
      return Err(second.error);
    }
    var targets := amalgamator.Snapshot();
    r := Ok(targets);
  }

  /** The style key and the suffixes of the sources in the two examples below. */
  lemma ExampleNames(displayStem: string, plainStem: string, style: string)
    requires displayStem == "Foo-Display" && plainStem == "Bar" && style == "Regular"
    ensures AmalgamatedName(Some(style)) == Ok(style)
    ensures SuffixFromName(displayStem) == Some("display")
    ensures SuffixFromName(plainStem) == None
  {
    RemoveSpacesFixed(style);
    assert displayStem[4..11] == "Display";
    SuffixFromNamePriority(displayStem);
    SuffixFromNamePriority(plainStem);
  }

  /**
   * Two "Regular" sources, Foo-Display (A, B) first and Bar (B, C) second:
   * Bar has no suffix, so its B is dropped and the target holds A, B and C.
   */
  lemma CollisionWithoutSuffixExample(fooStem: string, barStem: string, style: string, foo: SourceFont<int>, bar: SourceFont<int>)
    requires fooStem == "Foo-Display" && barStem == "Bar" && style == "Regular"
    requires foo == SourceFont(Some(style), [Glyph("A", 1), Glyph("B", 2)])
    requires bar == SourceFont(Some(style), [Glyph("B", 3), Glyph("C", 4)])
    ensures Amalgamated([GlyphsFile(fooStem, [foo])], [UfoDir(barStem, bar)])
      == Ok(map[style := map["A" := 1, "B" := 2, "C" := 4]])
  {
    ExampleNames(fooStem, barStem, style);
    var files := [GlyphsFile(fooStem, [foo])];
    var dirs := [UfoDir(barStem, bar)];
    assert files[..0] == [];
    var jobs := [Job(fooStem, foo), Job(barStem, bar)];
    assert FileJobs(files) + DirJobs(dirs) == jobs;
    assert jobs[..1] == [Job(fooStem, foo)];
    assert jobs[..1][..0] == [];
    assert foo.glyphs[..1] == [Glyph("A", 1)];
    assert foo.glyphs[..1][..0] == [];
    assert bar.glyphs[..1] == [Glyph("B", 3)];
    assert bar.glyphs[..1][..0] == [];
    var first := map["A" := 1, "B" := 2];
    var last := map["A" := 1, "B" := 2, "C" := 4];
    assert Merge(map[], foo.glyphs, Some("display")) == first;
    assert RunSources(map[], jobs[..1]) == Ok(map[style := first]);
    assert Merge(first, bar.glyphs, None) == last;
    assert map[style := first][style := last] == map[style := last];
    assert jobs[..|jobs| - 1] == jobs[..1];
  }

  /**
   * The same two sources the other way round, Bar (B, C) first: the
   * colliding B of Foo-Display is kept as "B.display".
   */
  lemma CollisionWithSuffixExample(fooStem: string, barStem: string, style: string, foo: SourceFont<int>, bar: SourceFont<int>)
    requires fooStem == "Foo-Display" && barStem == "Bar" && style == "Regular"
    requires foo == SourceFont(Some(style), [Glyph("A", 1), Glyph("B", 2)])
    requires bar == SourceFont(Some(style), [Glyph("B", 3), Glyph("C", 4)])
    ensures Amalgamated([GlyphsFile(barStem, [bar])], [UfoDir(fooStem, foo)])
      == Ok(map[style := map["B" := 3, "C" := 4, "A" := 1, "B.display" := 2]])
  {
    ExampleNames(fooStem, barStem, style);
    var files := [GlyphsFile(barStem, [bar])];
    var dirs := [UfoDir(fooStem, foo)];
    assert files[..0] == [];
    var jobs := [Job(barStem, bar), Job(fooStem, foo)];
    assert FileJobs(files) + DirJobs(dirs) == jobs;
    assert jobs[..1] == [Job(barStem, bar)];
    assert jobs[..1][..0] == [];
    assert foo.glyphs[..1] == [Glyph("A", 1)];
    assert foo.glyphs[..1][..0] == [];
    assert bar.glyphs[..1] == [Glyph("B", 3)];
    assert bar.glyphs[..1][..0] == [];
    var first := map["B" := 3, "C" := 4];
    var last := map["B" := 3, "C" := 4, "A" := 1, "B.display" := 2];
    assert Merge(map[], bar.glyphs, None) == first;
    assert RunSources(map[], jobs[..1]) == Ok(map[style := first]);
    assert SuffixedName("B", Some("display")) == "B.display";
    assert Merge(first, foo.glyphs, Some("display")) == last;
    assert map[style := first][style := last] == map[style := last];
    assert jobs[..|jobs| - 1] == jobs[..1];
  }
}

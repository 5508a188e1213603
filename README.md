# Noto amalgamation: a verified model of the glyph merge

`amalgamate-noto.py` merges the glyphs of many per-style Noto source fonts
(Glyphs files, then UFO directories) into one "amalgamated" UFO font per
style. Each source is assigned to a target by its style key (its style name
without spaces, with "Semibold" spelled "SemiBold"); a target is created
empty the first time its key is seen. Glyphs are merged first-writer-wins:
a name already in the target is never overwritten; a colliding glyph is
stored under `name.suffix`, where the suffix (display, mono, serif or sans)
comes from the source file's stem, provided a suffix exists and that name is
free; otherwise the glyph is dropped.

This project models that logic in Dafny and proves its properties.

- `wrappers.dfy`: `Option`, `Result` and the sequence prefix test `IsPrefix`.
- `naming.dfy` (module `Naming`): substring containment (`Contains`, checked
  against the reference notion `Occurs`), `SuffixFromName`, `RemoveSpaces`
  (Python's `str.replace(" ", "")`) and `AmalgamatedName`, whose missing
  style name is an `Err` rather than a `ValueError`.
- `glyph_merge.dfy` (module `GlyphMerge`): glyphs as `(name, data)` pairs
  with opaque data `G`. The specification function `Merge` folds the
  one-glyph step `InsertGlyph` over a source. The class `Font` is the target
  glyph table, and the method `InsertGlyphsInto` is the loop that updates a
  `Font` in place, proved equal to `Merge`. The lemmas state the merge
  policy.
- `amalgamation.dfy` (module `Amalgamation`): source fonts, Glyphs files and
  UFO directories as values. The specification fold `RunSources` runs over
  the jobs of both sweeps. The class `Amalgamator` is the style-key ->
  `Font` table (the `defaultdict`), and the methods `ProcessJobs`,
  `SweepGlyphsFiles` and `Amalgamate` are the two module-level loops, proved
  equal to `Amalgamated`. The lemmas cover grouping, failure, and output
  file names.

With two "Regular" sources, Foo-Display (A, B) followed by Bar (B, C),
Bar's B is dropped because Bar has no suffix, and no `B.display` is created
(`CollisionWithoutSuffixExample`).

## Model

| member | source | states |
|---|---|---|
| `GlyphMerge.InsertGlyphsInto` | amalgamate-noto.py:17-40 | the in-place loop leaves the target equal to `Merge` of its old table and the source; no old glyph changes; only candidate names are added |
| `GlyphMerge.MergeNeverOverwrites` | amalgamate-noto.py:25-40 | every name present before the merge is still present afterwards, with the same glyph |
| `GlyphMerge.MergeAddsOnlyCandidates` | amalgamate-noto.py:20-40 | every key after the merge was already there, or is a source glyph's name, or is that name with `.suffix` |
| `GlyphMerge.MergeKeepsFreeName` | amalgamate-noto.py:25-40 | a glyph whose name is free when its turn comes ends up in the final target under that name, with its own data |
| `GlyphMerge.MergeCollision` | amalgamate-noto.py:21-38 | a glyph whose name is taken is added under its suffixed name if and only if that name is free at that moment; otherwise, and always with no suffix, that step leaves the target unchanged; a glyph so added stays in the final target |
| `GlyphMerge.MergeWithoutSuffix` | amalgamate-noto.py:21-40 | with no suffix the merge adds exactly the source names that were not yet present |
| `GlyphMerge.MergeCount` | amalgamate-noto.py:20-40 | the glyph count never decreases and grows by at most the number of source glyphs |
| `GlyphMerge.MergeAppend` | amalgamate-noto.py:20-40 | merging a concatenated source is merging its two parts one after the other |
| `Naming.ContainsIffOccurs` | amalgamate-noto.py:45-51 | the scanning substring test is true exactly when some slice of the stem equals the word |
| `Naming.SuffixFromNamePriority` | amalgamate-noto.py:43-53 | the suffix is the tag of the first of Display, Mono, Serif, Sans that occurs in the stem, in that order, and is absent exactly when none occurs |
| `Naming.DisplayBeatsSerif` | amalgamate-noto.py:45-50 | every stem containing both "Display" and "Serif" gives "display" |
| `Naming.RemoveSpaces` | amalgamate-noto.py:59 | the result contains no space and is no longer than the input |
| `Naming.RemoveSpacesDeletesOnlySpaces` | amalgamate-noto.py:59 | the result holds every non-space character of the input exactly as often as the input does, and no space |
| `Naming.RemoveSpacesConcat` | amalgamate-noto.py:59 | space removal distributes over concatenation, so it works character by character and keeps the order |
| `Naming.RemoveSpacesFixed` | amalgamate-noto.py:59 | a string is unchanged by space removal exactly when it has no space |
| `Naming.AmalgamatedName` | amalgamate-noto.py:56-62 | fails exactly when the style name is absent; otherwise the key has no spaces, equals the stripped name, and becomes "SemiBold" exactly when the stripped name is "Semibold" |
| `Naming.AmalgamatedNameIdempotent` | amalgamate-noto.py:56-62 | a key resolves to itself, and the space removal applied when naming the output file leaves it unchanged |
| `Naming.SemiboldFixIsWholeName` | amalgamate-noto.py:59-61 | a name that strips to "Semibold" followed by more text keeps the lower-case spelling, so "Semibold Italic" gives "SemiboldItalic" |
| `Naming.SpaceDoesNotChangeKey` | amalgamate-noto.py:59-61 | style names that differ only by a space resolve to the same key, so their sources share a target |
| `Amalgamation.Amalgamator.Target` | amalgamate-noto.py:14 | the `defaultdict` lookup: returns the key's font, creating a fresh empty one on first use and leaving the other targets alone |
| `Amalgamation.Amalgamator.AddSource` | amalgamate-noto.py:75-77 | one source: fails with the style-name error and changes nothing, or merges the source's glyphs with its stem's suffix into its key's target |
| `Amalgamation.ProcessJobs` | amalgamate-noto.py:75-77 | processing a sequence of sources one by one gives exactly what `RunSources` gives, including the first failure |
| `Amalgamation.SweepGlyphsFiles` | amalgamate-noto.py:65-78 | the first sweep, over every style of every Glyphs file, gives what `RunSources` gives on those sources |
| `Amalgamation.Amalgamate` | amalgamate-noto.py:65-85 | the whole run, Glyphs files first and UFO directories after, returns exactly `Amalgamated` |
| `Amalgamation.RunFailsIffMissingStyle` | amalgamate-noto.py:56-58 | the run fails exactly when some source has no style name |
| `Amalgamation.RunGroupsByStyleKey` | amalgamate-noto.py:75-85 | each target is the in-order merge of exactly the sources with its style key; a key has a target exactly when some source resolves to it |
| `Amalgamation.RunNeverOverwrites` | amalgamate-noto.py:75-85 | across the whole run, no glyph already stored in a target is ever replaced |
| `Amalgamation.RunKeysSpaceFree` | amalgamate-noto.py:87-89 | every target key is free of spaces, so `style.replace(' ', '')` leaves it unchanged |
| `Amalgamation.OutputPathsDistinct` | amalgamate-noto.py:89 | two different space-free keys give two different output file names |
| `Amalgamation.AmalgamatedOutputsDistinct` | amalgamate-noto.py:87-89 | after a run, each target is saved as `NotoAmalgamated-<key>.ufo`, and no two targets share a file |
| `Amalgamation.CollisionWithoutSuffixExample` | amalgamate-noto.py:65-85 | Foo-Display (A, B) then Bar (B, C), both "Regular", give one target holding A, B (from Foo-Display) and C |
| `Amalgamation.CollisionWithSuffixExample` | amalgamate-noto.py:20-40 | Bar (B, C) then Foo-Display (A, B) give B, C, A and Foo-Display's B as "B.display" |

## Left out

- Path stems: `Path.stem` (line 44) is not computed. Each source carries the stem of its path.
- Discovery: globbing and sorting of the source tree (lines 65 and 80) are not modelled. The input sequences are taken to be in the sorted order.
- Conversion and opening: `glyphsLib.load`, `glyphsLib.to_ufos` and `ufoLib2.Font.open` (lines 69-73, 83) are foreign library calls. Their result is given as input: a Glyphs file is a stem and a list of source fonts, and a UFO directory is a stem and one source font.
- Saving: `ufo.save` (line 89) is file I/O. Only the output file name (`OutputPath`) is modelled, not the write.
- Logging and `print` (lines 33-38, 66, 78, 81, 88) are diagnostics and are left out. The collision warning reads the global `path`.
- Glyph internals: outlines, anchors and metrics are opaque data `G`. Not modelled: the `copy=False` insertion, which aliases the glyph object and renames it inside ufoLib2 (lines 29-31), and the split between `addGlyph` and the default layer's `insertGlyph`. The target is one glyph table.
- Aborted runs: a `ValueError` for a missing style name aborts the script, so the model returns only the error. The targets built before the error are dropped, as nothing is saved.
- Source glyph order: a source is the sequence its default layer iterates in. Distinct glyph names are not required, and the lemmas hold for any sequence.

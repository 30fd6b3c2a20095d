# azooKey for Windows: models and proofs

Dafny models of the parts of azooKey for Windows that carry the heaviest guarantees, with proofs of what those parts
promise. Each module follows one component of the program.

| file | component |
|---|---|
| `Utf8.dfy` | UTF-8 (sections 3 and 4 of RFC 3629), the strict decoder of the conversion-quality bench, byte order and code point order |
| `Sequences.dfy`, `Struct.dfy`, `Sorting.dfy` | facts about slices; little-endian records as Python's `struct` lays them out; `sorted` over a set of texts |
| `Aliases.dfy` | kana spelling variants of a key |
| `DoubleArray.dfy`, `TrieBuilder.dfy`, `TrieCheck.dfy` | the double-array trie: lookup, the builder, the trie part of the verifier |
| `Frame.dfy`, `Azdic.dfy`, `AzdicBuild.dfy`, `Lexicon.dfy` | the `.azdic` container, `verify`, `build` with `pack`, the merge in `load_entries` and the way from rows to an image |
| `AzdicBytes.dfy`, `AzdicLimits.dfy` | the format by byte positions, apart from the records the other modules use; an image past the format's limits |
| `Levenshtein.dfy`, `Evaluation.dfy`, `Ranking.dfy`, `Crlf.dfy` | the bench: edit distance, case judgement and totals, the ranking check, the line-ending normaliser |
| `Zip.dfy`, `ZipBytes.dfy` | the diagnostics ZIP writer and a reader for it; its headers by byte positions |
| `JsonPath.dfy`, `Settings.dfy` | dotted paths into settings.json and the merging save |
| `CatalogFetch.dfy`, `Progress.dfy` | the model pane's coroutines; its percentage and stall watch |
| `FindingRange.dfy`, `UserWords.dfy` | UTF-16 ranges of proofreading findings; UTF-8 trimming and kana folding of user words |

`dafny verify dfyconfig.toml` checks the whole project.

## Main results

- **Dictionary compiler.** `MakeTrie` compiles every ascending list of distinct nonempty NUL-free keys into a table on
  which lookup finds id `k` exactly for the `k`-th key, however large the table gets (`TrieCorrect`). `Verify` accepts
  exactly the images that satisfy a declarative description (`ImageOk`), whatever bytes it is given; that description is
  proved equal to one on byte positions and rule by rule (`FrameOnBytes`, `TablesSpelledOut`). An image that
  `Build` packs is accepted if and only if the slot numbered 0xFFFFFFFF has no child (`PackedAccepted`), and every key
  of a built image leads to exactly the entries whose reading spells it, in entry order (`Answers`). From rows to
  lookup: every spelling of every row's reading finds the row's entry (`Compile`, `EveryRowIsFound`).
- **Aliases.** The breadth-first search with its cap of eight equals a closed form: all `2^s` spellings when at most
  three sites occur, the key alone otherwise. Aliasing is symmetric, and an alias has the same aliases.
- **Metrics.** The two-row table computes the least cost over all edit scripts, and that cost is a metric. Over every
  completed evaluation run each counter is the number of cases that qualify and each sum the sum over them, per category
  and for the summary, and the counters obey conservation laws.
- **ZIP.** The writer succeeds exactly on archives whose fields fit, and a reader that starts at the end record gets
  back the same entries.
- **Settings.** The dotted-path pair is a lens; a save is a three-way merge in which loading the saved document gives
  every edited value back, each untouched switch keeps what is on disk, and every path that is not written is unchanged.
- **Model pane.** Safety over every interleaving of fetch, stop and refresh: which of the eight outcomes an ended fetch
  reports is decided by what the Host told and by the stops (`ReportsAreFaithful`), and every reachable state can come to
  rest.

## Where the code differs from what one might expect

- An accepted trie answers every word as its key texts would *if and only if* no slot with parent 0xFFFFFFFF sits where
  a child of slot 0xFFFFFFFF would and carries a key (`AgreesExactly`). Tables below 2^32 slots never have one;
  `OversizedImage` builds a larger image that `verify` accepts and in which a word that is no key finds a key.
- A child of slot 0xFFFFFFFF is stored with the parent value that means "none". No stored number overflows, so nothing
  is raised while building; the closing `verify` refuses the image, and does so only then (`BuiltAcceptedExactly`,
  `PackedAccepted`). Slot numbers beyond 0xFFFFFFFF that have children, and larger offsets, do not fit the 32-bit
  arrays, and Python raises.
- The `free` cursor of the slot search never leaves 1: slot 1 cannot be a child (offsets start at 1 and labels at 1), so
  the search always starts there.
- `grow` extends `base` and `depth` by four times as many items as the other arrays, since `array.extend` iterates over
  bytes; the surplus is never read.
- The ranking check accepts all comparisons whose sorted surface sequences are equal *if and only if* the surfaces are
  all distinct or all equal (`EqualOrdersAcceptedExactly`; `RepeatedSurfacesRejected` is a witness). For any surfaces it
  accepts exactly when both sorts order differing surfaces alike (`AcceptedExactly`).
- Normalising line endings twice is normalising them once *if and only if* no carriage return stands right before a
  CR LF pair (`IdempotentExactly`; `DoubledCr` is a witness).
- A generic integer beyond 2^53 that a field's rule allows would be saved and then not be read back, and the field would
  load as its default; every other value is read back (`JsonRoundTrip`).
- `CancelCatalogFetch` compares `fetching_id_` with the stopped id after the answer; in runs without exceptions that
  comparison never fails while a fetch runs (`StopMeetsItsFetch`).

## Model

| member | source | states |
|---|---|---|
| `Utf8.DecodeUtf8CodePoints` | bench/ConversionQuality.cpp:551-587 | Returns the one text whose encoding the bytes are, and fails exactly on bytes outside the grammar of section 4 of RFC 3629. |
| `Utf8.DecodeOne` | bench/ConversionQuality.cpp:554-584 | One character: the octets consumed are a character of the grammar with that code point, or the rest of the text is not well formed. |
| `Utf8.DecodeEncode` | bench/ConversionQuality.cpp:551-587 | Decoding undoes encoding for every text. |
| `Utf8.WellFormedEncodes` | bench/ConversionQuality.cpp:551-587 | Every sentence of the grammar is the encoding of some text, so nothing well formed is refused. |
| `Utf8.EncodeInjective` | bench/ConversionQuality.cpp:551-587 | Two texts with the same bytes are equal. |
| `Utf8.EncodeKeepsOrder` | dictbuild/dictbuild.py:229 | Python's string order and UTF-8 byte order agree, both ways. |
| `Utf8.LessAt` | dictbuild/dictbuild.py:50 | Texts are ordered by their first difference. |
| `Utf8.PrefixLess` | dictbuild/dictbuild.py:50 | A text comes before its continuations. |
| `Struct.UnpackPack` | dictbuild/dictbuild.py:223-235 | Packing fields that fit and unpacking gives the fields back. |
| `Struct.PackUnpack` | dictbuild/dictbuild.py:262-285 | Unpacking and packing gives the bytes back. |
| `Struct.UnpackPackAll` | dictbuild/dictbuild.py:283-285 | The same for tables of records. |
| `Struct.UnpackAt` | dictbuild/dictbuild.py:262-285 | A field of an unpacked record is the little-endian number at the field's place. |
| `Sorting.SortTexts` | dictbuild/dictbuild.py:50 | The ascending list of exactly the given texts. |
| `Aliases.Aliases` | dictbuild/dictbuild.py:33-50 | The search with its cap returns the ascending list of the closed-form alias set. |
| `Aliases.AliasCount` | dictbuild/dictbuild.py:33-50 | With `s` rewrite sites there are `2^s` aliases if `s <= 3`, else one. |
| `Aliases.AliasMeaning` | dictbuild/dictbuild.py:22-50 | For a key with at most three sites, a text is an alias exactly when both have the same canonical spelling. |
| `Aliases.AliasesAgree` | dictbuild/dictbuild.py:33-50 | An alias has the same aliases as the key, and the key is among them. |
| `Aliases.SelfAlias` | dictbuild/dictbuild.py:34 | A key is one of its own aliases. |
| `Aliases.StepKeepsCanon` | dictbuild/dictbuild.py:38-42 | Rewriting one occurrence of either side of a pair keeps the canonical spelling. |
| `Aliases.Connected` | dictbuild/dictbuild.py:36-49 | A set closed under the rewrites that holds one spelling holds every spelling with the same canonical form. |
| `Aliases.PairsSpelled` | dictbuild/dictbuild.py:22 | The three pairs by their characters: each side alone has exactly the two spellings as aliases. |
| `Aliases.Unpaired` | dictbuild/dictbuild.py:22 | A character outside the pairs has no alias but itself. |
| `DoubleArray.WalkSound` | dictbuild/dictbuild.py:184-189 | In a table of any size, following edges can only end at the slot whose path is the word followed, or at an unused slot that passes for a child of slot 0xFFFFFFFF. |
| `DoubleArray.WalkComplete` | dictbuild/dictbuild.py:184-189 | Every used slot is reached by its own path, which has no NUL. |
| `DoubleArray.LookupIsKeyList` | dictbuild/dictbuild.py:136-196 | On a table that represents a key list, lookup and list agree on every NUL-free word, unless a key has gone astray under slot 0xFFFFFFFF. |
| `TrieBuilder.Grow` | dictbuild/dictbuild.py:143-151 | The arrays grow to at least the size asked for, old slots keep their contents and new ones are free and unlinked. |
| `TrieBuilder.Allocate` | dictbuild/dictbuild.py:172-182 | Terminates with the least offset from 1 up at which every label's slot is free; the free cursor stays at 1. |
| `TrieBuilder.Split` | dictbuild/dictbuild.py:164-171 | The next bytes of a sorted key range in order, each with the contiguous range of keys that continue with it. |
| `TrieBuilder.Process` | dictbuild/dictbuild.py:157-189 | One turn of the breadth-first loop keeps the invariant: slots form a tree, queued slots own their key range, finished slots have exactly their children; what waits stays first in line. |
| `TrieBuilder.MakeTrie` | dictbuild/dictbuild.py:136-196 | The loop ends with a table that indexes exactly the keys, whatever its size, with slot 1 empty, no key outside the tree, a slot of the tree at its end and the size bounded by the letters of the keys. |
| `TrieBuilder.TrieCorrect` | dictbuild/dictbuild.py:136-196 | A NUL-free word finds id `k` if and only if it is the `k`-th key. |
| `TrieBuilder.WalkIsPrefix` | dictbuild/dictbuild.py:136-196 | Below 2^32 slots, a nonempty word leads to a slot if and only if some key continues it. |
| `TrieBuilder.FirstFitBound` | dictbuild/dictbuild.py:172-182 | First fit never starts beyond the last used slot. |
| `TrieCheck.ClimbToRoot` | dictbuild/dictbuild.py:300-308 | The walk over parents terminates on any table, and where the edges are sound it yields the path of every used slot from the root. |
| `TrieCheck.CheckTrie` | dictbuild/dictbuild.py:287-314 | Accepts exactly the node tables whose edges, key ids and key texts are sound, and returns the only texts that are. |
| `TrieCheck.AcceptedTrieIndexes` | dictbuild/dictbuild.py:287-314 | An accepted table of any size represents its key texts: the paths rebuilt from the parents form the tree that forward lookup follows. |
| `TrieCheck.IndexAccepted` | dictbuild/dictbuild.py:287-314 | A table that represents ascending nonempty NUL-free keys, with no child under slot 0xFFFFFFFF, passes every trie check. |
| `TrieCheck.BuiltAcceptedExactly` | dictbuild/dictbuild.py:184-189 | The builder's table passes the trie checks if and only if slot 0xFFFFFFFF has no child, as it never has below 2^32 slots. |
| `TrieCheck.CrowdedRejected` | dictbuild/dictbuild.py:291-311 | A child of slot 0xFFFFFFFF makes the checks refuse: its key is unreachable or the edge below it invalid. |
| `TrieCheck.AgreesExactly` | dictbuild/dictbuild.py:291-308 | An accepted table answers every NUL-free word as its key texts would if and only if no stray slot carries a key. |
| `TrieCheck.OversizedAccepted` | dictbuild/dictbuild.py:291-295 | A concrete accepted node table past 2^32 slots, with 32-bit fields, on which a word that is no key finds a key. |
| `AzdicLimits.OversizedImage` | dictbuild/dictbuild.py:259-346 | The same for a whole image: `verify` accepts it, and a word that is no key finds a key. |
| `Frame.ReadFrame` | dictbuild/dictbuild.py:260-277 | Accepts exactly the well-framed images: header, digest, aligned, in-range, uniquely named, disjoint sections, and returns them. |
| `Frame.NeighboursEnough` | dictbuild/dictbuild.py:275-277 | For sorted ranges, comparing neighbours decides whether all pairs are disjoint. |
| `Frame.PackSections` | dictbuild/dictbuild.py:248-256 | Succeeds exactly when every name, place, length and count fits its field; the image then holds every section under its row at the next multiple of eight, and ends with the last section. |
| `Frame.PackedFrameOk` | dictbuild/dictbuild.py:248-277 | Every packed image with distinct section names passes the frame checks. |
| `Frame.PackedReadsBack` | dictbuild/dictbuild.py:248-274 | The sections read from a packed image are those it was packed from, and no others. |
| `AzdicBytes.FrameOnBytes` | dictbuild/dictbuild.py:260-277 | The frame is accepted if and only if these bytes stand at these places: magic, version 1, size 64, flags, layer, section count, digest and zeros in the header; zeros, alignment and range in every row; distinct names and no overlap. |
| `AzdicBytes.PackedOnBytes` | dictbuild/dictbuild.py:248-256 | Every field of a packed header and of its rows by byte position, with each section's bytes where its row points. |
| `AzdicBytes.NamesSpelled` | dictbuild/dictbuild.py:238-242 | The section names are their four letters, and the value for none is four 0xFF bytes. |
| `AzdicBytes.HashValues` | dictbuild/dictbuild.py:53-57 | The digest has the published values of 64-bit FNV-1a for the empty text and for the letter a. |
| `Azdic.NormalizeMeans` | dictbuild/dictbuild.py:25-30 | The result has no katakana with a hiragana and no full-width ASCII left, so normalising again changes nothing; exactly such texts are left alone, and a text keeps its length and whether it is empty or holds NUL. |
| `Azdic.NormalizeKeepsOrder` | dictbuild/dictbuild.py:28-30 | Full-width ASCII becomes 0x21 to 0x7E in the same order, katakana become 0x3041 to 0x3096 in the same order, and every other character stays. |
| `Azdic.NormalizeConcat` | dictbuild/dictbuild.py:29-30 | Normalising works character by character. |
| `Azdic.CheckEntry` | dictbuild/dictbuild.py:324-333 | Accepts exactly the entries with sound fields and strings, and returns the normalised reading. |
| `Azdic.CheckIndex` | dictbuild/dictbuild.py:334-340 | Accepts exactly the strictly ascending in-range surface indexes. |
| `Azdic.CheckTables` | dictbuild/dictbuild.py:287-346 | Accepts exactly the tables that satisfy every structural rule. |
| `Azdic.Verify` | dictbuild/dictbuild.py:259-346 | Accepts an arbitrary byte sequence if and only if its frame and tables satisfy the declarative description. |
| `AzdicBytes.TablesSpelledOut` | dictbuild/dictbuild.py:287-346 | The accepted tables are exactly those with an accepted trie whose key records, references, entries, surface index and reference kinds meet every rule, written out one by one. |
| `AzdicBytes.NodeOnBytes` | dictbuild/dictbuild.py:284 | A trie node's four fields by byte position. |
| `AzdicBytes.KeyOnBytes` | dictbuild/dictbuild.py:283-285 | A key record's two fields by byte position. |
| `AzdicBytes.RefOnBytes` | dictbuild/dictbuild.py:283-285 | A reference's entry, kind and zero bytes by position. |
| `AzdicBytes.EntryOnBytes` | dictbuild/dictbuild.py:324 | An entry's fields by byte position, with six zero bytes at the end. |
| `AzdicBytes.IndexOnBytes` | dictbuild/dictbuild.py:334-340 | A surface index item by byte position. |
| `Azdic.IndexIsPermutation` | dictbuild/dictbuild.py:338-340 | An accepted surface index lists every entry exactly once. |
| `Azdic.IndexGroups` | dictbuild/dictbuild.py:338-340 | Entries with one surface stand together in the index, in ascending order. |
| `Azdic.AcceptedLookup` | dictbuild/dictbuild.py:283-314 | In accepted tables lookup and key texts agree on all words if and only if no stray slot carries a key, which holds below 2^32 slots. |
| `Azdic.AcceptedReachable` | dictbuild/dictbuild.py:291-308 | Forward lookup along the rebuilt path of a used slot reaches that slot. |
| `Azdic.AcceptedKeys` | dictbuild/dictbuild.py:296-314 | Each key id has exactly one slot and one text; texts are nonempty, NUL-free and strictly ascending in bytes and in characters. |
| `Azdic.AcceptedReferences` | dictbuild/dictbuild.py:341-346 | Every entry a key refers to has that key as its reading (kind 0) or as another alias of it (kind 1). |
| `AzdicBuild.Intern` | dictbuild/dictbuild.py:212-217 | The pool holds each text interned once, in order of first use, and the text's bytes at the place returned; everything interned before stays where it was. |
| `AzdicBuild.UsedOnce` | dictbuild/dictbuild.py:209-217 | The texts of the pool are the surfaces and readings of the entries, none of them twice. |
| `AzdicBuild.MakeRecord` | dictbuild/dictbuild.py:221-226 | The record's strings read back as the entry's surface and reading; its cost field read as two's complement is the cost, its category bits are the categories, its frequency is nearest to 65535 times the frequency and its priority nearest to 255 times the layer's weight. |
| `AzdicBuild.MaskBits` | dictbuild/dictbuild.py:222 | Bit `c` of the category mask is set exactly for the categories of the entry. |
| `AzdicBuild.EntrySays` | dictbuild/dictbuild.py:219-226 | For every entry of built tables: its strings in the pool are the item's surface and reading, its position the item's, and its numbers say the item's cost, categories, frequency and layer. |
| `AzdicBuild.AddEntry` | dictbuild/dictbuild.py:227-228 | After an entry every key lists exactly the entries so far that it spells, in order, with kind 0 for the own key. |
| `AzdicBuild.LayRefs` | dictbuild/dictbuild.py:229-235 | Each key record delimits exactly that key's references, one list after another with nothing between them. |
| `AzdicBuild.SortBySurface` | dictbuild/dictbuild.py:236-237 | The index is strictly ascending by surface bytes and entry number and covers every entry. |
| `AzdicBuild.MakeTables` | dictbuild/dictbuild.py:202-240 | The tables are those of the entries with nothing superfluous in them, or there are more keys than 32-bit ids. |
| `AzdicBuild.BuiltAccepted` | dictbuild/dictbuild.py:199-245 | Tables built from acceptable entries, with no child under slot 0xFFFFFFFF, pass every check of the verifier. |
| `AzdicBuild.SectionsDecode` | dictbuild/dictbuild.py:238-242 | Reading the packed sections gives the tables back. |
| `AzdicBuild.SectionOrder` | dictbuild/dictbuild.py:238-242 | The seven sections by name and in order, with the string pool and META as they are. |
| `AzdicBuild.PackedAccepted` | dictbuild/dictbuild.py:243-244 | An image packed from built tables is one that `verify` accepts if and only if slot 0xFFFFFFFF has no child. |
| `AzdicBuild.Build` | dictbuild/dictbuild.py:199-245 | The outcome is an accepted image packed from the entries' tables for that layer, with the sorted parts of speech in META, or one of the failures, each only when its limit is passed: too many positions or keys, a number that does not fit, or a child under slot 0xFFFFFFFF. |
| `AzdicBuild.Answers` | dictbuild/dictbuild.py:221-235 | A NUL-free word finds a key record that lists exactly the entries it spells, or no entry is spelled by it. |
| `AzdicBuild.EntryIsFound` | dictbuild/dictbuild.py:227-235 | Every entry is referred to by the key record found under every alias of its key, with kind 0 for the key itself. |
| `Lexicon.Compile` | dictbuild/dictbuild.py:199-245 | Loading and building in one: fails to load exactly on unacceptable rows or sources, and otherwise the outcome is that of the merged rows. |
| `Lexicon.EveryRowIsFound` | dictbuild/dictbuild.py:93-245 | End to end: every spelling of every row's reading finds a key record that refers to the entry with the row's key and surface. |
| `Lexicon.LoadEntries` | dictbuild/dictbuild.py:93-133 | Succeeds exactly when every row is acceptable and all sources contribute; then one entry per key and surface, in order, each acceptable to `Build`. |
| `Lexicon.CostMeans` | dictbuild/dictbuild.py:114 | The given cost within the 16-bit range, 5000 when there is none. |
| `Lexicon.FrequencyMeans` | dictbuild/dictbuild.py:115 | The given frequency; without one, 1 up to cost -2000, 0 from cost 8000 on and linear in between. |
| `Lexicon.RowOkMeans` | dictbuild/dictbuild.py:105-120 | Which rows are acceptable, field by field. |
| `Lexicon.AddedHolds` | dictbuild/dictbuild.py:121-130 | Each merged entry comes from the first of the most frequent rows, with the least cost and the union of the categories of all rows of its key and surface. |
| `Lexicon.MergedIsOk` | dictbuild/dictbuild.py:105-130 | The merge of acceptable rows is acceptable and keeps its key and surface. |
| `Levenshtein.LevenshteinDistance` | bench/ConversionQuality.cpp:627-642 | The two swapped rows end with the distance. |
| `Levenshtein.LowerBound` | bench/ConversionQuality.cpp:627-642 | No script of insertions, deletions and substitutions that turns one text into the other costs less than the distance. |
| `Levenshtein.Attained` | bench/ConversionQuality.cpp:627-642 | Some script costs exactly the distance. |
| `Levenshtein.ZeroIffEqual` | bench/ConversionQuality.cpp:627-642 | The distance is zero exactly for equal texts. |
| `Levenshtein.Symmetric` | bench/ConversionQuality.cpp:627-642 | The distance is symmetric. |
| `Levenshtein.Triangle` | bench/ConversionQuality.cpp:627-642 | The triangle inequality. |
| `Levenshtein.Bounds` | bench/ConversionQuality.cpp:627-642 | The distance lies between the difference of the lengths and the longer length. |
| `Evaluation.AcceptedRank` | bench/ConversionQuality.cpp:513-522 | The place of the first accepted candidate, 0 if there is none. |
| `Evaluation.EvaluateCandidateMatch` | bench/ConversionQuality.cpp:644-668 | Fails exactly on unreadable texts; otherwise the verdict and both distances are those of the decoded texts. |
| `Evaluation.NoDistanceMeansEqual` | bench/ConversionQuality.cpp:644-668 | Distance zero means exact match, plain and normalised, and an exact match is also a normalised one. |
| `Evaluation.EvaluateCase` | bench/ConversionQuality.cpp:702-713 | The judged case is determined by the case and the kept candidates. |
| `Evaluation.EvaluatedIsSound` | bench/ConversionQuality.cpp:702-713 | Rank one is an exact or an acceptable match, never both, also with no candidates at all. |
| `Evaluation.Aggregate.Add` | bench/ConversionQuality.cpp:209-241 | Adds exactly one case's contribution to the totals, which `ShareCounts` and `ShareSums` describe counter by counter, and appends its latency. |
| `Evaluation.ShareCounts` | bench/ConversionQuality.cpp:209-241 | A case adds one to exactly the counters it qualifies for: top1, top3 and top5 by its rank, exact, normalised, acceptable, reading, fidelity, typo and clean. |
| `Evaluation.ShareSums` | bench/ConversionQuality.cpp:209-241 | A case adds its distance, both lengths and its reciprocal ranks to exactly the sums it belongs to. |
| `Evaluation.TotalsTally` | bench/ConversionQuality.cpp:209-241 | Over any list of judged cases each counter is the number of cases that qualify, and each sum the sum over those cases. |
| `Evaluation.TotalLawful` | bench/ConversionQuality.cpp:209-241 | Over every run: exact + acceptable = top1 <= top3 <= top5 <= count, exact <= normalised exact <= count, distance 0 iff all exact, bounds on the reciprocal rank sum, each case counted once. |
| `Evaluation.CategoriesSumUp` | bench/ConversionQuality.cpp:714-718 | Apart from clean cases the summary equals the sum of the category totals, in any order of the categories. |
| `Evaluation.RunConversionQualityEvaluation` | bench/ConversionQuality.cpp:670-720 | Completes exactly on valid options and readable texts; every counter and sum of the summary and of each category is that of its cases, the categories are exactly those that occur, the totals are lawful and the categories sum up to the summary. |
| `Ranking.RequireSameNllRanking` | bench/nll_bench.cpp:34-59 | Which inputs are rejected for which reason; otherwise the largest score difference, and in the non-exact mode every pair of distinct surfaces keeps its order. |
| `Ranking.AcceptedMeansSameOrder` | bench/nll_bench.cpp:36-59 | An accepted comparison: the stable sorts by either score list show the same sequence of surfaces, repeated ones included. |
| `Ranking.EqualOrdersAcceptedExactly` | bench/nll_bench.cpp:51-57 | Equal sorted surface sequences are always accepted if and only if the surfaces are all distinct or all equal. |
| `Ranking.AcceptedExactly` | bench/nll_bench.cpp:51-57 | For any surfaces, a comparison is accepted if and only if both stable sorts order every two differing surfaces alike. |
| `Ranking.DistinctSameOrderAccepted` | bench/nll_bench.cpp:51-57 | With distinct surfaces, equal orders are always accepted. |
| `Ranking.RepeatedSurfacesRejected` | bench/nll_bench.cpp:51-57 | A witness for the failing direction of `EqualOrdersAcceptedExactly`. |
| `Crlf.NormalizeChunk` | bench/ConversionQuality.cpp:384-403 | One buffer keeps the hashed bytes equal to the normalised prefix, with a trailing carriage return held back. |
| `Crlf.HashInput` | bench/ConversionQuality.cpp:374-408 | For every split into chunks the bytes handed to the hash are the whole file with each CR LF replaced by LF. |
| `Crlf.IdempotentExactly` | bench/ConversionQuality.cpp:374-408 | Normalising twice equals normalising once if and only if no carriage return stands right before a CR LF pair. |
| `Crlf.PairsLeft` | bench/ConversionQuality.cpp:384-403 | A CR LF pair is left in the normalised text exactly when a carriage return stood right before one. |
| `Zip.ComputeCrc32` | diagnostics/Diagnostics.cpp:953-962 | The bit-by-bit loop computes the CRC the reader recomputes. |
| `ZipBytes.CheckValue` | diagnostics/Diagnostics.cpp:953-962 | The checksum of the digits 1 to 9 is the check value of CRC-32, 0xCBF43926. |
| `Zip.WriteU16` | diagnostics/Diagnostics.cpp:964-967 | Appends the two little-endian bytes of the value modulo 2^16. |
| `Zip.WriteU32` | diagnostics/Diagnostics.cpp:969-974 | Appends the four little-endian bytes of the value modulo 2^32. |
| `Zip.WriteZip` | diagnostics/Diagnostics.cpp:1919-2015 | Succeeds exactly when names, sizes, offsets and count fit, and then writes the archive of the entries. |
| `Zip.NothingTruncated` | diagnostics/Diagnostics.cpp:1943-1995 | For every accepted entry and offset, each 16-bit and 32-bit field of both headers holds its value untruncated. |
| `Zip.EndNotTruncated` | diagnostics/Diagnostics.cpp:1996-2011 | The same for the end record of every accepted archive. |
| `ZipBytes.LocalOnBytes` | diagnostics/Diagnostics.cpp:1955-1967 | A local header by byte position (section 4.3.7 of the PKWARE APPNOTE): signature, version, UTF-8 flag, stored, stamp, checksum, sizes and lengths. |
| `ZipBytes.CentralOnBytes` | diagnostics/Diagnostics.cpp:1976-1995 | A directory row by byte position (section 4.3.12). |
| `ZipBytes.EndOnBytes` | diagnostics/Diagnostics.cpp:1996-2011 | The end record by byte position (section 4.3.16). |
| `ZipBytes.WritableSpelled` | diagnostics/Diagnostics.cpp:1943-2001 | An archive is not refused exactly when there are fewer than 2^16 entries with good names and contents below 4 GiB, and body and directory together stay below 4 GiB. |
| `Zip.RoundTrip` | diagnostics/Diagnostics.cpp:1919-2015 | A reader that goes from the end record to the directory to the local headers (sections 4.3.16, 4.3.12 and 4.3.7 of the PKWARE APPNOTE), checking sizes and CRCs, recovers the entries in order. |
| `JsonPath.FindPath` | settings-app/SettingsDocument.cpp:436-447 | The cursor loop reads what stands at the split path, or nothing. |
| `JsonPath.SetPath` | settings-app/SettingsDocument.cpp:450-463 | The recursive write stores at the split path. |
| `JsonPath.PutGet` | settings-app/SettingsDocument.cpp:436-463 | What was written is read back. |
| `JsonPath.GetPut` | settings-app/SettingsDocument.cpp:436-463 | Writing back what was read changes nothing. |
| `JsonPath.PutPut` | settings-app/SettingsDocument.cpp:450-463 | The last write wins. |
| `JsonPath.PutElsewhere` | settings-app/SettingsDocument.cpp:449-463 | A write leaves every path apart from its own as it was, present or absent. |
| `JsonPath.PutCommutes` | settings-app/SettingsDocument.cpp:449-463 | Writes to paths apart from each other commute. |
| `JsonPath.PutAround` | settings-app/SettingsDocument.cpp:449-463 | Below a written path lies what was written, and above it lie objects. |
| `JsonPath.SplitJoin` | settings-app/SettingsDocument.cpp:436-447 | Splitting a dotted path gives back its dot-free keys. |
| `JsonPath.JoinSplit` | settings-app/SettingsDocument.cpp:436-447 | Joining the keys of a path gives the path back. |
| `Settings.ExtractDictionarySettings` | settings-app/SettingsDocument.cpp:426-434 | Each of the seven switches by name is the stored boolean, or its default where there is none. |
| `Settings.SwitchesNamed` | settings-app/SettingsDocument.cpp:416-434 | Reading switch number `i` by its path is reading the member of that name, for all seven. |
| `Settings.FromJson` | settings-app/SettingsDocument.cpp:465-498 | A stored value is taken exactly when it has the field's kind, integers up to 2^53, and satisfies the field's rule. |
| `Settings.JsonRoundTrip` | settings-app/SettingsDocument.cpp:465-509 | Reading back what a value is stored as gives the value under its own kind, list order included; integers beyond 2^53 are the only values that do not come back. |
| `Settings.LoadValue` | settings-app/SettingsDocument.cpp:543-547 | A generic field loads as the stored value, or as its default where none is stored or it is not taken. |
| `Settings.WriteSwitches` | settings-app/SettingsDocument.cpp:703-715 | Each changed switch reads as the user set it, each other as on disk, and nothing else changes; a switch that is not stored and is left at its default stays out of the file. |
| `Settings.WriteModel` | settings-app/SettingsDocument.cpp:685-694 | The edited model members are stored and every other member survives. |
| `Settings.WriteScalars` | settings-app/SettingsDocument.cpp:695-701 | Log level and consent are stored, the top-level backend preference goes, nothing else changes. |
| `Settings.WriteValues` | settings-app/SettingsDocument.cpp:719-724 | Loading any generic field from the new document gives the edited value, whatever the rule for values; a field that is not stored stays out of the file at its default; nothing else changes, in whatever order the fields are written. |
| `Settings.ClearSafeMode` | settings-app/SettingsDocument.cpp:725-734 | Only the SafeMode entry the user saw is cleared; another one is reported and left as it is. |
| `Settings.WriteApiKey` | settings-app/SettingsDocument.cpp:736-756 | Fails exactly when a key cannot be protected; afterwards no key is stored as typed. |
| `Settings.Validate` | settings-app/SettingsDocument.cpp:632-666 | Reports a problem exactly when some setting is invalid, and names an invalid one. |
| `Settings.SaveSettingsDocument` | settings-app/SettingsDocument.cpp:629-757 | The whole merge over whatever is on disk: refused exactly for invalid input, loading every generic field gives what was edited, every other edit reads back, every path apart from the written ones is unchanged. |
| `Settings.EditSwitches` | settings-app/SettingsDocument.cpp:703-715 | Load, edit, foreign writes, save: each switch is the edited value if the user changed it, else the value on disk before the save. |
| `CatalogFetch.StepKeepsInv` | settings-app/ModelPane.cpp:472-593 | Every event of the fetch, stop and refresh coroutines keeps the invariant of flags, suspended coroutines and history. |
| `CatalogFetch.ReachableInv` | settings-app/ModelPane.cpp:191-593 | The invariant holds in every state of every run. |
| `CatalogFetch.AtMostOne` | settings-app/ModelPane.cpp:472-482 | At most one fetch poller, one unanswered stop and one listing. |
| `CatalogFetch.StopMeetsItsFetch` | settings-app/ModelPane.cpp:571-593 | While a stop is on its way no later fetch has started, and a running fetch is the one it was sent for. |
| `CatalogFetch.NoFetchUntilAnswered` | settings-app/ModelPane.cpp:474 | However a run goes on, no fetch starts before the stop on its way has been answered. |
| `CatalogFetch.ButtonsTellTheTruth` | settings-app/ModelPane.cpp:364-441 | The buttons as last drawn are never out of date: a shown row offers its fetch exactly when `CanStartCatalogFetch` would now, and a click then starts it; the running fetch's row, where shown, has a stop button that acts exactly when it is offered. |
| `CatalogFetch.EndedMeansListAgain` | settings-app/ModelPane.cpp:557-562 | A fetch has ended since the last listing began exactly when another listing is due, and then one is running. |
| `CatalogFetch.RestIsIdle` | settings-app/ModelPane.cpp:191-226 | With nothing suspended every flag is down and the last listing began after every fetch had ended. |
| `CatalogFetch.ListingsBounded` | settings-app/ModelPane.cpp:219-222 | There are at most as many listings as requests and ended fetches. |
| `CatalogFetch.ReportsAreFaithful` | settings-app/ModelPane.cpp:519-556 | Each ended fetch is reported once and in order, with each of the eight outcomes if and only if what the Host told, the stall and the stop call for it; as stopped only if a stop was sent for it. |
| `CatalogFetch.StopAnswerDecides` | settings-app/ModelPane.cpp:584-594 | When a stop's answer meets its running fetch, the stop stays requested if and only if it was accepted or nothing was running; otherwise the stop button is offered again where the row is shown. |
| `CatalogFetch.RequestedMeans` | settings-app/ModelPane.cpp:571-594 | A stop counts as requested exactly while a fetch runs and a stop for it is on its way or was accepted. |
| `CatalogFetch.AcceptedStays` | settings-app/ModelPane.cpp:571-594 | However a run goes on, an accepted stop stays requested until its fetch ends. |
| `CatalogFetch.ProgressOffersStop` | settings-app/ModelPane.cpp:497-513 | Once progress is shown, stopping is offered exactly when the Host took the fetch up and can stop one; a stall ends the loop. |
| `CatalogFetch.PollsWhileRunning` | settings-app/ModelPane.cpp:493-518 | A fetch that has not stalled goes on exactly while the latest answer says that the Host runs this entry. |
| `CatalogFetch.ListingShows` | settings-app/ModelPane.cpp:203-222 | A finished listing shows its catalog if it succeeded and leaves the shown one otherwise; another begins exactly when one is due. |
| `CatalogFetch.ShownLists` | settings-app/ModelPane.cpp:148-150 | Showing the pane lists exactly when no listing has succeeded and none is running. |
| `CatalogFetch.EveryRunCanRest` | settings-app/ModelPane.cpp:191-593 | From every reachable state some run leads to rest, where fetching is offered again. |
| `CatalogFetch.StepReachable` | settings-app/ModelPane.cpp:191-593 | Every event leads from a reachable state to a reachable state. |
| `CatalogFetch.ModelPane.OnShown` | settings-app/ModelPane.cpp:148-150 | Showing the pane lists once, and keeps the pane reachable. |
| `CatalogFetch.ModelPane.HostAnswers` | settings-app/ModelPane.cpp:484-518 | An answer of the Host moves its coroutine on and touches no flag; the pane stays reachable. |
| `CatalogFetch.ModelPane.Refresh` | settings-app/ModelPane.cpp:191-197 | Begins a listing unless one is running, as the event function says. |
| `CatalogFetch.ModelPane.ResumeListing` | settings-app/ModelPane.cpp:203-222 | The stretch after the listing's answer, with the listing it may begin; the pane stays reachable, so every promise above holds of it. |
| `CatalogFetch.ModelPane.FetchCatalog` | settings-app/ModelPane.cpp:472-483 | The stretch up to the first suspension; nothing while a fetch or a stop is pending; the pane stays reachable, so every promise above holds of it. |
| `CatalogFetch.ModelPane.ShowFetchProgress` | settings-app/ModelPane.cpp:504-513 | One turn of the polling loop on the UI thread; the pane stays reachable, so every promise above holds of it. |
| `CatalogFetch.ModelPane.EndFetch` | settings-app/ModelPane.cpp:519-562 | The stretch after the loop: report, clear, list again now or later; the pane stays reachable, so every promise above holds of it. |
| `CatalogFetch.ModelPane.CancelCatalogFetch` | settings-app/ModelPane.cpp:571-577 | Sends at most one stop per request and only while it can be sent; the pane stays reachable, so every promise above holds of it. |
| `CatalogFetch.ModelPane.ResumeStop` | settings-app/ModelPane.cpp:584-594 | The stretch after the stop's answer; the pane stays reachable, so every promise above holds of it. |
| `Progress.ProgressPercent` | settings-app/ModelPaneModel.cpp:121-129 | Computes the percentage with every intermediate value within 64 bits and no division by zero. |
| `Progress.HundredMeansDone` | settings-app/ModelPaneModel.cpp:121-129 | 100 exactly when a known total has been received, never more, and 0 while the total is unknown or nothing has come. |
| `Progress.WithinOne` | settings-app/ModelPaneModel.cpp:121-129 | Below that, the exact whole percentage or one more. |
| `Progress.Monotone` | settings-app/ModelPaneModel.cpp:121-129 | More bytes never show less, across the switch between the formulas. |
| `Progress.StallWatch.constructor` | settings-app/ModelPaneModel.h:104-106 | Starts with no bytes and the start time as the last change. |
| `Progress.StallWatch.Stalled` | settings-app/ModelPaneModel.cpp:131-138 | Over any history of polls: true exactly when the count stands still and last changed longer ago than the limit. |
| `Progress.StallMeansStill` | settings-app/ModelPaneModel.cpp:131-138 | Every poll after the last change saw the same count. |
| `Progress.LastChangeMeans` | settings-app/ModelPaneModel.cpp:131-138 | The last change is the poll after which the count has stood still, or the start if it never left 0. |
| `FindingRange.WholeIsBoundary` | settings-app/ProofreadModel.cpp:71-74 | In well-formed UTF-16 the local surrogate test holds exactly at character boundaries. |
| `FindingRange.ValidIsCharacterRange` | settings-app/ProofreadModel.cpp:66-76 | The accepted ranges are exactly the nonempty ranges of whole characters. |
| `FindingRange.FindingExcerpt` | settings-app/ProofreadModel.cpp:78-86 | Nothing for an invalid range, the range if it fits, else its kept prefix and three dots. |
| `FindingRange.KeptIsLongestWhole` | settings-app/ProofreadModel.cpp:81-85 | The kept prefix ends at a character boundary within the limit, and no later one is within it. |
| `FindingRange.BoundariesEncode` | settings-app/ProofreadModel.cpp:66-86 | Between two boundaries lies the encoding of the characters between them. |
| `UserWords.TrimSpaces` | settings-app/LearningPaneModel.cpp:72-92 | On well-formed UTF-8, trimming bytes is decoding, trimming characters and encoding. |
| `UserWords.TrimMeans` | settings-app/LearningPaneModel.cpp:72-92 | Only spaces are taken off, and what remains starts and ends with a non-space. |
| `UserWords.FoldKatakanaToHiragana` | settings-app/LearningPaneModel.cpp:96-112 | The in-place byte rewrite keeps the length and, on well-formed UTF-8, is the character-wise fold. |
| `UserWords.FoldTrim` | settings-app/LearningPaneModel.cpp:72-112 | Folding and trimming commute, and folding is idempotent. |
| `UserWords.ReadingIdempotent` | settings-app/LearningPaneModel.cpp:116-119 | Normalising a reading twice is normalising it once. |
| `UserWords.FoldKeepsKey` | settings-app/LearningPaneModel.cpp:96-112 | Folding a reading in the dialog never changes its normalised dictionary key. |
| `UserWords.FoldKeepsOrder` | settings-app/LearningPaneModel.cpp:96-112 | Katakana with a hiragana become the hiragana of the same place in order, and every other character stays. |
| `UserWords.NormalizeUserWordInput` | settings-app/LearningPaneModel.cpp:116-126 | The normalised fields, and an error exactly when a field holds nothing but spaces. |
| `UserWords.NormalizeTwice` | settings-app/LearningPaneModel.cpp:116-126 | Sending the normalised input through again changes nothing, errors included. |

## Left out

- File, pipe, registry, process, DPAPI and HTTP calls: files are byte sequences, the Host's answers are nondeterministic events, and `protect` is a parameter.
- JSON parsing and printing, NFKC normalisation, SHA-256: parameters; META is assumed to parse back to the position count it was printed with.
- AzdicBuild.Build: a number that does not fit its field is a failure at packing, where Python may raise earlier, when it stores the number; which exception is raised first is not modelled.
- TrieBuilder.WalkIsPrefix: from 2^32 slots on, an unused slot next to slot 0xFFFFFFFF can be reached, so walking somewhere no longer means that a key continues the word; lookup stays right.
- Azdic.Verify: accept or reject only; the error messages are not modelled.
- AzdicBuild.MakeRecord: frequencies are reals, so rounding of binary floats in the source is not modelled.
- Lexicon.LoadEntries: works on parsed rows; the attribution header, the CSV syntax and the file-name check are not part of this model.
- Settings.LoadValue: the rule a field's value must satisfy (range, option, pattern) is a parameter; numbers are reals, so NaN, infinities and rounding of doubles are not modelled.
- Settings.SaveSettingsDocument: takes the table of generic fields as a parameter with non-overlapping paths (as the fields of settings-app/SettingsFields.cpp are); `SanitizeRoot`, file locking and quarantine come before it, printing and the atomic write after it.
- CatalogFetch.StepKeepsInv: runs in which each request returns a status; exceptions and `RecoverFromFailure` are not modelled. Progress byte counts, message texts and the benchmark coroutine are left out.
- CatalogFetch.ModelPane.ShowFetchProgress: the pane's flags are one record-valued field of the class, not one field each.
- CatalogFetch.ModelPane.Refresh: the state of the refresh button and message bar is not modelled.
- Evaluation.RunConversionQualityEvaluation: works on parsed cases, with the converter's last answer and the median latency given; percentiles, rates and report printing are left out.
- Evaluation.Aggregate.Add: sums of doubles are sums of reals.
- Ranking.RequireSameNllRanking: finite scores are reals; NaN and infinities are one "not finite" value.
- Zip.WriteZip: stream failures and the clock are left out; the time stamp is a parameter.
- `validate_sources`, the command line, the C++ trie reader, `SanitizeRoot`, settings panes and lint scripts: long case lists or foreign effects.

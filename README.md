# WikiFilter scripts, modelled in Dafny

WikiFilter builds OpenCC conversion tables from a Chinese Wikipedia dump. It extracts locale
blocks such as `{H|zh-cn:计算机; zh-sg:电脑; zh-tw:電腦;}` and maps each regional variant
(`电脑`, `電腦`) to its simplified key (`计算机`). This project models the four Python scripts
that do the text work, and proves what each of them computes:

- `scripts/one_line.py`:
  - `split_article` finds the blocks of a text, records variant→key pairs and rewrites the text.
  - `wikiextractor_xml2txt` reads a dump section by section, between `<doc` and `</doc>` lines.
  - `main` merges the dictionaries of a folder of dumps and writes two sorted tables: one for
    entries without whitespace and one for entries with it.
- `scripts/merge_opencc.py`:
  - `merge_opencc` runs the same block parse line by line over a folder of files, with other
    thresholds, and writes one table.
  - The `Translation` class keeps the parse in an object.
- `scripts/merge_csv.py`: sums `key<TAB>count` lines per key across a folder. It writes the
  merged table, the keys above a threshold in ascending order, and a histogram of the sums with
  a running total.
- `scripts/split_file.py`: cuts a file at line boundaries into files of about
  `size // num_files` bytes.

Files are sequences of lines. Python's `dict` is `Dict.ODict`: an order sequence plus a map, with
Python's insertion order and last-write-wins assignment. The three regular expressions are
explicit scanners, each proved equal to a separate definition of what the pattern matches:
- the block pattern `\{[^{}\[\]=]+zh[^{}\[\]=]+\}`: the scanner `BlockAt` against `IsBlock`, by
  `BlockAtIff`, and `findall`'s spans by `SpansExact`;
- the key pattern `(zh-hans|zh-cn):([^;]+)`: the scanner `TagKeyAt` against `IsKeyMatch`, by
  `TagKeyAtIff`, and `re.search`'s leftmost match by `SearchKeyMatch` and `SearchKeyNone`;
- the collapse pattern `\s[\x09-~]+\s`: the scanner `SpaceRunAt` against `IsSpaceRun`, by
  `SpaceRunAtLongest`, with the greedy backtracking modelled.

The loops of the scripts are Dafny methods with loop invariants. Each method is proved equal to a
specification function, and the properties are lemmas about those functions.

Modules:
- `Wrappers`: the `Option` and `Result` types.
- `PyStr`: the Python `str` operations the scripts use.
- `Dict`: Python's `dict`.
- `Sorting`: Python's `sorted`, as an insertion sort.
- `Table`: the `variant<TAB>key` table format.
- `Folder`: the suffix filter on a folder's files.
- `LocaleParse`: the block parse shared by `one_line.py` and `merge_opencc.py`. Its three
  threshold sets are `ArticleRules`, `MergeRules` and `TranslationRules`.
- One module per script: `OneLine` (with worked cases in `OneLineCases`), `MergeOpencc`,
  `MergeCsv` and `SplitFile`.

What the code does, in the places where a reader could expect more:
- The dictionary merge is plain last-write-wins (`scripts/one_line.py:46, 94, 142`). The code
  keeps no conflict sets.
- The code has no skip or allow lists, no punctuation stripping of keys, no digit/pinyin/ASCII
  exclusion heuristics and no middle-dot normalisation.
- The value of a segment has no length check. Only the whole segment must have at least two
  characters (`scripts/one_line.py:40`).
- The rewrite replaces each recorded variant by its key everywhere in the text
  (`scripts/one_line.py:54-55`). It does not replace the block by a variant.
- The output file of `main` is not sorted by key value. It is sorted by variant, the dictionary
  key (`scripts/one_line.py:146`).

Three edge cases of the code are kept as written and shown by lemmas:
- A segment such as `zh-tw: ` gives an empty variant. `split_article` then records `"" → key`, and
  `text.replace("", key)` puts the key before every character
  (`OneLineCases.BlankVariantArticle`).
- Removing `"H|"` is a single pass, so `{HH||}` unwraps to `H|` (`LocaleParse.UnwrapKeepsFormedTag`).
- `int()` skips less whitespace than `str.strip()`: the ASCII separators U+001C to U+001F stay, so
  a count followed by one of them raises `ValueError` and `merge_csv` stops
  (`MergeCsv.SeparatorAfterCount`).

## Model

| member | source | states |
|---|---|---|
| PyStr.Strip | scripts/one_line.py:30 | `s.strip()` is a slice of `s` with only whitespace dropped on either side, and it neither starts nor ends with whitespace |
| PyStr.StripClean | scripts/one_line.py:34 | a string without whitespace at its ends strips to itself |
| PyStr.StripTrailing | scripts/merge_opencc.py:99 | `line.strip()` of a clean line followed by one whitespace character, its line end, gives the clean line |
| PyStr.DropEnds | scripts/one_line.py:30 | `s[1:-1]` drops the first and last character, and is empty for fewer than two |
| PyStr.Split | scripts/one_line.py:37 | `split(';')` gives at least one piece and no piece holds the separator |
| PyStr.JoinSplit | scripts/one_line.py:37 | joining the pieces of a split with the separator gives the string back |
| PyStr.SplitOnePiece | scripts/one_line.py:37-38 | a string splits into exactly one piece iff it holds no separator |
| PyStr.SplitConcat | scripts/one_line.py:37 | text before the first separator is the first piece, followed by the pieces of the rest |
| PyStr.SplitNoSep | scripts/one_line.py:37 | a string without the separator splits into itself alone |
| PyStr.IndexOf | scripts/one_line.py:41 | the index of the first occurrence, or -1 exactly when the character is absent |
| PyStr.SplitOnce | scripts/one_line.py:41 | `split(':', 1)` is the whole string when `:` is absent, else the colon-free part before the first `:` and the rest, which rejoin to the string |
| PyStr.SplitOnceConcat | scripts/one_line.py:41 | a colon-free prefix, `:` and any rest split back into those two parts |
| PyStr.IsSpace | scripts/one_line.py:150 | `c.isspace()`, also `\s` in a pattern: Python's whitespace code points (U+0009 to U+000D, U+001C to U+0020, U+0085, U+00A0, U+1680, U+2000 to U+200A, U+2028, U+2029, U+202F, U+205F, U+3000); `Strip`'s contract is stated over it |
| PyStr.Replace | scripts/one_line.py:55 | `str.replace`: non-overlapping occurrences replaced leftmost first, an empty pattern handed to `InsertEverywhere`; its behaviour is stated by `ReplaceAbsent`, `ReplaceSame` and `LocaleParse.ReplaceFormed` |
| PyStr.InsertEverywhere | scripts/one_line.py:55 | `s.replace("", rep)`: `rep` before every character and at the end; its length is stated by `InsertEverywhereLength` |
| PyStr.ReplaceAbsent | scripts/one_line.py:55 | replacing a non-empty pattern that does not occur leaves the text unchanged |
| PyStr.ReplaceSame | scripts/one_line.py:55 | replacing a pattern by itself leaves the text unchanged |
| PyStr.InsertEverywhereLength | scripts/one_line.py:55 | `replace("", rep)` adds `len(s) + 1` copies of `rep` |
| PyStr.Less | scripts/one_line.py:146 | Python's `<` on `str`: code-point order, a proper prefix first; proved a strict total order by `LessIrreflexive`, `LessTransitive` and `LessTotal` |
| PyStr.LessIrreflexive | scripts/one_line.py:146 | no string sorts before itself |
| PyStr.LessTransitive | scripts/one_line.py:146 | string order is transitive |
| PyStr.LessTotal | scripts/one_line.py:146 | of two different strings one sorts before the other |
| Sorting.Insert | scripts/one_line.py:146 | inserting adds exactly one element to the multiset |
| Sorting.Sort | scripts/one_line.py:146 | `sorted` is a permutation of its input |
| Sorting.InsertSorted | scripts/one_line.py:146 | inserting a new element into a strictly ascending list keeps it strictly ascending |
| Sorting.SortSorted | scripts/merge_csv.py:52 | `sorted` of distinct elements is strictly ascending and a permutation of its input |
| Sorting.StringOrder | scripts/one_line.py:146 | Python's code-point string order is a strict total order |
| Sorting.SubsequenceSnoc | scripts/one_line.py:149-154 | keeping or dropping the next element extends a subsequence |
| Sorting.SubsequenceSorted | scripts/one_line.py:149-154 | a subsequence of an ascending list is ascending |
| Dict.Empty | scripts/one_line.py:25 | `{}` is well formed, with no keys |
| Dict.Put | scripts/one_line.py:46 | `d[k] = v` maps `k` to `v`, keeps every other entry, and appends `k` to the order only when it is new |
| Dict.PutAll | scripts/one_line.py:46 | assigning pairs one after the other keeps the dictionary well formed |
| Dict.Items | scripts/merge_opencc.py:123 | `items()` lists each key in insertion order with its value |
| Dict.Update | scripts/one_line.py:94 | `d.update(e)` keeps the dictionary well formed |
| Dict.LastFor | scripts/one_line.py:46 | the value of the last pair naming a key, or none exactly when no pair names it |
| Dict.PutAllLastWins | scripts/one_line.py:46 | after the assignments a key is present iff it was before or some pair names it, and it holds the value of its last pair, otherwise its old value |
| Dict.PutAllSnoc | scripts/one_line.py:46 | one more pair is one more assignment |
| Dict.PutAllAppend | scripts/merge_opencc.py:95-115 | assigning two runs of pairs is assigning them all in order |
| Dict.UpdateEntries | scripts/one_line.py:142 | after `update` the entries are those of `d` overridden by those of `e` |
| Table.Rows | scripts/merge_opencc.py:123-124 | one row per item |
| Table.RowsSnoc | scripts/merge_opencc.py:123-124 | one more item appends its row |
| Table.ParseRowRow | scripts/merge_opencc.py:124 | a row `variant<TAB>key<NEWLINE>` reads back as its item when the variant holds no tab |
| Table.RowIsLine | scripts/merge_opencc.py:124 | a row ends in its only newline when the item has none |
| Table.RowsIndex | scripts/merge_opencc.py:123-124 | row `i` is the row of item `i` |
| Table.ReadBack | scripts/merge_opencc.py:123-124 | a table whose variants have no tab reads back, row by row, as its items |
| Folder.Selected | scripts/merge_opencc.py:89 | the selected files all end with the suffix, and there are no more of them than files |
| Folder.SelectedIff | scripts/merge_opencc.py:89 | a file is read iff it is in the folder and its name ends with the suffix |
| LocaleParse.IsBlock | scripts/one_line.py:20 | a match of `\{[^{}\[\]=]+zh[^{}\[\]=]+\}`: `{`, characters other than `{}[]=` holding `zh` neither first nor last, then `}`; the independent definition `BlockAtIff` and `SpansExact` prove the scanner against |
| LocaleParse.BlockAt | scripts/one_line.py:20-21 | the end of the block match starting at a position, if any; equal to `IsBlock` by `BlockAtIff` |
| LocaleParse.RunEnd | scripts/one_line.py:20 | the end of the longest run of `[^{}\[\]=]` characters from a position |
| LocaleParse.BlockAtIff | scripts/one_line.py:20 | the scanner finds a match from `p` to `e` iff `t[p..e]` is a block: braces around a run of allowed characters holding `zh` neither first nor last |
| LocaleParse.RunEndReaches | scripts/one_line.py:20 | the run ends at the first character outside the class |
| LocaleParse.BlocksDisjoint | scripts/one_line.py:20-21 | no block starts strictly inside another, so matches cannot overlap |
| LocaleParse.Spans | scripts/one_line.py:21 | the spans found are inside the text, in order and disjoint |
| LocaleParse.SpansExact | scripts/one_line.py:21 | a span is found iff it is a block starting at or after the scan position |
| LocaleParse.Matches | scripts/one_line.py:21 | every string `findall` returns is a block |
| LocaleParse.NoBraceNoMatches | scripts/one_line.py:20-21 | a text without `{` has no match |
| LocaleParse.Unwrap | scripts/one_line.py:30 | `line.strip()[1:-1]` with every occurrence of the two-character marker `H` and bar then removed, the expression also at `scripts/merge_opencc.py:25` and `:99`; shown by `UnwrapWrapped` and `UnwrapKeepsFormedTag` |
| LocaleParse.UnwrapKeepsFormedTag | scripts/one_line.py:30 | `"{HH||}"` unwraps to `"H|"`: a removed `H|` can leave a new one, which stays |
| LocaleParse.UnwrapFormedInner | scripts/one_line.py:30 | `"{HH||}".strip()[1:-1]` is `"HH||"` |
| LocaleParse.ReplaceFormed | scripts/one_line.py:30 | `"HH||".replace("H|", "")` is `"H|"` |
| LocaleParse.WrappedBlock | scripts/one_line.py:20-21 | `{H|…}` around allowed characters opening with `zh` is matched as one whole block |
| LocaleParse.UnwrapWrapped | scripts/one_line.py:30 | unwrapping `{H|inner}` gives `inner` when it holds no `H` |
| LocaleParse.KeyRunEnd | scripts/one_line.py:24 | the key run `[^;]+` stops at the first `;` or the end |
| LocaleParse.TagKeyAt | scripts/one_line.py:24 | a key found at a position is non-empty and has no `;` |
| LocaleParse.KeyRunEndReaches | scripts/one_line.py:24 | the key run ends exactly at the next `;`, or at the end of the string when there is none |
| LocaleParse.IsKeyMatch | scripts/one_line.py:24 | a match of the key pattern at a position: `zh-hans:` or `zh-cn:`, then a non-empty `;`-free second group that, being greedy, reaches the next `;` or the end; the independent definition `TagKeyAtIff` proves the scanner against |
| LocaleParse.TagKeyAtIff | scripts/one_line.py:24 | the scanner finds key `k` at a position exactly when the pattern matches there with second group `k` |
| LocaleParse.KeyAt | scripts/one_line.py:24 | a `;`-free key followed by `;` or the end is exactly what the greedy `[^;]+` captures |
| LocaleParse.CnTagKey | scripts/one_line.py:32-34 | `zh-cn:` followed by a key and `;` gives that key |
| LocaleParse.SearchKey | scripts/one_line.py:32 | `re.search` takes the match at the leftmost position that has one, and there is none iff no position matches |
| LocaleParse.SearchKeySkip | scripts/one_line.py:32 | a position without a match leaves the leftmost match of the rest of the string as the leftmost one |
| LocaleParse.SearchKeyMatch | scripts/one_line.py:32-34 | the key `re.search` finds is the second group of a pattern match at a position before which the pattern matches nowhere |
| LocaleParse.SearchKeyNone | scripts/one_line.py:32-33 | `re.search` finds nothing exactly when the pattern matches at no position |
| LocaleParse.KeyOf | scripts/one_line.py:32-35 | an accepted key has at least 2 characters, at most the bound, and a non-ASCII character when the rules ask for one |
| LocaleParse.KeyLengthBound | scripts/one_line.py:35 | with the bound of 30, a key of 30 characters is accepted and one of 31 is rejected |
| LocaleParse.SegmentValue | scripts/one_line.py:40-44 | the variant one `;`-segment names: none below two characters or without `:`, else the text after the first `:`, stripped under `ArticleRules`; characterised by `SegmentValueIff` |
| LocaleParse.SegmentValueIff | scripts/one_line.py:40-44 | a segment names no variant iff it is shorter than 2 or has no `:`; unstripped, it is `lang:value` with a colon-free `lang` |
| LocaleParse.SegmentPairs | scripts/one_line.py:39-46 | every pair maps a variant to the key and differs from it, at most one per segment |
| LocaleParse.SegmentPairsAdd | scripts/one_line.py:45-46 | a segment naming a variant other than the key appends one pair |
| LocaleParse.SegmentPairsSkip | scripts/one_line.py:40-45 | a segment naming no variant, or the key itself, adds nothing |
| LocaleParse.StringPairs | scripts/one_line.py:32-48 | every pair of a block maps a variant to a different key that meets the rules' thresholds |
| LocaleParse.NoKeyOrOneSegment | scripts/one_line.py:32-38 | a block with no key match, or with a single `;`-segment, gives no pair |
| LocaleParse.SegmentPairsFromSegments | scripts/one_line.py:39-48 | every recorded variant is named by some segment of the block |
| OneLine.Variants | scripts/one_line.py:48 | `keys` holds the variant of each recorded pair, in order |
| OneLine.KeysOf | scripts/one_line.py:47 | `values` holds the key of each recorded pair, in order, as many as `keys` |
| OneLine.MatchPairs | scripts/one_line.py:29-48 | every recorded pair maps a variant to a different key of 2 to 30 characters with a non-ASCII one |
| OneLine.SplitArticle | scripts/one_line.py:7-57 | the dictionary is the recorded pairs assigned in order, every value passes the thresholds, and the text has each variant replaced by its key in recording order |
| OneLine.RecordMatches | scripts/one_line.py:29-48 | the loop over the matches yields `keys`, `values` and the dictionary of all the pairs |
| OneLine.MatchStep | scripts/one_line.py:29-30 | one more match appends the pairs of its unwrapped block |
| OneLine.ApplyReplacements | scripts/one_line.py:54-55 | `text.replace(keys[i], values[i])` for each recorded pair in recording order; `SplitArticle`'s text is this function of its pairs, computed by `ReplaceAll` |
| OneLine.ReplaceAll | scripts/one_line.py:54-55 | the replacement loop applies `replace(keys[i], values[i])` for each `i` in order |
| OneLine.RecordBlock | scripts/one_line.py:30-52 | one block appends its pairs to `keys`, `values` and the dictionary |
| OneLine.RecordLocales | scripts/one_line.py:39-48 | the loop over the segments appends the pairs of the segments |
| OneLine.SegmentStep | scripts/one_line.py:40-48 | one more segment appends its pair when it names a variant other than the key, otherwise nothing |
| OneLine.RecordPair | scripts/one_line.py:46-48 | recording a pair appends to both lists and assigns it |
| OneLine.PairsKeepThresholds | scripts/one_line.py:34-35 | a dictionary filled from pairs that pass the thresholds has only values that pass them |
| OneLine.NoBlockUnchanged | scripts/one_line.py:54-57 | a text without `{` records nothing and is returned unchanged |
| OneLine.TabToTildeEnd | scripts/one_line.py:79 | the end of the longest run of `[\x09-~]` characters |
| OneLine.TabToTildeEndCovers | scripts/one_line.py:79 | every run of the class lies within the longest one |
| OneLine.LastSpace | scripts/one_line.py:79 | the last whitespace position in a range, or none when there is no whitespace in it |
| OneLine.SpaceRunAt | scripts/one_line.py:79 | a match of `\s[\x09-~]+\s` has at least three characters |
| OneLine.SpaceRunAtLongest | scripts/one_line.py:79 | what the scanner finds is a match, and it is the longest, so it finds one whenever a match starts there |
| OneLine.Collapse | scripts/one_line.py:101 | `re.sub(r'\s[\x09-~]+\s', ' ', line)`; `CollapseShape` proves it never lengthens a line and leaves a line without whitespace unchanged |
| OneLine.CollapseFrom | scripts/one_line.py:101 | the substitution from a position: one space for the leftmost-longest match `SpaceRunAt` finds there, else the character kept; `CollapseFromShorter` and `CollapseFromNoSpace` state its effect |
| OneLine.CollapseFromShorter | scripts/one_line.py:101 | each substitution puts one character in place of at least three |
| OneLine.CollapseFromNoSpace | scripts/one_line.py:101 | a line without whitespace is not changed |
| OneLine.CollapseShape | scripts/one_line.py:101 | `re.sub` never makes a line longer and leaves a line without whitespace as it is |
| OneLine.MarkersDiffer | scripts/one_line.py:84-88 | a `<doc` line is never a `</doc>` line |
| OneLine.SinceDoc | scripts/one_line.py:84-86 | the lines after the last `<doc` line, none of which is one |
| OneLine.DocCount | scripts/one_line.py:84-85 | the number of `<doc` lines |
| OneLine.Emitted | scripts/one_line.py:88-90 | every emitted buffer is longer than `min_length`, and there are at most as many as `</doc>` lines |
| OneLine.SectionDict | scripts/one_line.py:92-93 | the dictionary of a section is well formed |
| OneLine.Written | scripts/one_line.py:95-96 | one output line per emitted section |
| OneLine.SectionsDict | scripts/one_line.py:94 | updating with the section dictionaries keeps the dictionary well formed |
| OneLine.Gathered | scripts/one_line.py:98-101 | what lines add to the buffer: markers and ASCII-only lines nothing, every other line its collapsed text, in order |
| OneLine.Pending | scripts/one_line.py:82-101 | `buffer` after some lines: what the lines since the last `<doc` line gathered; `PendingStep` proves each branch of the loop keeps it |
| OneLine.PendingStep | scripts/one_line.py:84-101 | a `<doc` line empties the buffer, a non-marker line with a non-ASCII character appends its collapsed form, any other line leaves the buffer alone |
| OneLine.ReadStep | scripts/one_line.py:84-97 | only `<doc` lines count as sections, and a section is emitted only at `</doc>` with a buffer longer than `min_length` |
| OneLine.EmitStep | scripts/one_line.py:92-96 | one more emitted section adds its line and its dictionary |
| OneLine.EmitSection | scripts/one_line.py:89-97 | the `</doc>` branch updates the dictionary with `split_article`'s and returns its rewritten line |
| OneLine.ReadSections | scripts/one_line.py:76-101 | `total_sections` counts `<doc` lines, `output_sections` counts the emitted sections, and the lines written and the dictionary are theirs |
| OneLine.SectionsDictWellKeyed | scripts/one_line.py:94 | section updates keep every value a key that passes the thresholds |
| OneLine.UpdateWellKeyed | scripts/one_line.py:94 | updating one such dictionary with another keeps every value passing the thresholds |
| OneLine.FolderDict | scripts/one_line.py:136-142 | the folder's merged dictionary is well formed |
| OneLine.IsDump | scripts/one_line.py:138 | `os.path.isfile(file_path) and not "." in filename`; `ReadFolder` and `FolderDict` process exactly the entries it accepts |
| OneLine.ReadFolder | scripts/one_line.py:136-142 | the loop over the folder updates the dictionary with each file's in order, for files whose name has no `.`, and writes each such file's lines |
| OneLine.FolderDictWellKeyed | scripts/one_line.py:142 | every value of the merged dictionary passes the thresholds |
| OneLine.SortedItems | scripts/one_line.py:146 | the sorted items are entries of the dictionary, as many as it has |
| OneLine.SortedItemsExact | scripts/one_line.py:146 | the sorted items are in strictly ascending key order and hold every key |
| OneLine.SortedItemsAscending | scripts/one_line.py:146 | the sorted items are in strictly ascending key order |
| OneLine.SortedItemsCover | scripts/one_line.py:146 | every key of the dictionary is among the sorted items |
| OneLine.Partition | scripts/one_line.py:149-154 | an item is in the first table iff it has no whitespace and in the second iff it has, each table keeping the sorted order |
| OneLine.PartitionSizes | scripts/one_line.py:149-154 | the two tables together have one row per item |
| OneLine.WriteTables | scripts/one_line.py:147-155 | the two files are the rows of the whitespace-free and the whitespace-holding sorted items, and `n` is the first file's row count, at most `len(dictionary)` |
| OneLine.PartitionStep | scripts/one_line.py:150-154 | an item goes to the second table iff it has whitespace |
| OneLine.TablesSorted | scripts/one_line.py:146-153 | both tables are in ascending key order |
| OneLineCases.ThreeSegments | scripts/one_line.py:37 | three `;`-closed segments split into those three and an empty tail |
| OneLineCases.TaggedSegment | scripts/one_line.py:41-44 | a tagged segment names its stripped value |
| OneLineCases.ThreeLocalesKey | scripts/one_line.py:32-35 | a block opening with `zh-cn:` has the stripped key |
| OneLineCases.FourSegments | scripts/one_line.py:39-46 | the key's segment and the empty tail add nothing; the two variant segments add their pairs |
| OneLineCases.DocSegments | scripts/one_line.py:40-44 | each of `zh-cn:`, `zh-sg:` and `zh-tw:` segments names its stripped value |
| OneLineCases.ThreeSegmentPairs | scripts/one_line.py:37-48 | a keyed string of a key segment and two variant segments gives two pairs |
| OneLineCases.ThreeLocalesPairs | scripts/one_line.py:37-48 | a block in the docstring's shape maps both variants to the key |
| OneLineCases.ThreeLocalesPlain | scripts/one_line.py:20 | the inside of such a block is allowed text opening with `zh` |
| OneLineCases.OneBlockArticle | scripts/one_line.py:21-29 | a text that is a single block records that block's pairs |
| OneLineCases.MatchPairsOne | scripts/one_line.py:29-30 | one match records the pairs of its unwrapped block |
| OneLineCases.PlainWrapped | scripts/one_line.py:20-30 | `{H|…}` around allowed text opening with `zh` is one block that unwraps to that text |
| OneLineCases.ThreeLocalesArticle | scripts/one_line.py:20-48 | `split_article` on a block in the docstring's shape records both variants |
| OneLineCases.TwoPairsDictionary | scripts/one_line.py:46 | two different variants of one key fill an empty dictionary in order |
| OneLineCases.DocstringExample | scripts/one_line.py:10 | the docstring's block gives {电脑→计算机, 電腦→计算机}, in that order |
| OneLineCases.BlankSegment | scripts/one_line.py:41-44 | a variant that is only whitespace strips to the empty string |
| OneLineCases.TwoSegments | scripts/one_line.py:37 | two `;`-closed segments split into those two and an empty tail |
| OneLineCases.ThreeSegmentsOnePair | scripts/one_line.py:39-46 | a key segment, one variant segment and the tail give one pair |
| OneLineCases.TwoSegmentPairs | scripts/one_line.py:37-48 | a keyed string with one variant segment gives that pair |
| OneLineCases.KeyAndBlankKey | scripts/one_line.py:32-35 | a block with a blank variant still has its key |
| OneLineCases.KeyAndBlankPairs | scripts/one_line.py:44-48 | a key followed by a blank variant records the empty string as a variant |
| OneLineCases.KeyAndBlankPlain | scripts/one_line.py:20 | the inside of a blank-variant block is allowed text opening with `zh` |
| OneLineCases.BlankVariantArticle | scripts/one_line.py:44-55 | `"" → key` is recorded and the rewrite puts the key before every character and at the end, adding `len(text) + 1` copies |
| OneLineCases.OneReplacement | scripts/one_line.py:55 | one recorded pair is one `replace` |
| OneLineCases.BlankVariantExample | scripts/one_line.py:44-46 | `{H|zh-cn:计算机; zh-tw: ;}` records `"" → 计算机` |
| OneLineCases.CollapseAsciiWord | scripts/one_line.py:101 | an ASCII word between spaces inside non-ASCII text collapses to one space |
| OneLineCases.CollapseExample | scripts/one_line.py:101 | `中 abc 文` becomes `中 文` |
| MergeOpencc.PutAllKeyed | scripts/merge_opencc.py:105-115 | assigning pairs that pass the checks keeps every value passing them |
| MergeOpencc.StringsPairs | scripts/merge_opencc.py:34-49 | the pairs `split_strings` assigns, string after string; stated by `StringsPairsKeyed` and `Translation.SplitStrings` |
| MergeOpencc.LinesPairs | scripts/merge_opencc.py:98-115 | the pairs of a file, each line unwrapped and then parsed; stated by `LinesPairsKeyed` and `LinesPairsUnwrapped` |
| MergeOpencc.FilesPairs | scripts/merge_opencc.py:95-115 | the pairs of the selected files, file after file; stated by `FilesPairsKeyed` and `Merge` |
| MergeOpencc.StringsPairsKeyed | scripts/merge_opencc.py:34-49 | every pair of `split_strings` maps a variant to a different key of at least 2 characters |
| MergeOpencc.LinesPairsKeyed | scripts/merge_opencc.py:99-115 | every pair of a file's lines maps a variant to a different raw key of 2 to 30 characters |
| MergeOpencc.FilesPairsKeyed | scripts/merge_opencc.py:95-115 | the same for all the files read |
| MergeOpencc.Merge | scripts/merge_opencc.py:87-127 | the dictionary is the pairs of the files ending with the suffix, assigned in order, each value passing the checks, and the table is its items' rows in insertion order |
| MergeOpencc.RecordLines | scripts/merge_opencc.py:98-119 | the loop over a file's lines assigns the pairs of each unwrapped line |
| MergeOpencc.RecordStrings | scripts/merge_opencc.py:34-53 | the loop over the strings assigns the pairs of each string |
| MergeOpencc.RecordString | scripts/merge_opencc.py:102-119 | one string assigns its pairs |
| MergeOpencc.RecordSegments | scripts/merge_opencc.py:109-115 | the loop over the segments assigns the pairs of the segments |
| MergeOpencc.WriteRows | scripts/merge_opencc.py:123-124 | one row written per item, in order |
| MergeOpencc.UnwrapAll | scripts/merge_opencc.py:25 | each line becomes `line.strip()[1:-1]` with every `H|` removed |
| MergeOpencc.LinesPairsUnwrapped | scripts/merge_opencc.py:95-119 | `read_file` followed by parsing gives the pairs that `merge_opencc`'s own line loop finds |
| MergeOpencc.UnwrappedPairs | scripts/merge_opencc.py:99 | strings that are the lines unwrapped one by one give the lines' pairs |
| MergeOpencc.Translation.constructor | scripts/merge_opencc.py:13-16 | a new object has an empty dictionary and no lines |
| MergeOpencc.Translation.ReadFile | scripts/merge_opencc.py:18-30 | `lines` becomes the unwrapped lines, or none when the file cannot be read; the dictionary is untouched |
| MergeOpencc.Translation.SplitStrings | scripts/merge_opencc.py:32-58 | the dictionary keeps what earlier calls put in it, gains every pair of the strings in order with keys of at least 2 characters and no upper bound, and is returned |
| MergeOpencc.Translation.SaveContent | scripts/merge_opencc.py:67-74 | one row per dictionary item, in insertion order |
| MergeCsv.NatString | scripts/merge_csv.py:43 | `str(n)` of a natural is a non-empty run of digits |
| MergeCsv.IntString | scripts/merge_csv.py:43 | `str(n)` is digits with an optional sign, ending in a digit |
| MergeCsv.NatStringValue | scripts/merge_csv.py:43 | the digits of `str(n)` spell `n` |
| MergeCsv.ParseDigits | scripts/merge_csv.py:21 | `int` reads a run of digits, with single underscores, as its value |
| MergeCsv.ParseNegative | scripts/merge_csv.py:21 | `int` reads a minus sign and digits as the negated value |
| MergeCsv.IntStringRoundTrip | scripts/merge_csv.py:21 | `int(str(n)) == n` for every integer |
| MergeCsv.IntSpace | scripts/merge_csv.py:21 | the whitespace `int()` skips: Python's whitespace except the ASCII separators U+001C to U+001F, which CPython's `int()` keeps and rejects |
| MergeCsv.IntStrip | scripts/merge_csv.py:21 | what `int()` reads of its argument: a slice with only `IntSpace` characters dropped on either side, neither starting nor ending with one |
| MergeCsv.IntStripClean | scripts/merge_csv.py:21 | a string without `IntSpace` at its ends is read whole |
| MergeCsv.IntStripTrailing | scripts/merge_csv.py:21 | one `IntSpace` character after a clean string, such as the line end, is dropped |
| MergeCsv.ParseInt | scripts/merge_csv.py:21 | `int(value)`: `IntSpace` whitespace dropped at both ends, an optional sign, ASCII digits with single underscores between them, none for the `ValueError`; stated by `ParseDigits`, `ParseNegative`, `IntStringRoundTrip`, `ParseIntLineEnd` and `SeparatorAfterCount` |
| MergeCsv.Classify | scripts/merge_csv.py:18-27 | what one line does: counted under its key, `ValueError` from the unpacking or from `int`, reported, or skipped; stated by `ClassifyPair`, `ClassifyBadCount`, `SeparatorAfterCount`, `StepCounted` and `StepNoTab` |
| MergeCsv.Step | scripts/merge_csv.py:16-27 | one line of the read loop, nothing once a `ValueError` has been raised; stated by `ScanFailedStays` and `CountLine` |
| MergeCsv.ScanFrom | scripts/merge_csv.py:16-27 | the read loop over a run of lines; stated by `ScanFromAppend`, `ScanRest` and `CountLines` |
| MergeCsv.ScanFromAppend | scripts/merge_csv.py:10-27 | reading two runs of lines is reading them in order |
| MergeCsv.ScanFailedStays | scripts/merge_csv.py:21 | after a `ValueError`, no further line is read |
| MergeCsv.ScanSnoc | scripts/merge_csv.py:16-27 | one more line is one more step |
| MergeCsv.ScanRest | scripts/merge_csv.py:16-27 | reading stops at the end or at the first failure |
| MergeCsv.AddCount | scripts/merge_csv.py:22-25 | `key_counts[k] = v` or `key_counts[k] += v` keeps the dictionary well formed |
| MergeCsv.Counts | scripts/merge_csv.py:18-25 | `key_counts` is well formed |
| MergeCsv.CountsSnoc | scripts/merge_csv.py:22-25 | one more counted line is one more addition |
| MergeCsv.CountsAreSums | scripts/merge_csv.py:18-25 | a key is counted iff some line names it, and its count is the sum of those lines' values |
| MergeCsv.Total | scripts/merge_csv.py:22-25 | the sum of the values of the lines naming a key; `CountsAreSums` proves `key_counts` holds it |
| MergeCsv.TotalAbsent | scripts/merge_csv.py:22-25 | a key no line names sums to 0 |
| MergeCsv.CountFiles | scripts/merge_csv.py:10-27 | the loops over files and lines read every line of every file ending with the suffix, until a `ValueError` |
| MergeCsv.RestAfterFailure | scripts/merge_csv.py:21 | after a failure, the later files change nothing |
| MergeCsv.SelectedAppend | scripts/merge_csv.py:11-12 | selecting from two runs of files is selecting from each |
| MergeCsv.AllLinesAppend | scripts/merge_csv.py:10-16 | the lines of two runs of files are those of each, in order |
| MergeCsv.CountLines | scripts/merge_csv.py:16-27 | the loop over one file's lines is the scan of those lines |
| MergeCsv.StepCounted | scripts/merge_csv.py:18-25 | a line with one tab and an integer count is counted under its key, and nothing is reported |
| MergeCsv.StepNoTab | scripts/merge_csv.py:26-27 | a line without a tab is never counted, and is reported iff it is longer than one character |
| MergeCsv.CountLine | scripts/merge_csv.py:18-27 | the loop body is one step of the scan |
| MergeCsv.ScanKeysNoTab | scripts/merge_csv.py:20 | no counted key holds a tab |
| MergeCsv.CountedKeysNoTab | scripts/merge_csv.py:20 | no key of `key_counts` holds a tab |
| MergeCsv.CountRows | scripts/merge_csv.py:42-43 | one `(key, str(count))` row per item |
| MergeCsv.CountRowsIndex | scripts/merge_csv.py:43 | row `i` is key `i` with `str` of its count |
| MergeCsv.ClassifyPair | scripts/merge_csv.py:18-21 | a line `key<TAB>count` with an integer count is counted as that key and value |
| MergeCsv.ClassifyBadCount | scripts/merge_csv.py:18-21 | a line `key<TAB>text` whose text `int()` rejects raises `ValueError` |
| MergeCsv.SeparatorAfterCount | scripts/merge_csv.py:21 | U+001C is whitespace to `str.isspace` but not to `int()`, so the line `k<TAB>5<U+001C><LF>` raises `ValueError` |
| MergeCsv.SeparatorCountText | scripts/merge_csv.py:21 | `int()` of `5<U+001C><LF>` keeps the separator and fails |
| MergeCsv.ParseIntLineEnd | scripts/merge_csv.py:21 | `int` ignores one `IntSpace` character after the count, such as `\n`; U+001C to U+001F are not ignored |
| MergeCsv.RowCounts | scripts/merge_csv.py:43 | a row written by `print(key + "\t" + str(count))`, read again, counts that key with that count |
| MergeCsv.CountLineEnd | scripts/merge_csv.py:43 | `str(count)` and a newline hold no tab and read back as the count |
| MergeCsv.TableReadsBack | scripts/merge_csv.py:42-43 | exactly one row per key, in dictionary order, and each reads back as its key and count |
| MergeCsv.Above | scripts/merge_csv.py:44-45 | `keys`: the keys whose count exceeds the filter, in dictionary order; stated by `AboveIff` and `AboveDistinct` |
| MergeCsv.AboveIff | scripts/merge_csv.py:44-45 | a key is in `keys` iff some item has it with a count above the filter |
| MergeCsv.AboveDistinct | scripts/merge_csv.py:44-45 | `keys` has no repeats |
| MergeCsv.KeyFileMember | scripts/merge_csv.py:44-45 | a key is in `keys` iff its count exceeds the filter |
| MergeCsv.KeyFileExact | scripts/merge_csv.py:52-55 | the key file holds exactly the keys whose count exceeds the filter, in strictly ascending order |
| MergeCsv.Lines | scripts/merge_csv.py:54-55 | one line per key |
| MergeCsv.LinesIndex | scripts/merge_csv.py:55 | line `i` is key `i` and a newline |
| MergeCsv.Bump | scripts/merge_csv.py:47-50 | `count_freq[count] += 1` keeps the dictionary well formed |
| MergeCsv.Freq | scripts/merge_csv.py:47-50 | `count_freq` is well formed |
| MergeCsv.FreqCounts | scripts/merge_csv.py:47-50 | a count is in `count_freq` iff some key has it, and its entry is the number of such keys |
| MergeCsv.BumpTotal | scripts/merge_csv.py:47-50 | one more key adds one to the sum of the entries |
| MergeCsv.FreqTotal | scripts/merge_csv.py:47-50 | the entries of `count_freq` sum to the number of keys |
| MergeCsv.SumFreqPerm | scripts/merge_csv.py:58 | the sum of the entries does not depend on the order of the counts |
| MergeCsv.IntOrder | scripts/merge_csv.py:58 | `<` on counts is a strict total order |
| MergeCsv.Pairs | scripts/merge_csv.py:58 | the items of the listed counts, each with its entry |
| MergeCsv.SumValuesPairs | scripts/merge_csv.py:58 | the items' numbers sum to the entries' sum |
| MergeCsv.Running | scripts/merge_csv.py:61-64 | one histogram line per item |
| MergeCsv.RunningIndex | scripts/merge_csv.py:63-64 | line `i` holds count `i`, its number and the sum of the numbers up to it |
| MergeCsv.RunningSums | scripts/merge_csv.py:61-64 | `count_sum` starts at the first number, grows by each line's number and ends at their sum |
| MergeCsv.RunningEnds | scripts/merge_csv.py:61-64 | the first line's `count_sum` is its number and the last line's is the sum of all numbers |
| MergeCsv.RunningStep | scripts/merge_csv.py:63 | each later line's `count_sum` is the previous one plus its number |
| MergeCsv.SortedFreqKeys | scripts/merge_csv.py:58 | `sorted(count_freq.items())` lists every count once, strictly ascending, each with its entry |
| MergeCsv.Histogram | scripts/merge_csv.py:58-64 | the `count, freq, count_sum` lines of the histogram file; stated by `HistogramLine`, `HistogramAscending`, `HistogramNumbers`, `HistogramCovers` and `HistogramRunning` |
| MergeCsv.HistogramLine | scripts/merge_csv.py:58-64 | line `i` has the `i`-th smallest count and that count's entry |
| MergeCsv.HistogramAscending | scripts/merge_csv.py:58-64 | histogram lines are in strictly ascending count order |
| MergeCsv.HistogramNumbers | scripts/merge_csv.py:58-64 | each line's number is how many keys have its count, and some key has it |
| MergeCsv.CountListed | scripts/merge_csv.py:58-64 | the line that lists a given key's count |
| MergeCsv.HistogramCovers | scripts/merge_csv.py:58-64 | every key's count has a line |
| MergeCsv.SortedFreqTotal | scripts/merge_csv.py:58-63 | the numbers of the sorted items sum to the number of keys |
| MergeCsv.HistogramRunning | scripts/merge_csv.py:58-64 | there are lines iff there are keys; `count_sum` grows by each line's number and equals `len(key_counts)` after the last line |
| MergeCsv.Outputs | scripts/merge_csv.py:28-64 | nothing after a `ValueError`, nothing written without keys, otherwise the table, the key file and the histogram; `MergeCsv` is proved to produce it |
| MergeCsv.MergeCsv | scripts/merge_csv.py:6-66 | the reported lines and the outcome of the scan: nothing written after a `ValueError` or when no key was counted, otherwise the table, the key file and the histogram |
| MergeCsv.WriteCounts | scripts/merge_csv.py:42-50 | the loop over `key_counts.items()` writes each key's row, collects the keys above the filter and builds `count_freq` |
| MergeCsv.WriteCountsStep | scripts/merge_csv.py:42-50 | one more item adds its row, its key when over the filter, and one to its count's frequency |
| MergeCsv.WriteKeys | scripts/merge_csv.py:52-55 | the key file is one line per sorted key |
| MergeCsv.WriteHistogram | scripts/merge_csv.py:58-64 | the loop with `count_sum` writes the running histogram |
| SplitFile.Utf8Width | scripts/split_file.py:24 | a code point takes 1 to 4 bytes in UTF-8 |
| SplitFile.Utf8Size | scripts/split_file.py:24 | a non-empty line has at least one byte |
| SplitFile.FloorDiv | scripts/split_file.py:12 | `a // b` rounds towards minus infinity, for either sign of `b` |
| SplitFile.Step | scripts/split_file.py:22-32 | one line: written to the open file and counted, the file closed and an empty one opened once `current_size` reaches the budget; `StepKept` proves it keeps the loop invariant |
| SplitFile.Run | scripts/split_file.py:19-33 | the loop over all lines; `RunKept` proves the invariant after every line |
| SplitFile.Chunks | scripts/split_file.py:14-33 | the contents of `wiki_00.txt`, `wiki_01.txt`, ...; stated by `ChunksExact`, `NoBudget`, `LastChunkEmpty` and `FileCount` |
| SplitFile.StepKept | scripts/split_file.py:22-32 | one line keeps the loop invariant: `current_size` is the open file's size, the files concatenate to the lines read, closed files are full, and the open file is short |
| SplitFile.RunKept | scripts/split_file.py:22-32 | the invariant holds after every line |
| SplitFile.ChunksExact | scripts/split_file.py:22-33 | the files concatenate to the input lines in order; every file but the last reached the budget with its last line and not before, and the last never reached it |
| SplitFile.NoBudget | scripts/split_file.py:27-32 | with a budget of at most 0 every line closes its own file, and the last file is empty |
| SplitFile.LastChunkEmpty | scripts/split_file.py:27-33 | the last file is empty iff there are no lines or the last line closed a file |
| SplitFile.ClosedSize | scripts/split_file.py:27 | closed files together hold at least the budget times their number |
| SplitFile.FileCount | scripts/split_file.py:27-35 | (number of files − 1) × budget is at most the input's size in bytes |
| SplitFile.Split | scripts/split_file.py:9-35 | `num_files == 0` raises `ZeroDivisionError`; otherwise the files are those of the greedy rollover against `input_size // num_files` |

## Left out

- File access is left out: `open`, reading, writing, `os.listdir`, `os.walk`, path joins and
  `os.path.getsize`. Files are given as sequences of lines with their terminators, outputs are
  returned as sequences of lines, and `split_file`'s `input_size` is a parameter.
- Decoding and newline translation are left out. Lines are sequences of code points, and
  `split_file` sizes each line by the UTF-8 width of its code points.
- Pre-existing content of the files `one_line.py` opens in append mode is not modelled.
- `merge_csv` walks the subfolders with `os.walk`, but opens every file it finds as
  `input_folder/<name>`, dropping the subfolder (`scripts/merge_csv.py:10-15`). A file in a
  subfolder whose name is also a file of the top folder makes that top-level file be read again,
  so its counts are added a second time. Any other file in a subfolder makes `open` raise
  `FileNotFoundError`. The model takes one flat listing of the top folder, each file read once.
- `os.listdir` order is taken as the order of the given folder sequence.
- Progress prints, warnings and usage texts are left out, along with the command-line parsing of
  every `main`. Lines `merge_csv` reports as malformed are returned as a list.
- `Translation.print_content` only prints, and is left out.
- Floating-point results are left out: the percentage of `wikiextractor_xml2txt`
  (`scripts/one_line.py:103-105`), the ratio `count_sum/len(key_counts)` in the histogram and the
  closing percentage print of `merge_csv`. The model gives `count_sum` and proves it ends at
  `len(key_counts)`.
- The header line of the histogram file is not modelled.
- `merge_csv`'s unused `csv.writer` is left out.
- Write errors in `save_content` and `merge_opencc` are left out: the rows are always produced.
- `read_file`'s `FileNotFoundError` and `IOError` are one case: content that cannot be read.
- `split_strings` iterates a module-level `strings`. It is modelled as a parameter.
- `int()` accepts only ASCII digits in this model. Python also accepts other Unicode decimal digits.
  Such a count is modelled as the `ValueError` that stops the script.
- `split_file`'s output handles and the file index `i` are left out. The number of files is the
  length of the returned sequence.
- WikiFilter/WikiFilter.cpp is not part of this model. It holds multithreaded work distribution
  over raw buffers.

/** scripts/one_line.py: extraction of conversion pairs from article text (`split_article`), the
    section reader over a dump (`wikiextractor_xml2txt`) and the sorted two-way output of `main`. */
module OneLine {
  import opened Wrappers
  import opened PyStr
  import opened Dict
  import opened LocaleParse
  import opened Table
  import Sorting

  /** The variants of recorded pairs: the `keys` list of `split_article`. */
  function Variants(pairs: seq<(String, String)>): (r: seq<String>)
    ensures |r| == |pairs| && forall i :: 0 <= i < |r| ==> r[i] == pairs[i].0
    decreases |pairs|
  {
    if pairs == [] then [] else Variants(pairs[..|pairs| - 1]) + [pairs[|pairs| - 1].0]
  }

  /** The simplified keys of recorded pairs: the `values` list of `split_article`. */
  function KeysOf(pairs: seq<(String, String)>): (r: seq<String>)
    ensures |r| == |pairs| && forall i :: 0 <= i < |r| ==> r[i] == pairs[i].1
    decreases |pairs|
  {
    if pairs == [] then [] else KeysOf(pairs[..|pairs| - 1]) + [pairs[|pairs| - 1].1]
  }

  /** The pairs recorded from a list of block matches, in order. Each maps a variant to a different
      simplified key of 2 to 30 characters, one of them non-ASCII. */
  function MatchPairs(ms: seq<String>): (r: seq<(String, String)>)
    ensures forall i :: 0 <= i < |r| ==>
              r[i].0 != r[i].1 && 2 <= |r[i].1| <= 30 && HasNonAscii(r[i].1)
    decreases |ms|
  {
    if ms == [] then []
    else MatchPairs(ms[..|ms| - 1]) + StringPairs(Unwrap(ms[|ms| - 1]), ArticleRules)
  }

  /** The pairs `split_article` records for a text. */
  function ArticlePairs(text: String): seq<(String, String)>
  {
    MatchPairs(Matches(text))
  }

  /** `text.replace(variant, key)` for each recorded pair, in recording order. */
  function ApplyReplacements(text: String, pairs: seq<(String, String)>): String
    decreases |pairs|
  {
    if pairs == [] then text
    else
      var last := pairs[|pairs| - 1];
      Replace(ApplyReplacements(text, pairs[..|pairs| - 1]), last.0, last.1)
  }

  /** A text without `{` holds no block: nothing is recorded and the text comes back unchanged. */
  lemma NoBlockUnchanged(text: String)
    requires '{' !in text
    ensures ArticlePairs(text) == [] && ApplyReplacements(text, ArticlePairs(text)) == text
  {
    NoBraceNoMatches(text);
  }

  /** `split_article(text)`: the variant-to-simplified dictionary of the text's blocks, and the text
      with every recorded variant replaced by its key. */
  method SplitArticle(text: String) returns (dictionary: ODict<String, String>, result: String)
    ensures Valid(dictionary)
    ensures dictionary == PutAll(Empty(), ArticlePairs(text))
    ensures result == ApplyReplacements(text, ArticlePairs(text))
    ensures WellKeyed(dictionary)
  {
    var matches := Matches(text);
    var keys, values;
    dictionary, keys, values := RecordMatches(matches);
    PairsKeepThresholds(ArticlePairs(text));
    result := ReplaceAll(text, keys, values, ArticlePairs(text));
  }

  /** The loop of `split_article` over the block matches, in order. */
  method RecordMatches(matches: seq<String>)
    returns (dictionary: ODict<String, String>, keys: seq<String>, values: seq<String>)
    ensures keys == Variants(MatchPairs(matches)) && values == KeysOf(MatchPairs(matches))
    ensures dictionary == PutAll(Empty(), MatchPairs(matches))
  {
    dictionary := Empty();
    keys, values := [], [];
    for m := 0 to |matches|
      invariant keys == Variants(MatchPairs(matches[..m]))
      invariant values == KeysOf(MatchPairs(matches[..m]))
      invariant dictionary == PutAll(Empty(), MatchPairs(matches[..m]))
    {
      MatchStep(matches, m);
      dictionary, keys, values := RecordBlock(matches[m], MatchPairs(matches[..m]), dictionary, keys, values);
    }
    assert matches[..|matches|] == matches;
  }

  /** The match at `m` adds the pairs of its block to those of the matches before it. */
  lemma MatchStep(matches: seq<String>, m: nat)
    requires m < |matches|
    ensures MatchPairs(matches[..m + 1]) == MatchPairs(matches[..m]) + StringPairs(Unwrap(matches[m]), ArticleRules)
  {
    assert matches[..m + 1][..m] == matches[..m];
  }

  /** The closing loop of `split_article`: `text = text.replace(keys[i], values[i])` for each `i`. */
  method ReplaceAll(text: String, keys: seq<String>, values: seq<String>, ghost pairs: seq<(String, String)>)
    returns (result: String)
    requires keys == Variants(pairs) && values == KeysOf(pairs)
    ensures result == ApplyReplacements(text, pairs)
  {
    result := text;
    for i := 0 to |keys|
      invariant result == ApplyReplacements(text, pairs[..i])
    {
      assert pairs[..i + 1][..i] == pairs[..i];
      result := Replace(result, keys[i], values[i]);
    }
    assert pairs[..|keys|] == pairs;
  }

  /** One iteration of the loop over the matches: the pairs of one block are appended to `keys`
      and `values` and assigned in the dictionary. */
  method RecordBlock(block: String, ghost done: seq<(String, String)>, dictionary0: ODict<String, String>,
                     keys0: seq<String>, values0: seq<String>)
    returns (dictionary: ODict<String, String>, keys: seq<String>, values: seq<String>)
    requires keys0 == Variants(done) && values0 == KeysOf(done)
    requires dictionary0 == PutAll(Empty(), done)
    ensures keys == Variants(done + StringPairs(Unwrap(block), ArticleRules))
    ensures values == KeysOf(done + StringPairs(Unwrap(block), ArticleRules))
    ensures dictionary == PutAll(Empty(), done + StringPairs(Unwrap(block), ArticleRules))
  {
    dictionary, keys, values := dictionary0, keys0, values0;
    var s := Unwrap(block);
    ghost var pairs := StringPairs(s, ArticleRules);
    assert done + [] == done;
    var found := SearchKey(s, 0);
    if found.Some? {
      var key := Strip(found.value);
      if |key| >= 2 && |key| <= 30 && HasNonAscii(key) {
        assert KeyOf(s, ArticleRules) == Some(key);
        var locales := Split(s, ';');
        if |locales| > 1 {
          assert pairs == SegmentPairs(locales, key, ArticleRules);
          dictionary, keys, values := RecordLocales(locales, key, done, dictionary, keys, values);
        } else {
          assert pairs == [];
        }
      } else {
        assert KeyOf(s, ArticleRules) == None;
      }
    } else {
      assert pairs == [];
    }
  }

  /** The loop over the `;`-segments of one block whose key passed the thresholds. */
  method RecordLocales(locales: seq<String>, key: String, ghost done: seq<(String, String)>,
                       dictionary0: ODict<String, String>, keys0: seq<String>, values0: seq<String>)
    returns (dictionary: ODict<String, String>, keys: seq<String>, values: seq<String>)
    requires keys0 == Variants(done) && values0 == KeysOf(done)
    requires dictionary0 == PutAll(Empty(), done)
    ensures keys == Variants(done + SegmentPairs(locales, key, ArticleRules))
    ensures values == KeysOf(done + SegmentPairs(locales, key, ArticleRules))
    ensures dictionary == PutAll(Empty(), done + SegmentPairs(locales, key, ArticleRules))
  {
    dictionary, keys, values := dictionary0, keys0, values0;
    ghost var recorded := done;
    assert locales[..0] == [];
    assert done + SegmentPairs(locales[..0], key, ArticleRules) == done;
    for i := 0 to |locales|
      invariant recorded == done + SegmentPairs(locales[..i], key, ArticleRules)
      invariant keys == Variants(recorded) && values == KeysOf(recorded)
      invariant dictionary == PutAll(Empty(), recorded)
    {
      SegmentStep(locales, i, key, done);
      var value := SegmentValue(locales[i], ArticleRules);
      if value.Some? && key != value.value {
        RecordPair(recorded, (value.value, key));
        dictionary := Put(dictionary, value.value, key);
        values := values + [key];
        keys := keys + [value.value];
        recorded := recorded + [(value.value, key)];
      }
    }
    assert locales[..|locales|] == locales;
  }

  /** The segment at `i` adds its pair, or nothing, to those of the segments before it. */
  lemma SegmentStep(locales: seq<String>, i: nat, key: String, done: seq<(String, String)>)
    requires i < |locales|
    ensures var value := SegmentValue(locales[i], ArticleRules);
            value.Some? && key != value.value ==>
              done + SegmentPairs(locales[..i + 1], key, ArticleRules)
              == (done + SegmentPairs(locales[..i], key, ArticleRules)) + [(value.value, key)]
    ensures var value := SegmentValue(locales[i], ArticleRules);
            !(value.Some? && key != value.value) ==>
              done + SegmentPairs(locales[..i + 1], key, ArticleRules)
              == done + SegmentPairs(locales[..i], key, ArticleRules)
  {
    assert locales[..i + 1][..i] == locales[..i];
  }

  /** Recording one more pair appends to both lists and assigns it in the dictionary. */
  lemma RecordPair(before: seq<(String, String)>, p: (String, String))
    ensures Variants(before + [p]) == Variants(before) + [p.0]
    ensures KeysOf(before + [p]) == KeysOf(before) + [p.1]
    ensures PutAll(Empty(), before + [p]) == Put(PutAll(Empty(), before), p.0, p.1)
  {
    assert (before + [p])[..|before|] == before;
  }

  /** Every value is a simplified key of 2 to 30 characters, one of them non-ASCII, other than
      the variant that maps to it. */
  predicate WellKeyed(d: ODict<String, String>)
  {
    forall v :: v in d.entries ==> v != d.entries[v] && 2 <= |d.entries[v]| <= 30 && HasNonAscii(d.entries[v])
  }

  /** Whatever pairs were assigned last, every value of the dictionary is a key that passed the
      thresholds and differs from its variant. */
  lemma PairsKeepThresholds(pairs: seq<(String, String)>)
    requires forall i :: 0 <= i < |pairs| ==>
               pairs[i].0 != pairs[i].1 && 2 <= |pairs[i].1| <= 30 && HasNonAscii(pairs[i].1)
    ensures WellKeyed(PutAll(Empty(), pairs))
  {
    forall v | v in PutAll(Empty(), pairs).entries
      ensures v != PutAll(Empty(), pairs).entries[v] && 2 <= |PutAll(Empty(), pairs).entries[v]| <= 30
              && HasNonAscii(PutAll(Empty(), pairs).entries[v])
    {
      PutAllLastWins(Empty(), pairs, v);
    }
  }

  /** `[\x09-~]`: the code points from tab to tilde. */
  predicate IsTabToTilde(c: char)
  {
    0x09 <= c as int <= 0x7E
  }

  /** A match of `\s[\x09-~]+\s`: whitespace, a run of tab-to-tilde characters, whitespace. */
  predicate IsSpaceRun(m: String)
  {
    && |m| >= 3 && IsSpace(m[0]) && IsSpace(m[|m| - 1])
    && forall k :: 1 <= k < |m| - 1 ==> IsTabToTilde(m[k])
  }

  /** End of the longest run of tab-to-tilde characters starting at `i`. */
  function TabToTildeEnd(s: String, i: nat): (j: nat)
    requires i <= |s|
    ensures i <= j <= |s|
    ensures forall k :: i <= k < j ==> IsTabToTilde(s[k])
    ensures j < |s| ==> !IsTabToTilde(s[j])
    decreases |s| - i
  {
    if i < |s| && IsTabToTilde(s[i]) then TabToTildeEnd(s, i + 1) else i
  }

  lemma {:induction false} TabToTildeEndCovers(s: String, i: nat, j: nat)
    requires i <= j <= |s|
    requires forall k :: i <= k < j ==> IsTabToTilde(s[k])
    ensures j <= TabToTildeEnd(s, i)
    decreases j - i
  {
    if i < j { TabToTildeEndCovers(s, i + 1, j); }
  }

  /** The last whitespace position in `lo..hi` (and inside `s`): where the greedy `[\x09-~]+` stops
      giving back characters because the closing `\s` matches. */
  function LastSpace(s: String, lo: nat, hi: nat): (r: Option<nat>)
    ensures r.Some? ==> lo <= r.value <= hi && r.value < |s| && IsSpace(s[r.value])
    ensures r.Some? ==> forall j :: r.value < j <= hi && j < |s| ==> !IsSpace(s[j])
    ensures r.None? ==> forall j :: lo <= j <= hi && j < |s| ==> !IsSpace(s[j])
    decreases hi
  {
    if hi < lo then None
    else if hi < |s| && IsSpace(s[hi]) then Some(hi)
    else if hi == lo then None
    else LastSpace(s, lo, hi - 1)
  }

  /** The end of the match of `\s[\x09-~]+\s` that starts at `p`, if one does. */
  function SpaceRunAt(s: String, p: nat): (r: Option<nat>)
    requires p <= |s|
    ensures r.Some? ==> p + 3 <= r.value <= |s|
  {
    if p + 2 < |s| && IsSpace(s[p]) then
      match LastSpace(s, p + 2, TabToTildeEnd(s, p + 1))
      case Some(j) => Some(j + 1)
      case None => None
    else None
  }

  /** The scanner is the regex: what it finds at `p` is a match, and no match starting at `p` is
      longer, so it finds one whenever one exists (the backtracking of the greedy `+`). */
  lemma SpaceRunAtLongest(s: String, p: nat, e: nat)
    requires p <= e <= |s|
    ensures SpaceRunAt(s, p) == Some(e) ==> IsSpaceRun(s[p..e])
    ensures IsSpaceRun(s[p..e]) ==> SpaceRunAt(s, p).Some? && e <= SpaceRunAt(s, p).value
  {
    var m := s[p..e];
    if SpaceRunAt(s, p) == Some(e) {
      assert m[0] == s[p] && m[|m| - 1] == s[e - 1];
      forall k | 1 <= k < |m| - 1 ensures IsTabToTilde(m[k]) {
        assert m[k] == s[p + k];
      }
    }
    if IsSpaceRun(m) {
      assert s[p] == m[0] && s[e - 1] == m[|m| - 1];
      forall k | p + 1 <= k < e - 1 ensures IsTabToTilde(s[k]) {
        assert s[k] == m[k - p];
      }
      TabToTildeEndCovers(s, p + 1, e - 1);
    }
  }

  /** `re.sub(r'\s[\x09-~]+\s', ' ', s)`: each match, scanning left to right, becomes one space. */
  function Collapse(s: String): String
  {
    CollapseFrom(s, 0)
  }

  function CollapseFrom(s: String, p: nat): String
    requires p <= |s|
    decreases |s| - p
  {
    if p == |s| then []
    else match SpaceRunAt(s, p)
      case Some(e) => " " + CollapseFrom(s, e)
      case None => [s[p]] + CollapseFrom(s, p + 1)
  }

  /** Each substitution puts one character in place of at least three: the line never grows. */
  lemma {:induction false} CollapseFromShorter(s: String, p: nat)
    requires p <= |s|
    ensures |CollapseFrom(s, p)| <= |s| - p
    decreases |s| - p
  {
    if p < |s| {
      match SpaceRunAt(s, p)
      case Some(e) => CollapseFromShorter(s, e);
      case None => CollapseFromShorter(s, p + 1);
    }
  }

  /** A line without whitespace is left as it is. */
  lemma {:induction false} CollapseFromNoSpace(s: String, p: nat)
    requires p <= |s| && !HasSpace(s)
    ensures CollapseFrom(s, p) == s[p..]
    decreases |s| - p
  {
    if p < |s| {
      assert !IsSpace(s[p]);
      CollapseFromNoSpace(s, p + 1);
      assert s[p..] == [s[p]] + s[p + 1..];
    }
  }

  lemma CollapseShape(s: String)
    ensures |Collapse(s)| <= |s|
    ensures !HasSpace(s) ==> Collapse(s) == s
  {
    CollapseFromShorter(s, 0);
    if !HasSpace(s) { CollapseFromNoSpace(s, 0); }
  }

  /* The section reader of `wikiextractor_xml2txt`. The file is given as its lines, each with its
     line terminator, and the output file as the lines appended to it. */

  predicate IsDocStart(line: String)
  {
    StartsWith(line, "<doc")
  }

  predicate IsDocEnd(line: String)
  {
    StartsWith(line, "</doc>")
  }

  /** No line is both markers: `</doc>` does not start with `<doc`. */
  lemma MarkersDiffer(line: String)
    requires IsDocStart(line)
    ensures !IsDocEnd(line)
  {
    assert line[1] == line[..4][1] == 'd';
  }

  /** A line the reader adds to the buffer: not a marker and not made only of ASCII characters. */
  predicate IsTextLine(line: String)
  {
    !IsDocStart(line) && !IsDocEnd(line) && !AllAscii(line)
  }

  /** The text lines of `lines`, each collapsed, concatenated. */
  function Gathered(lines: seq<String>): String
    decreases |lines|
  {
    if lines == [] then []
    else
      var line := lines[|lines| - 1];
      Gathered(lines[..|lines| - 1]) + (if IsTextLine(line) then Collapse(line) else [])
  }

  /** How many lines follow the last `<doc` line (all of them when there is none). */
  function SinceDoc(lines: seq<String>): (n: nat)
    ensures n <= |lines|
    ensures forall k :: |lines| - n <= k < |lines| ==> !IsDocStart(lines[k])
    ensures n < |lines| ==> IsDocStart(lines[|lines| - n - 1])
    decreases |lines|
  {
    if lines == [] || IsDocStart(lines[|lines| - 1]) then 0 else 1 + SinceDoc(lines[..|lines| - 1])
  }

  /** The buffer after reading `lines`: the text gathered since the last `<doc` line. */
  function Pending(lines: seq<String>): String
  {
    Gathered(lines[|lines| - SinceDoc(lines)..])
  }

  /** Number of lines starting with `<doc`. */
  function DocCount(lines: seq<String>): (n: nat)
    ensures n <= |lines|
    decreases |lines|
  {
    if lines == [] then 0
    else DocCount(lines[..|lines| - 1]) + (if IsDocStart(lines[|lines| - 1]) then 1 else 0)
  }

  /** Number of lines starting with `</doc>`. */
  function DocEndCount(lines: seq<String>): nat
    decreases |lines|
  {
    if lines == [] then 0
    else DocEndCount(lines[..|lines| - 1]) + (if IsDocEnd(lines[|lines| - 1]) then 1 else 0)
  }

  /** The buffers emitted, in order: the buffer at each `</doc>` line where it is longer than
      `minLength`. */
  function Emitted(lines: seq<String>, minLength: int): (r: seq<String>)
    ensures forall k :: 0 <= k < |r| ==> |r[k]| > minLength
    ensures |r| <= DocEndCount(lines)
    decreases |lines|
  {
    if lines == [] then []
    else
      var before := lines[..|lines| - 1];
      var line := lines[|lines| - 1];
      Emitted(before, minLength)
      + (if IsDocEnd(line) && |Pending(before)| > minLength then [Pending(before)] else [])
  }

  /** The line `split_article` makes of an emitted buffer: newlines become spaces. */
  function SectionLine(buffer: String): String
  {
    Replace(buffer, "\n", " ")
  }

  /** The output line written for an emitted buffer: its line rewritten by `split_article`. */
  function SectionText(buffer: String): String
  {
    var t := SectionLine(buffer);
    ApplyReplacements(t, ArticlePairs(t)) + "\n"
  }

  /** The dictionary `split_article` returns for an emitted buffer. */
  function SectionDict(buffer: String): (r: ODict<String, String>)
    ensures Valid(r)
  {
    PutAll(Empty(), ArticlePairs(SectionLine(buffer)))
  }

  /** The output lines of the emitted buffers. */
  function Written(buffers: seq<String>): (r: seq<String>)
    ensures |r| == |buffers|
    decreases |buffers|
  {
    if buffers == [] then [] else Written(buffers[..|buffers| - 1]) + [SectionText(buffers[|buffers| - 1])]
  }

  /** `d` updated, in order, with the dictionary of each emitted buffer. */
  function SectionsDict(d: ODict<String, String>, buffers: seq<String>): (r: ODict<String, String>)
    requires Valid(d)
    ensures Valid(r)
    decreases |buffers|
  {
    if buffers == [] then d
    else Update(SectionsDict(d, buffers[..|buffers| - 1]), SectionDict(buffers[|buffers| - 1]))
  }

  /** What one more line does to the buffer: a `<doc` line empties it, a text line appends its
      collapsed form, any other line (`</doc>` or ASCII-only) leaves it alone. */
  lemma PendingStep(lines: seq<String>, i: nat)
    requires i < |lines|
    ensures IsDocStart(lines[i]) ==> Pending(lines[..i + 1]) == []
    ensures IsTextLine(lines[i]) ==> Pending(lines[..i + 1]) == Pending(lines[..i]) + Collapse(lines[i])
    ensures !IsDocStart(lines[i]) && !IsTextLine(lines[i]) ==> Pending(lines[..i + 1]) == Pending(lines[..i])
  {
    var next := lines[..i + 1];
    assert next[..i] == lines[..i];
    if !IsDocStart(lines[i]) {
      var from := i - SinceDoc(lines[..i]);
      assert next[from..][..|next[from..]| - 1] == lines[..i][from..];
    }
  }

  /** What one more line does to the counters and to the emitted buffers. */
  lemma ReadStep(lines: seq<String>, i: nat, minLength: int)
    requires i < |lines|
    ensures DocCount(lines[..i + 1]) == DocCount(lines[..i]) + (if IsDocStart(lines[i]) then 1 else 0)
    ensures IsDocEnd(lines[i]) && |Pending(lines[..i])| > minLength ==>
              Emitted(lines[..i + 1], minLength) == Emitted(lines[..i], minLength) + [Pending(lines[..i])]
    ensures !(IsDocEnd(lines[i]) && |Pending(lines[..i])| > minLength) ==>
              Emitted(lines[..i + 1], minLength) == Emitted(lines[..i], minLength)
  {
    assert lines[..i + 1][..i] == lines[..i];
  }

  /** Emitting one more buffer adds its output line and its dictionary. */
  lemma EmitStep(d: ODict<String, String>, buffers: seq<String>, b: String)
    requires Valid(d)
    ensures Written(buffers + [b]) == Written(buffers) + [SectionText(b)]
    ensures SectionsDict(d, buffers + [b]) == Update(SectionsDict(d, buffers), SectionDict(b))
  {
    assert (buffers + [b])[..|buffers|] == buffers;
  }

  /** The `</doc>` branch for a long enough buffer: the buffer becomes one line, `split_article`
      rewrites it, its dictionary updates the running one, and the rewritten line is written. */
  method EmitSection(buffer: String, dictionary0: ODict<String, String>)
    returns (dictionary: ODict<String, String>, written: String)
    requires Valid(dictionary0)
    ensures dictionary == Update(dictionary0, SectionDict(buffer))
    ensures written == SectionText(buffer)
  {
    var outputLine := Replace(buffer, "\n", " ");
    var dic, text := SplitArticle(outputLine);
    dictionary := Update(dictionary0, dic);
    written := text + "\n";
  }

  /** The reading loop of `wikiextractor_xml2txt` (the percentage it also returns is left out). */
  method ReadSections(lines: seq<String>, minLength: int)
    returns (dictionary: ODict<String, String>, total: nat, output: nat, written: seq<String>)
    ensures Valid(dictionary)
    ensures total == DocCount(lines)
    ensures output == |Emitted(lines, minLength)|
    ensures written == Written(Emitted(lines, minLength))
    ensures dictionary == SectionsDict(Empty(), Emitted(lines, minLength))
  {
    dictionary := Empty();
    total, output := 0, 0;
    written := [];
    var buffer: String := "";
    ghost var emitted: seq<String> := [];
    for i := 0 to |lines|
      invariant buffer == Pending(lines[..i])
      invariant total == DocCount(lines[..i])
      invariant emitted == Emitted(lines[..i], minLength)
      invariant output == |emitted| && written == Written(emitted)
      invariant dictionary == SectionsDict(Empty(), emitted)
    {
      var line := lines[i];
      PendingStep(lines, i);
      ReadStep(lines, i, minLength);
      if IsDocStart(line) {
        MarkersDiffer(line);
        total := total + 1;
        buffer := "";
      } else if IsDocEnd(line) {
        if |buffer| > minLength {
          EmitStep(Empty(), emitted, buffer);
          output := output + 1;
          var text;
          dictionary, text := EmitSection(buffer, dictionary);
          written := written + [text];
          emitted := emitted + [buffer];
        }
      } else if !AllAscii(line) {
        buffer := buffer + Collapse(line);
      }
    }
    assert lines[..|lines|] == lines;
  }

  /** Updating with `split_article` dictionaries keeps every value a well-formed simplified key. */
  lemma {:induction false} SectionsDictWellKeyed(d: ODict<String, String>, buffers: seq<String>)
    requires Valid(d) && WellKeyed(d)
    ensures WellKeyed(SectionsDict(d, buffers))
    decreases |buffers|
  {
    if buffers != [] {
      SectionsDictWellKeyed(d, buffers[..|buffers| - 1]);
      var b := buffers[|buffers| - 1];
      PairsKeepThresholds(ArticlePairs(SectionLine(b)));
      UpdateWellKeyed(SectionsDict(d, buffers[..|buffers| - 1]), SectionDict(b));
    }
  }

  lemma UpdateWellKeyed(d: ODict<String, String>, e: ODict<String, String>)
    requires Valid(d) && Valid(e) && WellKeyed(d) && WellKeyed(e)
    ensures WellKeyed(Update(d, e))
  {
    UpdateEntries(d, e);
  }

  /* `main`: every file of the folder without a `.` in its name is read as a dump, the
     dictionaries are merged, and the result is written sorted into two OpenCC tables. */

  /** A folder entry: its name, whether it is a regular file, and its lines. */
  datatype FolderEntry = FolderEntry(name: String, isFile: bool, lines: seq<String>)

  predicate IsDump(f: FolderEntry)
  {
    f.isFile && '.' !in f.name
  }

  /** The dictionary of the dumps among `files`, merged in order. */
  function FolderDict(files: seq<FolderEntry>, minLength: int): (r: ODict<String, String>)
    ensures Valid(r)
    decreases |files|
  {
    if files == [] then Empty()
    else
      var f := files[|files| - 1];
      var before := FolderDict(files[..|files| - 1], minLength);
      if IsDump(f) then Update(before, SectionsDict(Empty(), Emitted(f.lines, minLength))) else before
  }

  /** The lines each dump appends to its output file (the dump's path with `.txt` added), in order. */
  function FolderOutputs(files: seq<FolderEntry>, minLength: int): seq<(String, seq<String>)>
    decreases |files|
  {
    if files == [] then []
    else
      var f := files[|files| - 1];
      FolderOutputs(files[..|files| - 1], minLength)
      + (if IsDump(f) then [(f.name + ".txt", Written(Emitted(f.lines, minLength)))] else [])
  }

  /** The loop of `main` over the folder. */
  method ReadFolder(files: seq<FolderEntry>, minLength: int)
    returns (dictionary: ODict<String, String>, outputs: seq<(String, seq<String>)>)
    ensures dictionary == FolderDict(files, minLength)
    ensures outputs == FolderOutputs(files, minLength)
  {
    dictionary := Empty();
    outputs := [];
    for i := 0 to |files|
      invariant dictionary == FolderDict(files[..i], minLength)
      invariant outputs == FolderOutputs(files[..i], minLength)
    {
      assert files[..i + 1][..i] == files[..i];
      var f := files[i];
      if f.isFile && '.' !in f.name {
        var dic, total, output, written := ReadSections(f.lines, minLength);
        dictionary := Update(dictionary, dic);
        outputs := outputs + [(f.name + ".txt", written)];
      }
    }
    assert files[..|files|] == files;
  }

  /** Every value of the merged dictionary is a well-formed simplified key. */
  lemma {:induction false} FolderDictWellKeyed(files: seq<FolderEntry>, minLength: int)
    ensures WellKeyed(FolderDict(files, minLength))
    decreases |files|
  {
    if files != [] {
      FolderDictWellKeyed(files[..|files| - 1], minLength);
      var f := files[|files| - 1];
      if IsDump(f) {
        SectionsDictWellKeyed(Empty(), Emitted(f.lines, minLength));
        UpdateWellKeyed(FolderDict(files[..|files| - 1], minLength),
                        SectionsDict(Empty(), Emitted(f.lines, minLength)));
      }
    }
  }

  /** `sorted(dictionary.items(), key=lambda x: x[0])`. The keys are distinct, so this is the
      keys in ascending order, each with its value. */
  function SortedItems(d: ODict<String, String>): (r: seq<(String, String)>)
    requires Valid(d)
    ensures |r| == Len(d)
    ensures forall i :: 0 <= i < |r| ==> r[i].0 in d.entries && r[i].1 == d.entries[r[i].0]
  {
    var keys := Sorting.Sort(d.order, Less);
    assert forall i :: 0 <= i < |keys| ==> keys[i] in d.entries by {
      forall i | 0 <= i < |keys| ensures keys[i] in d.entries {
        assert keys[i] in multiset(keys);
      }
    }
    seq(|keys|, i requires 0 <= i < |keys| => (keys[i], d.entries[keys[i]]))
  }

  predicate KeyLess(a: (String, String), b: (String, String))
  {
    Less(a.0, b.0)
  }

  /** The sorted items hold every entry once, keys strictly ascending. */
  lemma SortedItemsExact(d: ODict<String, String>)
    requires Valid(d)
    ensures Sorting.SortedBy(SortedItems(d), KeyLess)
    ensures forall k :: k in d.entries ==> exists i :: 0 <= i < |SortedItems(d)| && SortedItems(d)[i].0 == k
  {
    SortedItemsAscending(d);
    SortedItemsCover(d);
  }

  lemma SortedItemsAscending(d: ODict<String, String>)
    requires Valid(d)
    ensures Sorting.SortedBy(SortedItems(d), KeyLess)
  {
    var keys := Sorting.Sort(d.order, Less);
    var r := SortedItems(d);
    assert forall i :: 0 <= i < |r| ==> r[i].0 == keys[i];
    Sorting.StringOrder();
    Sorting.SortSorted(d.order, Less);
  }

  lemma SortedItemsCover(d: ODict<String, String>)
    requires Valid(d)
    ensures forall k :: k in d.entries ==> exists i :: 0 <= i < |SortedItems(d)| && SortedItems(d)[i].0 == k
  {
    var keys := Sorting.Sort(d.order, Less);
    var r := SortedItems(d);
    assert forall i :: 0 <= i < |r| ==> r[i].0 == keys[i];
    forall k | k in d.entries ensures exists i :: 0 <= i < |r| && r[i].0 == k {
      assert k in multiset(d.order);
      assert k in keys;
      var i :| 0 <= i < |keys| && keys[i] == k;
      assert r[i].0 == k;
    }
  }

  /** An entry goes to the second table when its key or its value holds whitespace. */
  predicate Spaced(item: (String, String))
  {
    HasSpace(item.0) || HasSpace(item.1)
  }

  /** The items without whitespace, in order. */
  function PlainItems(items: seq<(String, String)>): seq<(String, String)>
    decreases |items|
  {
    if items == [] then []
    else PlainItems(items[..|items| - 1]) + (if Spaced(items[|items| - 1]) then [] else [items[|items| - 1]])
  }

  /** The items with whitespace, in order. */
  function SpacedItems(items: seq<(String, String)>): seq<(String, String)>
    decreases |items|
  {
    if items == [] then []
    else SpacedItems(items[..|items| - 1]) + (if Spaced(items[|items| - 1]) then [items[|items| - 1]] else [])
  }

  /** The two tables split the items: together they hold all of them, each item lands in exactly
      the table its whitespace decides, and each table keeps the order of the items. */
  lemma {:induction false} Partition(items: seq<(String, String)>)
    ensures forall x :: x in PlainItems(items) <==> x in items && !Spaced(x)
    ensures forall x :: x in SpacedItems(items) <==> x in items && Spaced(x)
    ensures Sorting.Subsequence(PlainItems(items), items) && Sorting.Subsequence(SpacedItems(items), items)
    decreases |items|
  {
    if items != [] {
      var before := items[..|items| - 1];
      Partition(before);
      assert items == before + [items[|items| - 1]];
      Sorting.SubsequenceSnoc(PlainItems(before), before, items[|items| - 1], !Spaced(items[|items| - 1]));
      Sorting.SubsequenceSnoc(SpacedItems(before), before, items[|items| - 1], Spaced(items[|items| - 1]));
    }
  }

  /** Together the two tables have one row per item. */
  lemma {:induction false} PartitionSizes(items: seq<(String, String)>)
    ensures |PlainItems(items)| + |SpacedItems(items)| == |items|
    decreases |items|
  {
    if items != [] { PartitionSizes(items[..|items| - 1]); }
  }

  /** The output loop of `main`: the two OpenCC tables and `n`, the number of rows of the first. */
  method WriteTables(dictionary: ODict<String, String>) returns (first: seq<String>, second: seq<String>, n: nat)
    requires Valid(dictionary)
    ensures first == Rows(PlainItems(SortedItems(dictionary)))
    ensures second == Rows(SpacedItems(SortedItems(dictionary)))
    ensures n == |first| && n <= Len(dictionary)
  {
    var items := SortedItems(dictionary);
    first, second, n := [], [], 0;
    for i := 0 to |items|
      invariant first == Rows(PlainItems(items[..i])) && second == Rows(SpacedItems(items[..i]))
      invariant n == |first|
    {
      PartitionStep(items, i);
      var key, value := items[i].0, items[i].1;
      if Spaced((key, value)) {
        RowsSnoc(SpacedItems(items[..i]), items[i]);
        second := second + [key + "\t" + value + "\n"];
      } else {
        RowsSnoc(PlainItems(items[..i]), items[i]);
        first := first + [key + "\t" + value + "\n"];
        n := n + 1;
      }
    }
    assert items[..|items|] == items;
    PartitionSizes(items);
  }

  lemma PartitionStep(items: seq<(String, String)>, i: nat)
    requires i < |items|
    ensures Spaced(items[i]) ==> PlainItems(items[..i + 1]) == PlainItems(items[..i])
    ensures Spaced(items[i]) ==> SpacedItems(items[..i + 1]) == SpacedItems(items[..i]) + [items[i]]
    ensures !Spaced(items[i]) ==> PlainItems(items[..i + 1]) == PlainItems(items[..i]) + [items[i]]
    ensures !Spaced(items[i]) ==> SpacedItems(items[..i + 1]) == SpacedItems(items[..i])
  {
    assert items[..i + 1][..i] == items[..i];
  }

  /** Both tables are written in ascending key order. */
  lemma TablesSorted(d: ODict<String, String>)
    requires Valid(d)
    ensures Sorting.SortedBy(PlainItems(SortedItems(d)), KeyLess)
    ensures Sorting.SortedBy(SpacedItems(SortedItems(d)), KeyLess)
  {
    SortedItemsExact(d);
    Partition(SortedItems(d));
    Sorting.SubsequenceSorted(PlainItems(SortedItems(d)), SortedItems(d), KeyLess);
    Sorting.SubsequenceSorted(SpacedItems(SortedItems(d)), SortedItems(d), KeyLess);
  }
}

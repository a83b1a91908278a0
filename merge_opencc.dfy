/** scripts/merge_opencc.py: the conversion pairs of a folder of block lines merged into one OpenCC
    table (`merge_opencc`), and the same parse kept in an object (`Translation`). */
module MergeOpencc {
  import opened Wrappers
  import opened PyStr
  import opened Dict
  import opened LocaleParse
  import opened Table
  import opened Folder

  /** The pairs of some strings, one after the other, each parsed as it is. */
  function StringsPairs(strings: seq<String>, rules: Rules): seq<(String, String)>
    decreases |strings|
  {
    if strings == [] then []
    else StringsPairs(strings[..|strings| - 1], rules) + StringPairs(strings[|strings| - 1], rules)
  }

  /** The pairs of the lines of a file, each unwrapped first (`line.strip()[1:-1].replace("H|","")`). */
  function LinesPairs(lines: seq<String>, rules: Rules): seq<(String, String)>
    decreases |lines|
  {
    if lines == [] then []
    else LinesPairs(lines[..|lines| - 1], rules) + StringPairs(Unwrap(lines[|lines| - 1]), rules)
  }

  /** The pairs of the files, in order. */
  function FilesPairs(files: seq<InputFile>): seq<(String, String)>
    decreases |files|
  {
    if files == [] then []
    else FilesPairs(files[..|files| - 1]) + LinesPairs(files[|files| - 1].lines, MergeRules)
  }

  /** Every value is a key of at least two characters, within the rules' length bound, other than
      the variant that maps to it. */
  predicate KeyedDict(d: ODict<String, String>, rules: Rules)
  {
    forall v :: v in d.entries ==> Keyed((v, d.entries[v]), rules)
  }

  predicate Keyed(pair: (String, String), rules: Rules)
  {
    pair.0 != pair.1 && |pair.1| >= 2 && (rules.maxKeyLen.Some? ==> |pair.1| <= rules.maxKeyLen.value)
  }

  /** Assigning keyed pairs keeps a dictionary keyed. */
  lemma PutAllKeyed(d: ODict<String, String>, pairs: seq<(String, String)>, rules: Rules)
    requires Valid(d) && KeyedDict(d, rules)
    requires forall i :: 0 <= i < |pairs| ==> Keyed(pairs[i], rules)
    ensures KeyedDict(PutAll(d, pairs), rules)
  {
    forall v | v in PutAll(d, pairs).entries ensures Keyed((v, PutAll(d, pairs).entries[v]), rules) {
      PutAllLastWins(d, pairs, v);
    }
  }

  lemma {:induction false} StringsPairsKeyed(strings: seq<String>, rules: Rules)
    ensures forall i :: 0 <= i < |StringsPairs(strings, rules)| ==> Keyed(StringsPairs(strings, rules)[i], rules)
    decreases |strings|
  {
    if strings != [] {
      StringsPairsKeyed(strings[..|strings| - 1], rules);
    }
  }

  lemma {:induction false} LinesPairsKeyed(lines: seq<String>, rules: Rules)
    ensures forall i :: 0 <= i < |LinesPairs(lines, rules)| ==> Keyed(LinesPairs(lines, rules)[i], rules)
    decreases |lines|
  {
    if lines != [] {
      LinesPairsKeyed(lines[..|lines| - 1], rules);
    }
  }

  lemma {:induction false} FilesPairsKeyed(files: seq<InputFile>)
    ensures forall i :: 0 <= i < |FilesPairs(files)| ==> Keyed(FilesPairs(files)[i], MergeRules)
    decreases |files|
  {
    if files != [] {
      FilesPairsKeyed(files[..|files| - 1]);
      LinesPairsKeyed(files[|files| - 1].lines, MergeRules);
    }
  }

  /** `merge_opencc(input_folder, path, input_suffix)`: the table written to `path`, one row per
      dictionary item in insertion order, and the dictionary it comes from. */
  method Merge(files: seq<InputFile>, suffix: String) returns (dictionary: ODict<String, String>, rows: seq<String>)
    ensures Valid(dictionary)
    ensures dictionary == PutAll(Empty(), FilesPairs(Selected(files, suffix)))
    ensures rows == Rows(Items(dictionary))
    ensures KeyedDict(dictionary, MergeRules)
  {
    var selected := Selected(files, suffix);
    dictionary := Empty();
    for f := 0 to |selected|
      invariant Valid(dictionary)
      invariant dictionary == PutAll(Empty(), FilesPairs(selected[..f]))
    {
      assert selected[..f + 1][..f] == selected[..f];
      PutAllAppend(Empty(), FilesPairs(selected[..f]), LinesPairs(selected[f].lines, MergeRules));
      dictionary := RecordLines(selected[f].lines, dictionary);
    }
    assert selected[..|selected|] == selected;
    FilesPairsKeyed(selected);
    PutAllKeyed(Empty(), FilesPairs(selected), MergeRules);
    rows := WriteRows(Items(dictionary));
  }

  /** The loop over the lines of one file. */
  method RecordLines(lines: seq<String>, dictionary0: ODict<String, String>) returns (dictionary: ODict<String, String>)
    requires Valid(dictionary0)
    ensures Valid(dictionary)
    ensures dictionary == PutAll(dictionary0, LinesPairs(lines, MergeRules))
  {
    dictionary := dictionary0;
    for i := 0 to |lines|
      invariant Valid(dictionary)
      invariant dictionary == PutAll(dictionary0, LinesPairs(lines[..i], MergeRules))
    {
      assert lines[..i + 1][..i] == lines[..i];
      PutAllAppend(dictionary0, LinesPairs(lines[..i], MergeRules), StringPairs(Unwrap(lines[i]), MergeRules));
      dictionary := RecordString(Unwrap(lines[i]), MergeRules, dictionary);
    }
    assert lines[..|lines|] == lines;
  }

  /** The loop of `split_strings` over the strings. */
  method RecordStrings(strings: seq<String>, rules: Rules, dictionary0: ODict<String, String>)
    returns (dictionary: ODict<String, String>)
    requires Valid(dictionary0)
    ensures Valid(dictionary)
    ensures dictionary == PutAll(dictionary0, StringsPairs(strings, rules))
  {
    dictionary := dictionary0;
    for i := 0 to |strings|
      invariant Valid(dictionary)
      invariant dictionary == PutAll(dictionary0, StringsPairs(strings[..i], rules))
    {
      assert strings[..i + 1][..i] == strings[..i];
      PutAllAppend(dictionary0, StringsPairs(strings[..i], rules), StringPairs(strings[i], rules));
      dictionary := RecordString(strings[i], rules, dictionary);
    }
    assert strings[..|strings|] == strings;
  }

  /** The body of the loop over lines (or strings): find the key, check it against the rules, then
      assign `dictionary[value] = key` for each segment naming another variant. */
  method RecordString(s: String, rules: Rules, dictionary0: ODict<String, String>) returns (dictionary: ODict<String, String>)
    requires Valid(dictionary0)
    ensures Valid(dictionary)
    ensures dictionary == PutAll(dictionary0, StringPairs(s, rules))
  {
    dictionary := dictionary0;
    var found := SearchKey(s, 0);
    if found.Some? {
      var key := if rules.stripKey then Strip(found.value) else found.value;
      if |key| >= 2 && (rules.maxKeyLen.None? || |key| <= rules.maxKeyLen.value) && (!rules.needNonAscii || HasNonAscii(key)) {
        assert KeyOf(s, rules) == Some(key);
        var locales := Split(s, ';');
        if |locales| > 1 {
          dictionary := RecordSegments(locales, key, rules, dictionary);
        }
      }
    }
  }

  /** The loop over the `;`-segments of one string whose key passed the rules. */
  method RecordSegments(locales: seq<String>, key: String, rules: Rules, dictionary0: ODict<String, String>)
    returns (dictionary: ODict<String, String>)
    requires Valid(dictionary0)
    ensures Valid(dictionary)
    ensures dictionary == PutAll(dictionary0, SegmentPairs(locales, key, rules))
  {
    dictionary := dictionary0;
    assert locales[..0] == [];
    for i := 0 to |locales|
      invariant Valid(dictionary)
      invariant dictionary == PutAll(dictionary0, SegmentPairs(locales[..i], key, rules))
    {
      assert locales[..i + 1] == locales[..i] + [locales[i]];
      var value := SegmentValue(locales[i], rules);
      if value.Some? && key != value.value {
        SegmentPairsAdd(locales[..i], locales[i], key, rules, value.value);
        PutAllSnoc(dictionary0, SegmentPairs(locales[..i], key, rules), (value.value, key));
        dictionary := Put(dictionary, value.value, key);
      } else {
        SegmentPairsSkip(locales[..i], locales[i], key, rules);
      }
    }
    assert locales[..|locales|] == locales;
  }

  /** `for key, value in items: file.write(f"{key}\t{value}\n")` */
  method WriteRows(items: seq<(String, String)>) returns (rows: seq<String>)
    ensures rows == Rows(items)
  {
    rows := [];
    for i := 0 to |items|
      invariant rows == Rows(items[..i])
    {
      RowsSnoc(items[..i], items[i]);
      assert items[..i + 1] == items[..i] + [items[i]];
      rows := rows + [Row(items[i])];
    }
    assert items[..|items|] == items;
  }

  /** `[line.strip()[1:-1].replace("H|","") for line in file]` */
  function UnwrapAll(lines: seq<String>): (r: seq<String>)
    ensures |r| == |lines| && forall i :: 0 <= i < |r| ==> r[i] == Unwrap(lines[i])
  {
    seq(|lines|, i requires 0 <= i < |lines| => Unwrap(lines[i]))
  }

  /** Reading a file with `read_file` and parsing its strings with `split_strings` gives the pairs
      `merge_opencc` finds in the same lines. */
  lemma LinesPairsUnwrapped(lines: seq<String>, rules: Rules)
    ensures StringsPairs(UnwrapAll(lines), rules) == LinesPairs(lines, rules)
  {
    UnwrappedPairs(lines, UnwrapAll(lines), rules);
  }

  /** Any strings that are the lines unwrapped one by one give the pairs of the lines. */
  lemma {:induction false} UnwrappedPairs(lines: seq<String>, strings: seq<String>, rules: Rules)
    requires |strings| == |lines| && forall i :: 0 <= i < |lines| ==> strings[i] == Unwrap(lines[i])
    ensures StringsPairs(strings, rules) == LinesPairs(lines, rules)
    decreases |lines|
  {
    if lines != [] {
      var n := |lines| - 1;
      UnwrappedPairs(lines[..n], strings[..n], rules);
    }
  }

  /** The `Translation` object: the dictionary its parses build up, and the unwrapped lines of the
      file read last. */
  class Translation {
    var dictionary: ODict<String, String>
    var lines: seq<String>

    /** The dictionary is well formed and every value in it is a key that passed the checks. */
    ghost predicate Valid()
      reads this
    {
      Dict.Valid(dictionary) && KeyedDict(dictionary, TranslationRules)
    }

    /** `Translation()` */
    constructor()
      ensures Valid() && dictionary == Empty() && lines == []
    {
      dictionary := Empty();
      lines := [];
    }

    /** `read_file(file_path)`: the unwrapped lines of the file, or none when it cannot be read. */
    method ReadFile(content: Option<seq<String>>) returns (r: seq<String>)
      requires Valid()
      modifies this
      ensures Valid() && dictionary == old(dictionary)
      ensures r == lines
      ensures content.None? ==> r == []
      ensures content.Some? ==> r == UnwrapAll(content.value)
    {
      lines := [];
      if content.Some? {
        lines := UnwrapAll(content.value);
      }
      r := lines;
    }

    /** `split_strings()` over `strings`: every pair of every string is assigned in the dictionary,
        which keeps what earlier calls put in it. */
    method SplitStrings(strings: seq<String>) returns (r: ODict<String, String>)
      requires Valid()
      modifies this
      ensures Valid() && lines == old(lines)
      ensures dictionary == PutAll(old(dictionary), StringsPairs(strings, TranslationRules))
      ensures r == dictionary
    {
      ghost var d0 := dictionary;
      dictionary := RecordStrings(strings, TranslationRules, dictionary);
      StringsPairsKeyed(strings, TranslationRules);
      PutAllKeyed(d0, StringsPairs(strings, TranslationRules), TranslationRules);
      r := dictionary;
    }

    /** `save_content(path)`: the rows written, one per dictionary item in insertion order. */
    method SaveContent() returns (rows: seq<String>)
      requires Valid()
      ensures rows == Rows(Items(dictionary))
    {
      rows := WriteRows(Items(dictionary));
    }
  }
}

/** scripts/merge_csv.py: per-key sums of the `key<TAB>count` lines of a folder's files, the keys
    above a threshold, and the histogram of the sums. */
module MergeCsv {
  import opened Wrappers
  import opened PyStr
  import opened Dict
  import opened Folder
  import Sorting
  import Table

  /* `int(value)` and `str(count)` for base 10. */

  predicate IsDigit(c: char)
  {
    '0' <= c <= '9'
  }

  function DigitValue(c: char): nat
    requires IsDigit(c)
  {
    (c as int) - ('0' as int)
  }

  function DigitChar(d: nat): (c: char)
    requires d < 10
    ensures IsDigit(c) && DigitValue(c) == d
  {
    (('0' as int) + d) as char
  }

  /** The digits that `int` accepts: ASCII digits, with single underscores between two of them. */
  predicate DigitText(t: String)
  {
    && t != [] && IsDigit(t[0]) && IsDigit(t[|t| - 1])
    && (forall i :: 0 <= i < |t| ==> IsDigit(t[i]) || t[i] == '_')
    && (forall i :: 0 <= i < |t| - 1 ==> t[i] == '_' ==> t[i + 1] != '_')
  }

  /** The number the digits of `t` spell, underscores skipped. */
  function DigitsValue(t: String): nat
    requires forall i :: 0 <= i < |t| ==> IsDigit(t[i]) || t[i] == '_'
    decreases |t|
  {
    if t == [] then 0
    else
      var init := t[..|t| - 1];
      assert forall i :: 0 <= i < |init| ==> init[i] == t[i];
      if t[|t| - 1] == '_' then DigitsValue(init) else 10 * DigitsValue(init) + DigitValue(t[|t| - 1])
  }

  /** The whitespace `int` skips around its digits. CPython turns every non-ASCII whitespace
      character into a space and then skips only `\t`, `\n`, `\v`, `\f`, `\r` and space, so the
      ASCII separators U+001C to U+001F, which `str.isspace` counts as whitespace, stay and make the
      text invalid. */
  predicate IntSpace(c: char)
  {
    IsSpace(c) && !(0x1C <= c as int <= 0x1F)
  }

  /** Number of `int` whitespace characters at the start of `s`. */
  function LeadingIntSpaces(s: String): (n: nat)
    ensures n <= |s|
    ensures forall k :: 0 <= k < n ==> IntSpace(s[k])
    ensures n < |s| ==> !IntSpace(s[n])
    decreases |s|
  {
    if s != [] && IntSpace(s[0]) then 1 + LeadingIntSpaces(s[1..]) else 0
  }

  /** Number of `int` whitespace characters at the end of `s`. */
  function TrailingIntSpaces(s: String): (n: nat)
    ensures n <= |s|
    ensures forall k :: |s| - n <= k < |s| ==> IntSpace(s[k])
    ensures n < |s| ==> !IntSpace(s[|s| - n - 1])
    decreases |s|
  {
    if s != [] && IntSpace(s[|s| - 1]) then 1 + TrailingIntSpaces(s[..|s| - 1]) else 0
  }

  /** What `int` reads of `s`: the slice left after dropping `int` whitespace at both ends. */
  function IntStrip(s: String): (r: String)
    ensures exists i, j :: 0 <= i <= j <= |s| && r == s[i..j]
                           && (forall k :: 0 <= k < i ==> IntSpace(s[k]))
                           && (forall k :: j <= k < |s| ==> IntSpace(s[k]))
    ensures r != [] ==> !IntSpace(r[0]) && !IntSpace(r[|r| - 1])
  {
    var i := LeadingIntSpaces(s);
    var j := |s| - TrailingIntSpaces(s[i..]);
    assert forall k :: j <= k < |s| ==> s[k] == s[i..][k - i];
    s[i..j]
  }

  /** A string with no `int` whitespace at either end is read whole. */
  lemma IntStripClean(s: String)
    requires s != [] ==> !IntSpace(s[0]) && !IntSpace(s[|s| - 1])
    ensures IntStrip(s) == s
  {
  }

  /** One `int` whitespace character after a clean string is dropped. */
  lemma IntStripTrailing(s: String, c: char)
    requires s != [] && !IntSpace(s[0]) && !IntSpace(s[|s| - 1]) && IntSpace(c)
    ensures IntStrip(s + [c]) == s
  {
    var t := s + [c];
    assert t[..|t| - 1] == s;
    assert TrailingIntSpaces(t) == 1;
  }

  /** `int(s)`: `int` whitespace dropped at both ends, an optional sign, then digits; `None` is the
      `ValueError` the script does not catch. */
  function ParseInt(s: String): Option<int>
  {
    ParseSigned(IntStrip(s))
  }

  /** An optional sign, then digits. */
  function ParseSigned(t: String): Option<int>
  {
    if t != [] && (t[0] == '-' || t[0] == '+') then
      match ParseUnsigned(t[1..])
      case None => None
      case Some(v) => Some(if t[0] == '-' then -v else v)
    else ParseUnsigned(t)
  }

  function ParseUnsigned(t: String): Option<int>
  {
    if DigitText(t) then Some(DigitsValue(t) as int) else None
  }

  /** `str(n)` for `n >= 0` */
  function NatString(n: nat): (r: String)
    ensures r != [] && forall i :: 0 <= i < |r| ==> IsDigit(r[i])
  {
    if n < 10 then [DigitChar(n)] else NatString(n / 10) + [DigitChar(n % 10)]
  }

  /** `str(n)` */
  function IntString(n: int): (r: String)
    ensures r != [] && IsDigit(r[|r| - 1]) && forall i :: 0 <= i < |r| ==> IsDigit(r[i]) || r[i] == '-'
  {
    if n < 0 then "-" + NatString(-n) else NatString(n)
  }

  lemma {:induction false} NatStringValue(n: nat)
    ensures DigitsValue(NatString(n)) == n
    decreases n
  {
    if n >= 10 {
      NatStringValue(n / 10);
      var r := NatString(n);
      assert r[..|r| - 1] == NatString(n / 10);
    }
  }

  lemma DigitNotSpace(c: char)
    requires IsDigit(c) || c == '-'
    ensures !IsSpace(c)
  {
  }

  /** `int` reads a run of digits as its value. */
  lemma ParseDigits(t: String)
    requires DigitText(t)
    ensures ParseInt(t) == Some(DigitsValue(t) as int)
  {
    DigitNotSpace(t[0]);
    DigitNotSpace(t[|t| - 1]);
    IntStripClean(t);
  }

  /** `int` reads a minus sign and a run of digits as the negated value. */
  lemma ParseNegative(t: String)
    requires DigitText(t)
    ensures ParseInt(['-'] + t) == Some(-(DigitsValue(t) as int))
  {
    var s := ['-'] + t;
    DigitNotSpace('-');
    DigitNotSpace(t[|t| - 1]);
    assert s[|s| - 1] == t[|t| - 1];
    IntStripClean(s);
    assert s[1..] == t;
  }

  lemma NatStringDigits(m: nat)
    ensures DigitText(NatString(m)) && DigitsValue(NatString(m)) == m
  {
    NatStringValue(m);
  }

  /** What `str` writes, `int` reads back. */
  lemma IntStringRoundTrip(n: int)
    ensures ParseInt(IntString(n)) == Some(n)
  {
    var digits := NatString(if n < 0 then -n else n);
    NatStringDigits(if n < 0 then -n else n);
    if n < 0 {
      ParseNegative(digits);
      assert IntString(n) == ['-'] + digits;
    } else {
      ParseDigits(digits);
      assert IntString(n) == digits;
    }
  }

  /* Reading the lines. */

  /** What one line does: a tab line with a key and an integer is counted; a tab line that does not
      split into two parts, or whose count is not an integer, raises `ValueError`; any other line
      longer than one character is reported; the rest are skipped. */
  datatype LineKind = Counted(key: String, value: int) | Malformed | Reported | Ignored

  function Classify(line: String): LineKind
  {
    if '\t' in line then
      var parts := Split(line, '\t');
      if |parts| != 2 then Malformed
      else match ParseInt(parts[1])
        case Some(v) => Counted(parts[0], v)
        case None => Malformed
    else if |line| > 1 then Reported
    else Ignored
  }

  /** How far the reading got: the counted (key, value) lines, the reported lines, and whether a
      `ValueError` stopped it. */
  datatype Scan = Scan(counted: seq<(String, int)>, reported: seq<String>, failed: bool)

  function Start(): Scan
  {
    Scan([], [], false)
  }

  function Step(s: Scan, line: String): Scan
  {
    if s.failed then s
    else match Classify(line)
      case Counted(k, v) => s.(counted := s.counted + [(k, v)])
      case Reported => s.(reported := s.reported + [line])
      case Ignored => s
      case Malformed => s.(failed := true)
  }

  function ScanFrom(s: Scan, lines: seq<String>): Scan
    decreases |lines|
  {
    if lines == [] then s else Step(ScanFrom(s, lines[..|lines| - 1]), lines[|lines| - 1])
  }

  lemma {:induction false} ScanFromAppend(s: Scan, a: seq<String>, b: seq<String>)
    ensures ScanFrom(s, a + b) == ScanFrom(ScanFrom(s, a), b)
    decreases |b|
  {
    if b == [] {
      assert a + b == a;
    } else {
      assert (a + b)[..|a + b| - 1] == a + b[..|b| - 1];
      ScanFromAppend(s, a, b[..|b| - 1]);
    }
  }

  /** Once a `ValueError` is raised, no later line is read. */
  lemma {:induction false} ScanFailedStays(s: Scan, lines: seq<String>)
    requires s.failed
    ensures ScanFrom(s, lines) == s
    decreases |lines|
  {
    if lines != [] {
      ScanFailedStays(s, lines[..|lines| - 1]);
    }
  }

  lemma ScanSnoc(s: Scan, lines: seq<String>, i: nat)
    requires i < |lines|
    ensures ScanFrom(s, lines[..i + 1]) == Step(ScanFrom(s, lines[..i]), lines[i])
  {
    assert lines[..i + 1][..i] == lines[..i];
  }

  /** Reading stops after all the lines or at the first failure: either way the scan is complete. */
  lemma ScanRest(s: Scan, lines: seq<String>, i: nat)
    requires i <= |lines| && (i == |lines| || ScanFrom(s, lines[..i]).failed)
    ensures ScanFrom(s, lines) == ScanFrom(s, lines[..i])
  {
    if i < |lines| {
      ScanFailedStays(ScanFrom(s, lines[..i]), lines[i..]);
      ScanFromAppend(s, lines[..i], lines[i..]);
      assert lines[..i] + lines[i..] == lines;
    } else {
      assert lines[..i] == lines;
    }
  }

  /** The lines of the files, one file after the other. */
  function AllLines(files: seq<InputFile>): seq<String>
    decreases |files|
  {
    if files == [] then [] else AllLines(files[..|files| - 1]) + files[|files| - 1].lines
  }

  /** `key_counts[k] = v` for a new key, `key_counts[k] += v` for a known one. */
  function AddCount(d: ODict<String, int>, k: String, v: int): (r: ODict<String, int>)
    requires Valid(d)
    ensures Valid(r)
  {
    if k !in d.entries then Put(d, k, v) else Put(d, k, d.entries[k] + v)
  }

  /** `key_counts` after the given counted lines. */
  function Counts(pairs: seq<(String, int)>): (r: ODict<String, int>)
    ensures Valid(r)
    decreases |pairs|
  {
    if pairs == [] then Empty()
    else AddCount(Counts(pairs[..|pairs| - 1]), pairs[|pairs| - 1].0, pairs[|pairs| - 1].1)
  }

  lemma CountsSnoc(pairs: seq<(String, int)>, p: (String, int))
    ensures Counts(pairs + [p]) == AddCount(Counts(pairs), p.0, p.1)
  {
    assert (pairs + [p])[..|pairs|] == pairs;
  }

  /** The sum of the values of the lines with key `k`. */
  function Total(pairs: seq<(String, int)>, k: String): int
    decreases |pairs|
  {
    if pairs == [] then 0
    else Total(pairs[..|pairs| - 1], k) + (if pairs[|pairs| - 1].0 == k then pairs[|pairs| - 1].1 else 0)
  }

  /** A key is counted exactly when some line names it, and its count is the sum of those lines'
      values. */
  lemma {:induction false} CountsAreSums(pairs: seq<(String, int)>, k: String)
    ensures k in Counts(pairs).entries <==> exists i :: 0 <= i < |pairs| && pairs[i].0 == k
    ensures k in Counts(pairs).entries ==> Counts(pairs).entries[k] == Total(pairs, k)
    decreases |pairs|
  {
    if pairs != [] {
      var init := pairs[..|pairs| - 1];
      CountsAreSums(init, k);
      KeyNamedSnoc(pairs, k);
      if k !in Counts(init).entries {
        TotalAbsent(init, k);
      }
    }
  }

  lemma KeyNamedSnoc(pairs: seq<(String, int)>, k: String)
    requires pairs != []
    ensures var init := pairs[..|pairs| - 1];
            (exists i :: 0 <= i < |pairs| && pairs[i].0 == k) <==>
            (exists i :: 0 <= i < |init| && init[i].0 == k) || pairs[|pairs| - 1].0 == k
  {
    var init := pairs[..|pairs| - 1];
    if exists i :: 0 <= i < |pairs| && pairs[i].0 == k {
      var i :| 0 <= i < |pairs| && pairs[i].0 == k;
      if i < |init| {
        assert init[i].0 == k;
      }
    }
    if exists i :: 0 <= i < |init| && init[i].0 == k {
      var i :| 0 <= i < |init| && init[i].0 == k;
      assert pairs[i].0 == k;
    }
  }

  lemma {:induction false} TotalAbsent(pairs: seq<(String, int)>, k: String)
    requires forall i :: 0 <= i < |pairs| ==> pairs[i].0 != k
    ensures Total(pairs, k) == 0
    decreases |pairs|
  {
    if pairs != [] {
      TotalAbsent(pairs[..|pairs| - 1], k);
    }
  }

  /** The reading loops of `merge_csv`: every line of every file whose name ends with the suffix,
      until a line raises `ValueError`. */
  method CountFiles(files: seq<InputFile>, suffix: String)
    returns (keyCounts: ODict<String, int>, reported: seq<String>, failed: bool)
    ensures var scan := ScanFrom(Start(), AllLines(Selected(files, suffix)));
            keyCounts == Counts(scan.counted) && reported == scan.reported && failed == scan.failed
  {
    keyCounts, reported, failed := Empty(), [], false;
    ghost var scan := Start();
    var f := 0;
    while f < |files|
      invariant 0 <= f <= |files|
      invariant scan == ScanFrom(Start(), AllLines(Selected(files[..f], suffix)))
      invariant keyCounts == Counts(scan.counted) && reported == scan.reported && failed == scan.failed
    {
      assert files[..f + 1][..f] == files[..f];
      ghost var before := AllLines(Selected(files[..f], suffix));
      if EndsWith(files[f].name, suffix) {
        assert AllLines(Selected(files[..f + 1], suffix)) == before + files[f].lines;
        ScanFromAppend(Start(), before, files[f].lines);
        keyCounts, reported, failed, scan := CountLines(files[f].lines, scan, keyCounts, reported);
      } else {
        assert Selected(files[..f + 1], suffix) == Selected(files[..f], suffix);
      }
      f := f + 1;
      if failed {
        RestAfterFailure(files, f, suffix, scan);
        return;
      }
    }
    assert files[..f] == files;
  }

  /** After a failure in the first `f` files, the later files change nothing. */
  lemma RestAfterFailure(files: seq<InputFile>, f: nat, suffix: String, scan: Scan)
    requires f <= |files| && scan.failed
    requires scan == ScanFrom(Start(), AllLines(Selected(files[..f], suffix)))
    ensures ScanFrom(Start(), AllLines(Selected(files, suffix))) == scan
  {
    SelectedAppend(files[..f], files[f..], suffix);
    assert files[..f] + files[f..] == files;
    AllLinesAppend(Selected(files[..f], suffix), Selected(files[f..], suffix));
    ScanFromAppend(Start(), AllLines(Selected(files[..f], suffix)), AllLines(Selected(files[f..], suffix)));
    ScanFailedStays(scan, AllLines(Selected(files[f..], suffix)));
  }

  lemma {:induction false} SelectedAppend(a: seq<InputFile>, b: seq<InputFile>, suffix: String)
    ensures Selected(a + b, suffix) == Selected(a, suffix) + Selected(b, suffix)
    decreases |b|
  {
    if b == [] {
      assert a + b == a;
    } else {
      assert (a + b)[..|a + b| - 1] == a + b[..|b| - 1];
      SelectedAppend(a, b[..|b| - 1], suffix);
    }
  }

  lemma {:induction false} AllLinesAppend(a: seq<InputFile>, b: seq<InputFile>)
    ensures AllLines(a + b) == AllLines(a) + AllLines(b)
    decreases |b|
  {
    if b == [] {
      assert a + b == a;
    } else {
      assert (a + b)[..|a + b| - 1] == a + b[..|b| - 1];
      AllLinesAppend(a, b[..|b| - 1]);
    }
  }

  /** The loop over the lines of one file. */
  method CountLines(lines: seq<String>, ghost scan0: Scan, keyCounts0: ODict<String, int>, reported0: seq<String>)
    returns (keyCounts: ODict<String, int>, reported: seq<String>, failed: bool, ghost scan: Scan)
    requires !scan0.failed && keyCounts0 == Counts(scan0.counted) && reported0 == scan0.reported
    ensures scan == ScanFrom(scan0, lines)
    ensures keyCounts == Counts(scan.counted) && reported == scan.reported && failed == scan.failed
  {
    keyCounts, reported, failed, scan := keyCounts0, reported0, false, scan0;
    var i := 0;
    while i < |lines| && !failed
      invariant 0 <= i <= |lines|
      invariant scan == ScanFrom(scan0, lines[..i])
      invariant keyCounts == Counts(scan.counted) && reported == scan.reported && failed == scan.failed
    {
      ScanSnoc(scan0, lines, i);
      keyCounts, reported, failed := CountLine(lines[i], scan, keyCounts, reported);
      scan := Step(scan, lines[i]);
      i := i + 1;
    }
    ScanRest(scan0, lines, i);
  }

  lemma StepCounted(scan: Scan, line: String, k: String, v: int)
    requires !scan.failed && '\t' in line
    requires |Split(line, '\t')| == 2 && Split(line, '\t')[0] == k && ParseInt(Split(line, '\t')[1]) == Some(v)
    ensures Step(scan, line).counted == scan.counted + [(k, v)] && Step(scan, line).reported == scan.reported
    ensures !Step(scan, line).failed
    ensures Counts(Step(scan, line).counted) == AddCount(Counts(scan.counted), k, v)
  {
    CountsSnoc(scan.counted, (k, v));
  }

  lemma StepNoTab(scan: Scan, line: String)
    requires !scan.failed && '\t' !in line
    ensures Step(scan, line).counted == scan.counted && !Step(scan, line).failed
    ensures Step(scan, line).reported == scan.reported + (if |line| > 1 then [line] else [])
  {
  }

  /** The body of the loop over lines. */
  method CountLine(line: String, ghost scan: Scan, keyCounts0: ODict<String, int>, reported0: seq<String>)
    returns (keyCounts: ODict<String, int>, reported: seq<String>, failed: bool)
    requires !scan.failed && keyCounts0 == Counts(scan.counted) && reported0 == scan.reported
    ensures keyCounts == Counts(Step(scan, line).counted) && reported == Step(scan, line).reported
    ensures failed == Step(scan, line).failed
  {
    keyCounts, reported, failed := keyCounts0, reported0, false;
    if '\t' in line {
      var parts := Split(line, '\t');
      if |parts| != 2 {
        failed := true;
      } else {
        var value := ParseInt(parts[1]);
        if value.None? {
          failed := true;
        } else {
          var k, v := parts[0], value.value;
          keyCounts := AddCount(keyCounts, k, v);
          StepCounted(scan, line, k, v);
        }
      }
    } else {
      StepNoTab(scan, line);
      if |line| > 1 {
        reported := reported + [line];
      }
    }
  }

  /** Every key that reading counts came before a tab, so it holds none. */
  lemma {:induction false} ScanKeysNoTab(s: Scan, lines: seq<String>)
    requires forall i :: 0 <= i < |s.counted| ==> '\t' !in s.counted[i].0
    ensures forall i :: 0 <= i < |ScanFrom(s, lines).counted| ==> '\t' !in ScanFrom(s, lines).counted[i].0
    decreases |lines|
  {
    if lines != [] {
      ScanKeysNoTab(s, lines[..|lines| - 1]);
    }
  }

  lemma CountedKeysNoTab(files: seq<InputFile>, suffix: String)
    ensures var scan := ScanFrom(Start(), AllLines(Selected(files, suffix)));
            forall k :: k in Counts(scan.counted).entries ==> '\t' !in k
  {
    var scan := ScanFrom(Start(), AllLines(Selected(files, suffix)));
    ScanKeysNoTab(Start(), AllLines(Selected(files, suffix)));
    forall k | k in Counts(scan.counted).entries ensures '\t' !in k {
      CountsAreSums(scan.counted, k);
    }
  }

  /* Writing the results. */

  /** The `(key, str(count))` items that `print(key + "\t" + str(count))` writes as table rows. */
  function CountRows(items: seq<(String, int)>): (r: seq<(String, String)>)
    ensures |r| == |items|
    decreases |items|
  {
    if items == [] then []
    else CountRows(items[..|items| - 1]) + [(items[|items| - 1].0, IntString(items[|items| - 1].1))]
  }

  lemma {:induction false} CountRowsIndex(items: seq<(String, int)>, i: nat)
    requires i < |items|
    ensures CountRows(items)[i] == (items[i].0, IntString(items[i].1))
    decreases |items|
  {
    if i < |items| - 1 {
      CountRowsIndex(items[..|items| - 1], i);
    }
  }

  lemma CountRowsSnoc(items: seq<(String, int)>, p: (String, int))
    ensures CountRows(items + [p]) == CountRows(items) + [(p.0, IntString(p.1))]
  {
    assert (items + [p])[..|items|] == items;
  }

  /** A line with one tab and an integer after it counts the text before the tab. */
  lemma ClassifyPair(k: String, t: String, v: int)
    requires '\t' !in k && '\t' !in t && ParseInt(t) == Some(v)
    ensures Classify(k + ['\t'] + t) == Counted(k, v)
  {
    SplitConcat(k, '\t', t);
    SplitNoSep(t, '\t');
  }

  /** A line with one tab and a count `int` rejects raises `ValueError`. */
  lemma ClassifyBadCount(k: String, t: String)
    requires '\t' !in k && '\t' !in t && ParseInt(t).None?
    ensures Classify(k + ['\t'] + t) == Malformed
  {
    SplitConcat(k, '\t', t);
    SplitNoSep(t, '\t');
  }

  /** `int` ignores a line end such as `\n`. */
  lemma ParseIntLineEnd(n: String, c: char)
    requires n != [] && !IntSpace(n[0]) && !IntSpace(n[|n| - 1]) && IntSpace(c)
    ensures ParseInt(n + [c]) == ParseInt(n)
  {
    IntStripTrailing(n, c);
    IntStripClean(n);
  }

  /** A count followed by U+001C: `str.isspace` calls that character whitespace, but `int` does not
      skip it, so the line raises `ValueError`. */
  lemma SeparatorAfterCount()
    ensures IsSpace('\U{1C}') && !IntSpace('\U{1C}')
    ensures Classify("k\t5\U{1C}\n") == Malformed
  {
    SeparatorCountText();
    assert "k\t5\U{1C}\n" == "k" + ['\t'] + "5\U{1C}\n";
    ClassifyBadCount("k", "5\U{1C}\n");
  }

  /** `int("5\x1c\n")` keeps the separator and fails. */
  lemma SeparatorCountText()
    ensures '\t' !in "5\U{1C}\n" && ParseInt("5\U{1C}\n") == None
  {
    var v := "5\U{1C}\n";
    SeparatorKept(v);
    var w := IntStrip(v);
    assert !IsDigit(w[|w| - 1]);
  }

  lemma SeparatorKept(v: String)
    requires v == "5\U{1C}\n"
    ensures IntStrip(v) == "5\U{1C}"
  {
    assert v[..2] == "5\U{1C}";
    assert TrailingIntSpaces(v[..2]) == 0;
    assert TrailingIntSpaces(v) == 1;
    assert LeadingIntSpaces(v) == 0;
  }

  /** A written row, read again by `merge_csv`, counts its key with its count. */
  lemma RowCounts(k: String, c: int)
    requires '\t' !in k
    ensures Classify(Table.Row((k, IntString(c)))) == Counted(k, c)
  {
    RowText(k, IntString(c));
    CountLineEnd(c);
    ClassifyPair(k, IntString(c) + ['\n'], c);
  }

  lemma CountLineEnd(c: int)
    ensures '\t' !in IntString(c) + ['\n'] && ParseInt(IntString(c) + ['\n']) == Some(c)
  {
    var n := IntString(c);
    IntStringRoundTrip(c);
    DigitNotSpace(n[0]);
    DigitNotSpace(n[|n| - 1]);
    ParseIntLineEnd(n, '\n');
  }

  lemma RowText(k: String, n: String)
    ensures Table.Row((k, n)) == k + ['\t'] + (n + ['\n'])
  {
  }

  /** The merged table has one row per key, in dictionary order, and reading it back gives each key
      its sum. */
  lemma TableReadsBack(d: ODict<String, int>)
    requires Valid(d) && forall k :: k in d.entries ==> '\t' !in k
    ensures var rows := Table.Rows(CountRows(Items(d)));
            && |rows| == Len(d)
            && forall i :: 0 <= i < |rows| ==> Classify(rows[i]) == Counted(d.order[i], d.entries[d.order[i]])
  {
    var items := Items(d);
    forall i | 0 <= i < |items|
      ensures Classify(Table.Rows(CountRows(items))[i]) == Counted(d.order[i], d.entries[d.order[i]])
    {
      Table.RowsIndex(CountRows(items), i);
      CountRowsIndex(items, i);
      assert d.order[i] in d.entries;
      RowCounts(d.order[i], d.entries[d.order[i]]);
    }
  }

  /** `keys`: the keys whose count exceeds the filter, in dictionary order. */
  function Above(items: seq<(String, int)>, filter: int): seq<String>
    decreases |items|
  {
    if items == [] then []
    else
      var last := items[|items| - 1];
      Above(items[..|items| - 1], filter) + (if last.1 > filter then [last.0] else [])
  }

  lemma {:induction false} AboveIff(items: seq<(String, int)>, filter: int, k: String)
    ensures k in Above(items, filter) <==> exists i :: 0 <= i < |items| && items[i].0 == k && items[i].1 > filter
    decreases |items|
  {
    if items != [] {
      var init := items[..|items| - 1];
      AboveIff(init, filter, k);
      var last := items[|items| - 1];
      if exists i :: 0 <= i < |items| && items[i].0 == k && items[i].1 > filter {
        var i :| 0 <= i < |items| && items[i].0 == k && items[i].1 > filter;
        if i < |init| {
          assert init[i] == items[i];
        }
      }
      if exists i :: 0 <= i < |init| && init[i].0 == k && init[i].1 > filter {
        var i :| 0 <= i < |init| && init[i].0 == k && init[i].1 > filter;
        assert items[i] == init[i];
      }
    }
  }

  lemma {:induction false} AboveDistinct(items: seq<(String, int)>, filter: int)
    requires forall i, j :: 0 <= i < j < |items| ==> items[i].0 != items[j].0
    ensures Sorting.Distinct(Above(items, filter))
    decreases |items|
  {
    if items != [] {
      var init := items[..|items| - 1];
      assert forall i :: 0 <= i < |init| ==> init[i] == items[i];
      AboveDistinct(init, filter);
      AboveIff(init, filter, items[|items| - 1].0);
    }
  }

  lemma KeyFileMember(d: ODict<String, int>, filter: int, k: String)
    requires Valid(d)
    ensures k in Above(Items(d), filter) <==> k in d.entries && d.entries[k] > filter
  {
    var items := Items(d);
    AboveIff(items, filter, k);
    if k in d.entries {
      assert k in d.order;
      var j :| 0 <= j < |d.order| && d.order[j] == k;
      assert items[j].0 == k;
    }
  }

  /** The key file: the keys whose count exceeds the filter, each once, in ascending order. */
  lemma KeyFileExact(d: ODict<String, int>, filter: int)
    requires Valid(d)
    ensures var keys := Sorting.Sort(Above(Items(d), filter), Less);
            && Sorting.SortedBy(keys, Less)
            && forall k :: k in keys <==> k in d.entries && d.entries[k] > filter
  {
    var above := Above(Items(d), filter);
    AboveDistinct(Items(d), filter);
    Sorting.StringOrder();
    Sorting.SortSorted(above, Less);
    var keys := Sorting.Sort(above, Less);
    forall k ensures k in keys <==> k in d.entries && d.entries[k] > filter {
      assert k in keys <==> k in multiset(keys);
      assert k in above <==> k in multiset(above);
      KeyFileMember(d, filter, k);
    }
  }

  /** `print(key)` for each key: the key and a newline. */
  function Lines(keys: seq<String>): (r: seq<String>)
    ensures |r| == |keys|
    decreases |keys|
  {
    if keys == [] then [] else Lines(keys[..|keys| - 1]) + [keys[|keys| - 1] + "\n"]
  }

  lemma {:induction false} LinesIndex(keys: seq<String>, i: nat)
    requires i < |keys|
    ensures Lines(keys)[i] == keys[i] + "\n"
    decreases |keys|
  {
    if i < |keys| - 1 {
      LinesIndex(keys[..|keys| - 1], i);
    }
  }

  /** `count_freq[count] += 1`, or `count_freq[count] = 1` for a new count. */
  function Bump(d: ODict<int, nat>, c: int): (r: ODict<int, nat>)
    requires Valid(d)
    ensures Valid(r)
  {
    if c in d.entries then Put(d, c, d.entries[c] + 1) else Put(d, c, 1)
  }

  /** `count_freq` after the given items. */
  function Freq(items: seq<(String, int)>): (r: ODict<int, nat>)
    ensures Valid(r)
    decreases |items|
  {
    if items == [] then Empty() else Bump(Freq(items[..|items| - 1]), items[|items| - 1].1)
  }

  /** The number of items whose count is `c`. */
  function Occurrences(items: seq<(String, int)>, c: int): nat
    decreases |items|
  {
    if items == [] then 0
    else Occurrences(items[..|items| - 1], c) + (if items[|items| - 1].1 == c then 1 else 0)
  }

  lemma {:induction false} OccurrencesAbsent(items: seq<(String, int)>, c: int)
    requires forall i :: 0 <= i < |items| ==> items[i].1 != c
    ensures Occurrences(items, c) == 0
    decreases |items|
  {
    if items != [] {
      OccurrencesAbsent(items[..|items| - 1], c);
    }
  }

  /** A count is in `count_freq` exactly when some key has it, and its entry is the number of such
      keys. */
  lemma {:induction false} FreqCounts(items: seq<(String, int)>, c: int)
    ensures c in Freq(items).entries <==> exists i :: 0 <= i < |items| && items[i].1 == c
    ensures c in Freq(items).entries ==> Freq(items).entries[c] == Occurrences(items, c)
    decreases |items|
  {
    if items != [] {
      var init := items[..|items| - 1];
      FreqCounts(init, c);
      CountNamedSnoc(items, c);
      if c !in Freq(init).entries {
        OccurrencesAbsent(init, c);
      }
    }
  }

  lemma CountNamedSnoc(items: seq<(String, int)>, c: int)
    requires items != []
    ensures var init := items[..|items| - 1];
            (exists i :: 0 <= i < |items| && items[i].1 == c) <==>
            (exists i :: 0 <= i < |init| && init[i].1 == c) || items[|items| - 1].1 == c
  {
    var init := items[..|items| - 1];
    if exists i :: 0 <= i < |items| && items[i].1 == c {
      var i :| 0 <= i < |items| && items[i].1 == c;
      if i < |init| {
        assert init[i].1 == c;
      }
    }
    if exists i :: 0 <= i < |init| && init[i].1 == c {
      var i :| 0 <= i < |init| && init[i].1 == c;
      assert items[i].1 == c;
    }
  }

  /** The entry of `k`, or 0 when it has none. */
  function Entry(m: map<int, nat>, k: int): nat
  {
    if k in m then m[k] else 0
  }

  /** The sum of the entries of the listed counts. */
  function SumFreq(keys: seq<int>, m: map<int, nat>): nat
    decreases |keys|
  {
    if keys == [] then 0 else SumFreq(keys[..|keys| - 1], m) + Entry(m, keys[|keys| - 1])
  }

  lemma {:induction false} SumFreqFrame(keys: seq<int>, m: map<int, nat>, c: int, v: nat)
    requires c !in keys
    ensures SumFreq(keys, m[c := v]) == SumFreq(keys, m)
    decreases |keys|
  {
    if keys != [] {
      SumFreqFrame(keys[..|keys| - 1], m, c, v);
    }
  }

  lemma {:induction false} SumFreqBump(keys: seq<int>, m: map<int, nat>, c: int)
    requires c in keys && c in m
    requires forall i, j :: 0 <= i < j < |keys| ==> keys[i] != keys[j]
    ensures SumFreq(keys, m[c := m[c] + 1]) == SumFreq(keys, m) + 1
    decreases |keys|
  {
    var init := keys[..|keys| - 1];
    if keys[|keys| - 1] == c {
      assert c !in init;
      SumFreqFrame(init, m, c, m[c] + 1);
    } else {
      assert c in init;
      SumFreqBump(init, m, c);
    }
  }

  /** One more key with count `c` adds one to the sum of the entries. */
  lemma BumpTotal(f: ODict<int, nat>, c: int)
    requires Valid(f)
    ensures SumFreq(Bump(f, c).order, Bump(f, c).entries) == SumFreq(f.order, f.entries) + 1
  {
    if c in f.entries {
      assert c in f.order;
      SumFreqBump(f.order, f.entries, c);
    } else {
      assert c !in f.order;
      SumFreqFrame(f.order, f.entries, c, 1);
      assert (f.order + [c])[..|f.order|] == f.order;
    }
  }

  /** Every key is counted once in the histogram: its entries add up to the number of keys. */
  lemma {:induction false} FreqTotal(items: seq<(String, int)>)
    ensures SumFreq(Freq(items).order, Freq(items).entries) == |items|
    decreases |items|
  {
    if items != [] {
      FreqTotal(items[..|items| - 1]);
      BumpTotal(Freq(items[..|items| - 1]), items[|items| - 1].1);
    }
  }

  lemma {:induction false} SumFreqAppend(a: seq<int>, b: seq<int>, m: map<int, nat>)
    ensures SumFreq(a + b, m) == SumFreq(a, m) + SumFreq(b, m)
    decreases |b|
  {
    if b == [] {
      assert a + b == a;
    } else {
      assert (a + b)[..|a + b| - 1] == a + b[..|b| - 1];
      SumFreqAppend(a, b[..|b| - 1], m);
    }
  }

  /** Taking one count out of the list takes its entry out of the sum. */
  lemma SumFreqRemove(b: seq<int>, j: nat, m: map<int, nat>)
    requires j < |b|
    ensures SumFreq(b, m) == SumFreq(b[..j] + b[j + 1..], m) + Entry(m, b[j])
  {
    var x := b[j];
    assert b == b[..j] + [x] + b[j + 1..];
    SumFreqAppend(b[..j] + [x], b[j + 1..], m);
    SumFreqAppend(b[..j], [x], m);
    SumFreqAppend(b[..j], b[j + 1..], m);
    assert [x][..0] == [];
  }

  lemma MultisetRemove<T>(b: seq<T>, j: nat)
    requires j < |b|
    ensures multiset(b[..j] + b[j + 1..]) == multiset(b) - multiset{b[j]}
  {
    assert b == b[..j] + [b[j]] + b[j + 1..];
  }

  /** The sum does not depend on the order of the counts. */
  lemma {:induction false} SumFreqPerm(a: seq<int>, b: seq<int>, m: map<int, nat>)
    requires multiset(a) == multiset(b)
    ensures SumFreq(a, m) == SumFreq(b, m)
    decreases |a|
  {
    if a != [] {
      var init, x := a[..|a| - 1], a[|a| - 1];
      assert multiset(a) == multiset(init) + multiset{x} by {
        assert a == init + [x];
      }
      assert x in multiset(b);
      var j :| 0 <= j < |b| && b[j] == x;
      MultisetRemove(b, j);
      SumFreqPerm(init, b[..j] + b[j + 1..], m);
      SumFreqRemove(b, j, m);
    }
  }

  predicate IntLess(a: int, b: int)
  {
    a < b
  }

  lemma IntOrder()
    ensures Sorting.StrictTotalOrder(IntLess)
  {
  }

  /** The pairs `(k, m[k])` for the listed counts. */
  function Pairs(keys: seq<int>, m: map<int, nat>): (r: seq<(int, nat)>)
    ensures |r| == |keys| && forall i :: 0 <= i < |r| ==> r[i] == (keys[i], Entry(m, keys[i]))
  {
    seq(|keys|, i requires 0 <= i < |keys| => (keys[i], Entry(m, keys[i])))
  }

  /** `sorted(count_freq.items())`: the counts are distinct, so the items are ordered by count. */
  function SortedFreq(fd: ODict<int, nat>): seq<(int, nat)>
  {
    Pairs(Sorting.Sort(fd.order, IntLess), fd.entries)
  }

  /** The sum of the second components. */
  function SumValues(freqs: seq<(int, nat)>): nat
    decreases |freqs|
  {
    if freqs == [] then 0 else SumValues(freqs[..|freqs| - 1]) + freqs[|freqs| - 1].1
  }

  lemma {:induction false} SumValuesPairs(keys: seq<int>, m: map<int, nat>)
    ensures SumValues(Pairs(keys, m)) == SumFreq(keys, m)
    decreases |keys|
  {
    if keys != [] {
      var init := keys[..|keys| - 1];
      assert Pairs(keys, m)[..|keys| - 1] == Pairs(init, m);
      SumValuesPairs(init, m);
    }
  }

  /** The histogram lines: each count, its number of keys and `count_sum`, the running total. */
  function Running(freqs: seq<(int, nat)>): (r: seq<(int, nat, nat)>)
    ensures |r| == |freqs|
    decreases |freqs|
  {
    if freqs == [] then []
    else
      var init, last := freqs[..|freqs| - 1], freqs[|freqs| - 1];
      Running(init) + [(last.0, last.1, SumValues(init) + last.1)]
  }

  lemma {:induction false} RunningIndex(freqs: seq<(int, nat)>, i: nat)
    requires i < |freqs|
    ensures Running(freqs)[i] == (freqs[i].0, freqs[i].1, SumValues(freqs[..i + 1]))
    decreases |freqs|
  {
    var init := freqs[..|freqs| - 1];
    if i < |freqs| - 1 {
      RunningIndex(init, i);
      assert init[..i + 1] == freqs[..i + 1];
    } else {
      assert freqs[..i + 1] == freqs;
    }
  }

  /** Each line copies its pair, and `count_sum` grows by each line's number of keys, from the first
      line's up to the sum of them all. */
  lemma RunningSums(freqs: seq<(int, nat)>)
    ensures var h := Running(freqs);
            && (forall i :: 0 <= i < |h| ==> h[i].0 == freqs[i].0 && h[i].1 == freqs[i].1)
            && (|h| > 0 ==> h[0].2 == h[0].1 && h[|h| - 1].2 == SumValues(freqs))
            && (forall i :: 0 < i < |h| ==> h[i].2 == h[i - 1].2 + h[i].1)
  {
    var h := Running(freqs);
    forall i | 0 <= i < |h| ensures h[i].0 == freqs[i].0 && h[i].1 == freqs[i].1 {
      RunningIndex(freqs, i);
    }
    if |h| > 0 {
      RunningEnds(freqs);
    }
    forall i | 0 < i < |h| ensures h[i].2 == h[i - 1].2 + h[i].1 {
      RunningStep(freqs, i);
    }
  }

  lemma RunningEnds(freqs: seq<(int, nat)>)
    requires freqs != []
    ensures var h := Running(freqs);
            h[0].2 == h[0].1 && h[|h| - 1].2 == SumValues(freqs)
  {
    RunningIndex(freqs, 0);
    assert SumValues(freqs[..1]) == freqs[0].1 by {
      assert freqs[..1][..0] == freqs[..0];
    }
    RunningIndex(freqs, |freqs| - 1);
    assert freqs[..|freqs|] == freqs;
  }

  lemma RunningStep(freqs: seq<(int, nat)>, i: nat)
    requires 0 < i < |freqs|
    ensures var h := Running(freqs);
            h[i].2 == h[i - 1].2 + h[i].1
  {
    RunningIndex(freqs, i);
    RunningIndex(freqs, i - 1);
    assert freqs[..i + 1][..i] == freqs[..i];
  }

  /** The counts of `sorted(count_freq.items())` are the keys of `count_freq`, ascending, each with
      its entry. */
  lemma SortedFreqKeys(fd: ODict<int, nat>)
    requires Valid(fd)
    ensures var keys := Sorting.Sort(fd.order, IntLess);
            && |SortedFreq(fd)| == |keys| == |fd.order|
            && (forall i :: 0 <= i < |keys| ==>
                  SortedFreq(fd)[i].0 == keys[i] && keys[i] in fd.entries && SortedFreq(fd)[i].1 == fd.entries[keys[i]])
            && (forall i, j :: 0 <= i < j < |keys| ==> keys[i] < keys[j])
            && (forall c :: c in keys <==> c in fd.entries)
  {
    var keys := Sorting.Sort(fd.order, IntLess);
    IntOrder();
    Sorting.SortSorted(fd.order, IntLess);
    assert |keys| == |multiset(keys)| == |multiset(fd.order)| == |fd.order|;
    forall c ensures c in keys <==> c in fd.entries {
      assert c in keys <==> c in multiset(keys);
      assert c in fd.order <==> c in multiset(fd.order);
    }
  }

  /** The histogram file `merge_csv` writes for the items of `key_counts`, without its header. */
  function Histogram(items: seq<(String, int)>): seq<(int, nat, nat)>
  {
    Running(SortedFreq(Freq(items)))
  }

  /** Line `i` of the histogram: its count is the `i`-th smallest count of `count_freq`, and its
      number is that count's entry. */
  lemma HistogramLine(items: seq<(String, int)>, i: nat)
    requires i < |Freq(items).order|
    ensures var keys := Sorting.Sort(Freq(items).order, IntLess);
            var h := Histogram(items);
            && i < |keys| && i < |h| && h[i].0 == keys[i] && keys[i] in Freq(items).entries
            && h[i].1 == Freq(items).entries[keys[i]]
  {
    SortedFreqKeys(Freq(items));
    RunningIndex(SortedFreq(Freq(items)), i);
  }

  /** The histogram lists the counts in ascending order. */
  lemma HistogramAscending(items: seq<(String, int)>)
    ensures var h := Histogram(items);
            forall i, j :: 0 <= i < j < |h| ==> h[i].0 < h[j].0
  {
    var fd := Freq(items);
    SortedFreqKeys(fd);
    var h := Running(SortedFreq(fd));
    forall i, j | 0 <= i < j < |h| ensures h[i].0 < h[j].0 {
      HistogramLine(items, i);
      HistogramLine(items, j);
    }
  }

  /** Each count in the histogram comes with the number of keys that have it, and some key has it. */
  lemma HistogramNumbers(items: seq<(String, int)>)
    ensures var h := Histogram(items);
            && (forall i :: 0 <= i < |h| ==> h[i].1 == Occurrences(items, h[i].0))
            && (forall i :: 0 <= i < |h| ==> exists j :: 0 <= j < |items| && items[j].1 == h[i].0)
  {
    var fd := Freq(items);
    SortedFreqKeys(fd);
    var h := Running(SortedFreq(fd));
    forall i | 0 <= i < |h|
      ensures h[i].1 == Occurrences(items, h[i].0)
      ensures exists j :: 0 <= j < |items| && items[j].1 == h[i].0
    {
      HistogramLine(items, i);
      FreqCounts(items, h[i].0);
    }
  }

  /** The line of the histogram that lists the count of item `j`. */
  lemma CountListed(items: seq<(String, int)>, j: nat) returns (i: nat)
    requires j < |items|
    ensures i < |Histogram(items)| && Histogram(items)[i].0 == items[j].1
  {
    var fd := Freq(items);
    FreqCounts(items, items[j].1);
    SortedFreqKeys(fd);
    var keys := Sorting.Sort(fd.order, IntLess);
    assert items[j].1 in keys;
    i :| 0 <= i < |keys| && keys[i] == items[j].1;
    HistogramLine(items, i);
  }

  /** Every key's count has a line in the histogram. */
  lemma HistogramCovers(items: seq<(String, int)>)
    ensures forall j :: 0 <= j < |items| ==> exists i :: 0 <= i < |Histogram(items)| && Histogram(items)[i].0 == items[j].1
  {
    forall j | 0 <= j < |items| ensures exists i :: 0 <= i < |Histogram(items)| && Histogram(items)[i].0 == items[j].1 {
      var i := CountListed(items, j);
      assert 0 <= i < |Histogram(items)| && Histogram(items)[i].0 == items[j].1;
    }
    assert forall j :: 0 <= j < |items| ==> exists i :: 0 <= i < |Histogram(items)| && Histogram(items)[i].0 == items[j].1;
  }

  /** The entries of `sorted(count_freq.items())` add up to the number of keys. */
  lemma SortedFreqTotal(items: seq<(String, int)>)
    ensures SumValues(SortedFreq(Freq(items))) == |items|
  {
    var fd := Freq(items);
    FreqTotal(items);
    SumFreqPerm(fd.order, Sorting.Sort(fd.order, IntLess), fd.entries);
    SumValuesPairs(Sorting.Sort(fd.order, IntLess), fd.entries);
  }

  /** `count_sum` grows by each line's number of keys and reaches `len(key_counts)` at the last
      line, where the written ratio is 1; there are lines exactly when there are keys. */
  lemma HistogramRunning(items: seq<(String, int)>)
    ensures var h := Histogram(items);
            && (|h| == 0 <==> |items| == 0)
            && (|h| > 0 ==> h[0].2 == h[0].1 && h[|h| - 1].2 == |items|)
            && (forall i :: 0 < i < |h| ==> h[i].2 == h[i - 1].2 + h[i].1)
  {
    var freqs := SortedFreq(Freq(items));
    SortedFreqTotal(items);
    RunningSums(freqs);
    if freqs == [] {
      assert SumValues(freqs) == 0;
    }
  }

  /** What `merge_csv` produces after reading: nothing when a line raised `ValueError` or no key was
      counted; otherwise the merged table, the key file and the histogram. */
  datatype Outcome =
    | Crashed
    | NoKeys
    | Written(table: seq<String>, keyLines: seq<String>, histogram: seq<(int, nat, nat)>)

  function Outputs(keyCounts: ODict<String, int>, failed: bool, filter: int): Outcome
    requires Valid(keyCounts)
  {
    if failed then Crashed
    else if Len(keyCounts) < 1 then NoKeys
    else
      var items := Items(keyCounts);
      Written(Table.Rows(CountRows(items)), Lines(Sorting.Sort(Above(items, filter), Less)),
              Histogram(items))
  }

  /** `merge_csv`: reading, then the three output files. */
  method MergeCsv(files: seq<InputFile>, suffix: String, filter: int) returns (reported: seq<String>, outcome: Outcome)
    ensures var scan := ScanFrom(Start(), AllLines(Selected(files, suffix)));
            reported == scan.reported && outcome == Outputs(Counts(scan.counted), scan.failed, filter)
  {
    var keyCounts, failed;
    keyCounts, reported, failed := CountFiles(files, suffix);
    if failed {
      return reported, Crashed;
    }
    if Len(keyCounts) < 1 {
      return reported, NoKeys;
    }
    var table, keys, countFreq := WriteCounts(keyCounts, filter);
    var sortedKeys := Sorting.Sort(keys, Less);
    var keyLines := WriteKeys(sortedKeys);
    var histogram := WriteHistogram(SortedFreq(countFreq));
    outcome := Written(table, keyLines, histogram);
  }

  /** The loop over `key_counts.items()`: a table row for each key, the keys above the filter, and
      the count frequencies. */
  method WriteCounts(keyCounts: ODict<String, int>, filter: int)
    returns (table: seq<String>, keys: seq<String>, countFreq: ODict<int, nat>)
    requires Valid(keyCounts)
    ensures table == Table.Rows(CountRows(Items(keyCounts)))
    ensures keys == Above(Items(keyCounts), filter) && countFreq == Freq(Items(keyCounts))
  {
    var items := Items(keyCounts);
    table, keys, countFreq := [], [], Empty();
    for i := 0 to |items|
      invariant table == Table.Rows(CountRows(items[..i]))
      invariant keys == Above(items[..i], filter) && countFreq == Freq(items[..i])
    {
      var key, count := items[i].0, items[i].1;
      WriteCountsStep(items, i, filter);
      table := table + [key + "\t" + IntString(count) + "\n"];
      if count > filter {
        keys := keys + [key];
      }
      countFreq := Bump(countFreq, count);
    }
    assert items[..|items|] == items;
  }

  lemma WriteCountsStep(items: seq<(String, int)>, i: nat, filter: int)
    requires i < |items|
    ensures var item := items[i];
            && Table.Rows(CountRows(items[..i + 1])) == Table.Rows(CountRows(items[..i])) + [item.0 + "\t" + IntString(item.1) + "\n"]
            && Above(items[..i + 1], filter) == Above(items[..i], filter) + (if item.1 > filter then [item.0] else [])
            && Freq(items[..i + 1]) == Bump(Freq(items[..i]), item.1)
  {
    assert items[..i + 1] == items[..i] + [items[i]];
    assert items[..i + 1][..i] == items[..i];
    CountRowsSnoc(items[..i], items[i]);
    Table.RowsSnoc(CountRows(items[..i]), (items[i].0, IntString(items[i].1)));
  }

  /** The loop writing the key file. */
  method WriteKeys(keys: seq<String>) returns (lines: seq<String>)
    ensures lines == Lines(keys)
  {
    lines := [];
    for i := 0 to |keys|
      invariant lines == Lines(keys[..i])
    {
      assert keys[..i + 1][..i] == keys[..i];
      lines := lines + [keys[i] + "\n"];
    }
    assert keys[..|keys|] == keys;
  }

  /** The loop writing the histogram, with `count_sum` adding up the numbers of keys. */
  method WriteHistogram(freqs: seq<(int, nat)>) returns (lines: seq<(int, nat, nat)>)
    ensures lines == Running(freqs)
  {
    lines := [];
    var countSum := 0;
    for i := 0 to |freqs|
      invariant lines == Running(freqs[..i]) && countSum == SumValues(freqs[..i])
    {
      var count, freq := freqs[i].0, freqs[i].1;
      assert freqs[..i + 1][..i] == freqs[..i];
      countSum := countSum + freq;
      lines := lines + [(count, freq, countSum)];
    }
    assert freqs[..|freqs|] == freqs;
  }
}

/** Parsing of locale-conversion blocks such as `{H|zh-cn:计算机; zh-sg:电脑; zh-tw:電腦;}`.
    The two patterns the scripts use are written as explicit scanners:
    the block pattern `\{[^{}\[\]=]+zh[^{}\[\]=]+\}` and the key pattern `(zh-hans|zh-cn):([^;]+)`. */
module LocaleParse {
  import opened Wrappers
  import opened PyStr

  /** `[^{}\[\]=]` */
  predicate IsBlockChar(c: char)
  {
    c != '{' && c != '}' && c != '[' && c != ']' && c != '='
  }

  /** A match of the block pattern: `{`, a run of block characters holding `zh` neither first nor
      last, then `}`. */
  ghost predicate IsBlock(m: String)
  {
    && |m| >= 2 && m[0] == '{' && m[|m| - 1] == '}'
    && (forall i :: 1 <= i < |m| - 1 ==> IsBlockChar(m[i]))
    && exists q :: 2 <= q <= |m| - 4 && m[q] == 'z' && m[q + 1] == 'h'
  }

  /** End of the longest run of block characters starting at `i`. */
  function RunEnd(t: String, i: nat): (j: nat)
    requires i <= |t|
    ensures i <= j <= |t|
    ensures forall k :: i <= k < j ==> IsBlockChar(t[k])
    ensures j < |t| ==> !IsBlockChar(t[j])
    decreases |t| - i
  {
    if i < |t| && IsBlockChar(t[i]) then RunEnd(t, i + 1) else i
  }

  /** The end of the block match that starts at `p`, if one does. */
  function BlockAt(t: String, p: nat): Option<nat>
    requires p <= |t|
  {
    if p < |t| && t[p] == '{' then
      var j := RunEnd(t, p + 1);
      if j < |t| && t[j] == '}' && exists q :: p + 2 <= q <= j - 3 && t[q] == 'z' && t[q + 1] == 'h'
      then Some(j + 1)
      else None
    else None
  }

  /** The scanner finds a match at `p` exactly when a block starts there, and then finds its end. */
  lemma BlockAtIff(t: String, p: nat, e: nat)
    requires p <= e <= |t|
    ensures BlockAt(t, p) == Some(e) <==> IsBlock(t[p..e])
  {
    var m := t[p..e];
    if IsBlock(m) {
      assert forall k :: p + 1 <= k < e - 1 ==> IsBlockChar(t[k]) by {
        forall k | p + 1 <= k < e - 1 ensures IsBlockChar(t[k]) { assert t[k] == m[k - p]; }
      }
      RunEndReaches(t, p + 1, e - 1);
      var q :| 2 <= q <= |m| - 4 && m[q] == 'z' && m[q + 1] == 'h';
      assert t[p + q] == 'z' && t[p + q + 1] == 'h';
    }
    if BlockAt(t, p) == Some(e) {
      var q :| p + 2 <= q <= e - 4 && t[q] == 'z' && t[q + 1] == 'h';
      assert m[q - p] == 'z' && m[q - p + 1] == 'h';
    }
  }

  lemma {:induction false} RunEndReaches(t: String, i: nat, j: nat)
    requires i <= j < |t| && !IsBlockChar(t[j])
    requires forall k :: i <= k < j ==> IsBlockChar(t[k])
    ensures RunEnd(t, i) == j
    decreases j - i
  {
    if i < j { RunEndReaches(t, i + 1, j); }
  }

  /** No block starts strictly inside another: a block holds no `{` after its first character. */
  lemma BlocksDisjoint(t: String, p: nat, e: nat, q: nat, f: nat)
    requires p <= e <= |t| && IsBlock(t[p..e])
    requires p < q < e && q <= f <= |t|
    ensures !IsBlock(t[q..f])
  {
    assert t[q] == t[p..e][q - p];
  }

  /** `re.finditer` positions: the spans of the non-overlapping matches from `p` on, leftmost first. */
  function Spans(t: String, p: nat): (r: seq<(nat, nat)>)
    requires p <= |t|
    ensures forall i :: 0 <= i < |r| ==> p <= r[i].0 < r[i].1 <= |t|
    ensures forall i, j :: 0 <= i < j < |r| ==> r[i].1 <= r[j].0
    decreases |t| - p
  {
    if p == |t| then []
    else match BlockAt(t, p)
      case Some(e) => [(p, e)] + Spans(t, e)
      case None => Spans(t, p + 1)
  }

  /** Since blocks cannot overlap, the scan finds every block of the text and nothing else. */
  lemma {:induction false} SpansExact(t: String, p: nat, q: nat, f: nat)
    requires p <= |t|
    requires q <= f <= |t|
    ensures (q, f) in Spans(t, p) <==> p <= q && IsBlock(t[q..f])
    decreases |t| - p
  {
    if p < |t| {
      match BlockAt(t, p)
      case Some(e) =>
        BlockAtIff(t, p, e);
        SpansExact(t, e, q, f);
        if q == p {
          BlockAtIff(t, p, f);
        } else if p < q < e {
          BlocksDisjoint(t, p, e, q, f);
          assert (q, f) !in Spans(t, e);
        }
      case None =>
        SpansExact(t, p + 1, q, f);
        if q == p {
          BlockAtIff(t, p, f);
        }
    }
  }

  /** `re.findall(block_pattern, text)` */
  function Matches(t: String): (r: seq<String>)
    ensures forall i :: 0 <= i < |r| ==> IsBlock(r[i])
  {
    var spans := Spans(t, 0);
    assert forall i :: 0 <= i < |spans| ==> IsBlock(t[spans[i].0..spans[i].1]) by {
      forall i | 0 <= i < |spans| ensures IsBlock(t[spans[i].0..spans[i].1]) {
        SpansExact(t, 0, spans[i].0, spans[i].1);
      }
    }
    seq(|spans|, i requires 0 <= i < |spans| => t[spans[i].0..spans[i].1])
  }

  /** A text without `{` holds no block. */
  lemma NoBraceNoMatches(t: String)
    requires '{' !in t
    ensures Matches(t) == []
  {
    var spans := Spans(t, 0);
    if spans != [] {
      SpansExact(t, 0, spans[0].0, spans[0].1);
    }
  }

  /** `line.strip()[1:-1].replace("H|", "")` */
  function Unwrap(line: String): String
  {
    Replace(DropEnds(Strip(line)), "H|", "")
  }

  /** Removing `"H|"` is a single left-to-right pass: pieces left around a removed occurrence can
      form a new one, which stays. */
  lemma UnwrapKeepsFormedTag()
    ensures Unwrap("{HH||}") == "H|"
  {
    UnwrapFormedInner();
    ReplaceFormed();
  }

  lemma UnwrapFormedInner()
    ensures DropEnds(Strip("{HH||}")) == "HH||"
  {
    StripClean("{HH||}");
  }

  /** `"HH||".replace("H|", "")`: the pass skips the first `H`, removes `H|` and keeps `|`. */
  lemma ReplaceFormed()
    ensures Replace("HH||", "H|", "") == "H|"
  {
    var s := "HH||";
    assert s[..2] != "H|" by { assert s[..2][1] == 'H'; }
    assert s[1..] == "H||" && s[1..][..2] == "H|" && s[1..][2..] == "|";
    assert Replace("|", "H|", "") == "|";
    assert Replace("H||", "H|", "") == "|";
  }

  /** A `{H|…}` wrapper around a run of block characters that opens with `zh` is one block. */
  lemma WrappedBlock(inner: String)
    requires |inner| >= 3 && inner[0] == 'z' && inner[1] == 'h'
    requires forall i :: 0 <= i < |inner| ==> IsBlockChar(inner[i])
    ensures Matches("{H|" + inner + "}") == ["{H|" + inner + "}"]
  {
    var b := "{H|" + inner + "}";
    forall i | 1 <= i < |b| - 1 ensures IsBlockChar(b[i]) {
      if i >= 3 { assert b[i] == inner[i - 3]; }
    }
    assert b[3] == 'z' && b[4] == 'h';
    assert b[0..|b|] == b;
    BlockAtIff(b, 0, |b|);
    assert Spans(b, 0) == [(0, |b|)];
  }

  /** Unwrapping `{H|…}` gives the inside back when it holds no `H`. */
  lemma UnwrapWrapped(inner: String)
    requires 'H' !in inner
    ensures Unwrap("{H|" + inner + "}") == inner
  {
    var b := "{H|" + inner + "}";
    StripClean(b);
    assert DropEnds(b) == "H|" + inner;
    assert ("H|" + inner)[..2] == "H|" && ("H|" + inner)[2..] == inner;
    AbsentHead(inner, "H|");
    ReplaceAbsent(inner, "H|", "");
  }

  /** End of the longest run without `;` starting at `i` (`[^;]+`, greedy). */
  function KeyRunEnd(s: String, i: nat): (j: nat)
    requires i <= |s|
    ensures i <= j <= |s|
    ensures ';' !in s[i..j]
    ensures j < |s| ==> s[j] == ';'
    decreases |s| - i
  {
    if i < |s| && s[i] != ';' then
      var j := KeyRunEnd(s, i + 1);
      assert s[i..j] == [s[i]] + s[i + 1..j];
      j
    else i
  }

  /** A key-pattern match starting at `p`: a tag, `:`, then at least one character other than `;`;
      the captured key is the longest `;`-free run after the colon. `zh-hans` is tried first. */
  function TagKeyAt(s: String, p: nat): (r: Option<String>)
    requires p <= |s|
    ensures r.Some? ==> r.value != [] && ';' !in r.value
  {
    if StartsWith(s[p..], "zh-hans:") && p + 8 < |s| && s[p + 8] != ';' then
      Some(s[p + 8..KeyRunEnd(s, p + 8)])
    else if StartsWith(s[p..], "zh-cn:") && p + 6 < |s| && s[p + 6] != ';' then
      Some(s[p + 6..KeyRunEnd(s, p + 6)])
    else None
  }

  /** The key run ends exactly at the next `;`, or at the end of the string when there is none. */
  lemma {:induction false} KeyRunEndReaches(s: String, i: nat, j: nat)
    requires i <= j <= |s| && (j == |s| || s[j] == ';')
    requires forall k :: i <= k < j ==> s[k] != ';'
    ensures KeyRunEnd(s, i) == j
    decreases j - i
  {
    if i < j { KeyRunEndReaches(s, i + 1, j); }
  }

  /** A match of `tag:([^;]+)` at `p` capturing `key`, where `pre` is the tag and its `:`: `pre` at
      `p`, then `key`, which is non-empty and `;`-free and, the group being greedy with nothing after
      it, is followed by `;` or the end of the string. */
  ghost predicate TaggedKey(s: String, p: nat, pre: String, key: String)
  {
    var b := p + |pre|;
    && b + |key| <= |s| && s[p..b] == pre
    && key != [] && ';' !in key && s[b..b + |key|] == key
    && (b + |key| == |s| || s[b + |key|] == ';')
  }

  /** A match of the key pattern `(zh-hans|zh-cn):([^;]+)` at `p` whose second group is `key`. */
  ghost predicate IsKeyMatch(s: String, p: nat, key: String)
  {
    TaggedKey(s, p, "zh-hans:", key) || TaggedKey(s, p, "zh-cn:", key)
  }

  /** The scanner at one position finds exactly the pattern's match there. */
  lemma TagKeyAtIff(s: String, p: nat, key: String)
    requires p <= |s|
    ensures TagKeyAt(s, p) == Some(key) <==> IsKeyMatch(s, p, key)
  {
    if TagKeyAt(s, p) == Some(key) {
      if StartsWith(s[p..], "zh-hans:") && p + 8 < |s| && s[p + 8] != ';' {
        FoundTagged(s, p, "zh-hans:", key);
      } else {
        FoundTagged(s, p, "zh-cn:", key);
      }
    }
    if TaggedKey(s, p, "zh-hans:", key) {
      TaggedFound(s, p, "zh-hans:", key);
    } else if TaggedKey(s, p, "zh-cn:", key) {
      assert s[p + 3] == 'c' by { assert s[p..p + 6][3] == s[p + 3]; }
      TaggedFound(s, p, "zh-cn:", key);
    }
  }

  /** What the scanner captures after a prefix is a tagged match. */
  lemma FoundTagged(s: String, p: nat, pre: String, key: String)
    requires p + |pre| < |s| && StartsWith(s[p..], pre) && s[p + |pre|] != ';'
    requires key == s[p + |pre|..KeyRunEnd(s, p + |pre|)]
    ensures TaggedKey(s, p, pre, key)
  {
    assert s[p..p + |pre|] == s[p..][..|pre|];
    assert key[0] == s[p + |pre|];
  }

  /** A tagged match is what the scanner captures after its prefix. */
  lemma TaggedFound(s: String, p: nat, pre: String, key: String)
    requires TaggedKey(s, p, pre, key)
    ensures StartsWith(s[p..], pre) && p + |pre| < |s| && s[p + |pre|] != ';'
    ensures s[p + |pre|..KeyRunEnd(s, p + |pre|)] == key
  {
    PrefixAt(s, p, pre);
    KeyAt(s, p + |pre|, key);
  }

  /** `pre` at `p` is a prefix of the rest of the string. */
  lemma PrefixAt(s: String, p: nat, pre: String)
    requires p + |pre| <= |s| && s[p..p + |pre|] == pre
    ensures StartsWith(s[p..], pre)
  {
    assert s[p..][..|pre|] == s[p..p + |pre|];
  }

  /** A `;`-free key followed by `;` or the end is what the key run captures. */
  lemma KeyAt(s: String, b: nat, key: String)
    requires b + |key| <= |s| && key != [] && ';' !in key && s[b..b + |key|] == key
    requires b + |key| == |s| || s[b + |key|] == ';'
    ensures b < |s| && s[b] != ';' && s[b..KeyRunEnd(s, b)] == key
  {
    assert s[b] == key[0];
    forall k | b <= k < b + |key| ensures s[k] != ';' {
      assert s[k] == key[k - b];
    }
    KeyRunEndReaches(s, b, b + |key|);
  }

  /** A string opening with `zh-cn:` and a key closed by `;` has that key. */
  lemma CnTagKey(key: String, rest: String)
    requires key != [] && ';' !in key
    ensures SearchKey("zh-cn:" + key + ";" + rest, 0) == Some(key)
  {
    var s := "zh-cn:" + key + ";" + rest;
    assert s[0..] == s;
    assert s[..8][3] == 'c';
    assert s[..6] == "zh-cn:";
    assert s[6..6 + |key|] == key;
    KeyAt(s, 6, key);
  }

  /** `re.search(key_pattern, s)` from position `p`: the match at the leftmost position that has one. */
  function SearchKey(s: String, p: nat): (r: Option<String>)
    requires p <= |s|
    ensures r.None? <==> forall q :: p <= q <= |s| ==> TagKeyAt(s, q).None?
    ensures r.Some? ==> exists q :: p <= q <= |s| && TagKeyAt(s, q) == r
                                    && forall q' :: p <= q' < q ==> TagKeyAt(s, q').None?
    decreases |s| - p
  {
    if TagKeyAt(s, p).Some? then TagKeyAt(s, p)
    else if p == |s| then None
    else
      var r := SearchKey(s, p + 1);
      SearchKeySkip(s, p, r);
      r
  }

  /** A position without a match leaves the leftmost match of the rest as the leftmost one. */
  lemma SearchKeySkip(s: String, p: nat, r: Option<String>)
    requires p < |s| && TagKeyAt(s, p).None?
    requires r.None? <==> forall q :: p + 1 <= q <= |s| ==> TagKeyAt(s, q).None?
    requires r.Some? ==> exists q :: p + 1 <= q <= |s| && TagKeyAt(s, q) == r
                                     && forall q' :: p + 1 <= q' < q ==> TagKeyAt(s, q').None?
    ensures r.None? <==> forall q :: p <= q <= |s| ==> TagKeyAt(s, q).None?
    ensures r.Some? ==> exists q :: p <= q <= |s| && TagKeyAt(s, q) == r
                                    && forall q' :: p <= q' < q ==> TagKeyAt(s, q').None?
  {
    if r.Some? {
      var q :| p + 1 <= q <= |s| && TagKeyAt(s, q) == r
               && forall q' :: p + 1 <= q' < q ==> TagKeyAt(s, q').None?;
      assert forall q' :: p <= q' < q ==> TagKeyAt(s, q').None?;
    }
  }

  /** `re.search(key_pattern, s)` in terms of the pattern: the key found is the second group of a
      match at the leftmost position that has a match. */
  lemma SearchKeyMatch(s: String, k: String)
    requires SearchKey(s, 0) == Some(k)
    ensures exists q: nat :: q <= |s| && IsKeyMatch(s, q, k)
                             && forall q': nat, k': String :: q' < q ==> !IsKeyMatch(s, q', k')
  {
    var q :| 0 <= q <= |s| && TagKeyAt(s, q) == Some(k)
             && forall q' :: 0 <= q' < q ==> TagKeyAt(s, q').None?;
    TagKeyAtIff(s, q, k);
    forall q': nat, k': String | q' < q ensures !IsKeyMatch(s, q', k') {
      TagKeyAtIff(s, q', k');
    }
  }

  /** `re.search(key_pattern, s)` finds nothing exactly when the pattern matches nowhere. */
  lemma SearchKeyNone(s: String)
    ensures SearchKey(s, 0).None? <==> forall q: nat, k': String :: q <= |s| ==> !IsKeyMatch(s, q, k')
  {
    if SearchKey(s, 0).None? {
      forall q: nat, k': String | q <= |s| ensures !IsKeyMatch(s, q, k') {
        TagKeyAtIff(s, q, k');
      }
    } else {
      SearchKeyMatch(s, SearchKey(s, 0).value);
    }
  }

  /** The thresholds that differ between the three copies of the parse. */
  datatype Rules = Rules(stripKey: bool, maxKeyLen: Option<nat>, needNonAscii: bool, stripValue: bool)

  /** `split_article` in one_line.py: key and value stripped, key of 2 to 30 characters with a
      non-ASCII one. */
  const ArticleRules := Rules(true, Some(30), true, true)

  /** `merge_opencc`: nothing stripped, key of 2 to 30 characters. */
  const MergeRules := Rules(false, Some(30), false, false)

  /** `Translation.split_strings`: nothing stripped, key of at least 2 characters. */
  const TranslationRules := Rules(false, None, false, false)

  /** The key a string maps its variants to, when the key pattern matches and the key passes the
      thresholds. */
  function KeyOf(s: String, rules: Rules): (r: Option<String>)
    ensures r.Some? ==> |r.value| >= 2
    ensures r.Some? && rules.maxKeyLen.Some? ==> |r.value| <= rules.maxKeyLen.value
    ensures r.Some? && rules.needNonAscii ==> HasNonAscii(r.value)
  {
    match SearchKey(s, 0)
    case None => None
    case Some(g) =>
      var key := if rules.stripKey then Strip(g) else g;
      if |key| >= 2 && (rules.maxKeyLen.None? || |key| <= rules.maxKeyLen.value)
         && (!rules.needNonAscii || HasNonAscii(key))
      then Some(key)
      else None
  }

  /** With a bound of 30, a key of exactly 30 characters (after the strip the rules ask for) is
      accepted and one of 31 is rejected. */
  lemma KeyLengthBound(s: String, rules: Rules, g: String)
    requires SearchKey(s, 0) == Some(g) && rules.maxKeyLen == Some(30)
    requires !rules.needNonAscii || HasNonAscii(if rules.stripKey then Strip(g) else g)
    ensures var key := if rules.stripKey then Strip(g) else g;
            && (|key| == 30 ==> KeyOf(s, rules) == Some(key))
            && (|key| == 31 ==> KeyOf(s, rules) == None)
  {
  }

  /** The variant named by one `;`-segment: the text after its first `:`, for a segment of at least
      two characters. */
  function SegmentValue(seg: String, rules: Rules): (r: Option<String>)
  {
    if |seg| >= 2 then
      var parts := SplitOnce(seg, ':');
      if |parts| == 2 then Some(if rules.stripValue then Strip(parts[1]) else parts[1]) else None
    else None
  }

  /** A segment shorter than two characters, or without `:`, names no variant; any other names the
      text after its first colon. */
  lemma SegmentValueIff(seg: String, rules: Rules)
    ensures SegmentValue(seg, rules).None? <==> |seg| < 2 || ':' !in seg
    ensures SegmentValue(seg, rules).Some? && !rules.stripValue ==>
              exists lang :: ':' !in lang && seg == lang + ":" + SegmentValue(seg, rules).value
  {
    if |seg| >= 2 && ':' in seg {
      var parts := SplitOnce(seg, ':');
      assert seg == parts[0] + ":" + parts[1];
    }
  }

  /** The (variant, key) pairs the segments give, in order: one per segment naming a variant other
      than the key. */
  function SegmentPairs(segs: seq<String>, key: String, rules: Rules): (r: seq<(String, String)>)
    ensures |r| <= |segs|
    ensures forall i :: 0 <= i < |r| ==> r[i].1 == key && r[i].0 != key
    decreases |segs|
  {
    if segs == [] then []
    else
      var prev := SegmentPairs(segs[..|segs| - 1], key, rules);
      match SegmentValue(segs[|segs| - 1], rules)
      case Some(v) => if v != key then prev + [(v, key)] else prev
      case None => prev
  }

  /** A segment naming a variant other than the key adds one pair. */
  lemma SegmentPairsAdd(segs: seq<String>, seg: String, key: String, rules: Rules, v: String)
    requires SegmentValue(seg, rules) == Some(v) && v != key
    ensures SegmentPairs(segs + [seg], key, rules) == SegmentPairs(segs, key, rules) + [(v, key)]
  {
    assert (segs + [seg])[..|segs|] == segs;
  }

  /** A segment naming no variant, or the key itself, adds nothing. */
  lemma SegmentPairsSkip(segs: seq<String>, seg: String, key: String, rules: Rules)
    requires SegmentValue(seg, rules) == None || SegmentValue(seg, rules) == Some(key)
    ensures SegmentPairs(segs + [seg], key, rules) == SegmentPairs(segs, key, rules)
  {
    assert (segs + [seg])[..|segs|] == segs;
  }

  /** The (variant, key) pairs one unwrapped block or line contributes. */
  function StringPairs(s: String, rules: Rules): (r: seq<(String, String)>)
    ensures forall i :: 0 <= i < |r| ==>
              && r[i].0 != r[i].1
              && |r[i].1| >= 2
              && (rules.maxKeyLen.Some? ==> |r[i].1| <= rules.maxKeyLen.value)
              && (rules.needNonAscii ==> HasNonAscii(r[i].1))
  {
    match KeyOf(s, rules)
    case None => []
    case Some(key) =>
      var locales := Split(s, ';');
      if |locales| > 1 then SegmentPairs(locales, key, rules) else []
  }

  /** A string gives no pair when the key pattern finds no match in it, or when it has no `;`
      (splitting it gives a single segment). */
  lemma NoKeyOrOneSegment(s: String, rules: Rules)
    requires (forall q :: 0 <= q <= |s| ==> TagKeyAt(s, q).None?) || ';' !in s
    ensures StringPairs(s, rules) == []
  {
    SplitOnePiece(s, ';');
  }

  /** Every pair records a variant that some segment of the string names. */
  lemma {:induction false} SegmentPairsFromSegments(segs: seq<String>, key: String, rules: Rules, i: nat)
    requires i < |SegmentPairs(segs, key, rules)|
    ensures exists k :: 0 <= k < |segs| && SegmentValue(segs[k], rules) == Some(SegmentPairs(segs, key, rules)[i].0)
    decreases |segs|
  {
    var prev := SegmentPairs(segs[..|segs| - 1], key, rules);
    if i < |prev| {
      SegmentPairsFromSegments(segs[..|segs| - 1], key, rules, i);
      var k :| 0 <= k < |segs| - 1 && SegmentValue(segs[..|segs| - 1][k], rules) == Some(prev[i].0);
      assert segs[..|segs| - 1][k] == segs[k];
    } else {
      assert SegmentValue(segs[|segs| - 1], rules) == Some(SegmentPairs(segs, key, rules)[i].0);
    }
  }
}

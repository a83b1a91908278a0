/** Worked cases of one_line.py: blocks shaped like the one in the `split_article` docstring, and
    a block whose last variant is empty. */
module OneLineCases {
  import opened Wrappers
  import opened PyStr
  import opened Dict
  import opened LocaleParse
  import opened OneLine

  /** The inside of a block in the docstring's shape. */
  function ThreeLocales(k: String, v1: String, v2: String): String
  {
    ("zh-cn:" + k) + ";" + (" zh-sg:" + v1) + ";" + (" zh-tw:" + v2) + ";"
  }

  /** Three segments closed by `;` split into those three and an empty tail. */
  lemma ThreeSegments(a: String, b: String, c: String)
    requires ';' !in a && ';' !in b && ';' !in c
    ensures Split(a + ";" + b + ";" + c + ";", ';') == [] + [a] + [b] + [c] + [""]
  {
    assert a + ";" + b + ";" + c + ";" == a + [';'] + (b + [';'] + (c + [';'] + []));
    SplitConcat(a, ';', b + [';'] + (c + [';'] + []));
    SplitConcat(b, ';', c + [';'] + []);
    SplitConcat(c, ';', []);
  }

  /** A tag such as `zh-cn:`: a language name and its colon, with no `;`. */
  predicate TagOk(tag: String)
  {
    |tag| >= 2 && tag[|tag| - 1] == ':' && ':' !in tag[..|tag| - 1] && ';' !in tag
  }

  lemma DocTags()
    ensures TagOk("zh-cn:") && TagOk(" zh-sg:") && TagOk(" zh-tw:")
  {
  }

  /** A segment opening with a tag names the stripped rest. */
  lemma TaggedSegment(tag: String, v: String)
    requires TagOk(tag) && ';' !in v
    ensures ';' !in tag + v
    ensures SegmentValue(tag + v, ArticleRules) == Some(Strip(v))
  {
    var lang := tag[..|tag| - 1];
    SplitOnceConcat(lang, ':', v);
    assert lang + [':'] + v == tag + v;
  }

  lemma ThreeLocalesKey(k: String, v1: String, v2: String)
    requires ';' !in k && k != []
    requires 2 <= |Strip(k)| <= 30 && HasNonAscii(Strip(k))
    ensures KeyOf(ThreeLocales(k, v1, v2), ArticleRules) == Some(Strip(k))
  {
    assert ThreeLocales(k, v1, v2) == "zh-cn:" + k + ";" + (" zh-sg:" + v1 + "; zh-tw:" + v2 + ";");
    CnTagKey(k, " zh-sg:" + v1 + "; zh-tw:" + v2 + ";");
  }

  /** Four segments: the key's own, two variants and the empty tail after the last `;`. */
  lemma FourSegments(a: String, b: String, c: String, d: String, key: String, x1: String, x2: String)
    requires SegmentValue(a, ArticleRules) == Some(key) && SegmentValue(d, ArticleRules) == None
    requires SegmentValue(b, ArticleRules) == Some(x1) && SegmentValue(c, ArticleRules) == Some(x2)
    requires x1 != key && x2 != key
    ensures SegmentPairs([] + [a] + [b] + [c] + [d], key, ArticleRules) == [(x1, key), (x2, key)]
  {
    SegmentPairsSkip([], a, key, ArticleRules);
    SegmentPairsAdd([] + [a], b, key, ArticleRules, x1);
    SegmentPairsAdd([] + [a] + [b], c, key, ArticleRules, x2);
    SegmentPairsSkip([] + [a] + [b] + [c], d, key, ArticleRules);
    TwoSnocs((x1, key), (x2, key));
  }

  lemma TwoSnocs<T>(x: T, y: T)
    ensures [] + [x] + [y] == [x, y]
  {
  }

  /** The three segments of a block in the docstring's shape. */
  lemma DocSegments(k: String, v1: String, v2: String)
    requires ';' !in k && ';' !in v1 && ';' !in v2
    ensures ';' !in "zh-cn:" + k && ';' !in " zh-sg:" + v1 && ';' !in " zh-tw:" + v2
    ensures SegmentValue("zh-cn:" + k, ArticleRules) == Some(Strip(k))
    ensures SegmentValue(" zh-sg:" + v1, ArticleRules) == Some(Strip(v1))
    ensures SegmentValue(" zh-tw:" + v2, ArticleRules) == Some(Strip(v2))
  {
    DocTags();
    TaggedSegment("zh-cn:", k);
    TaggedSegment(" zh-sg:", v1);
    TaggedSegment(" zh-tw:", v2);
  }

  /** A keyed string of three `;`-closed segments, the first naming the key and the other two a
      variant each, gives those two pairs. */
  lemma ThreeSegmentPairs(s: String, a: String, b: String, c: String, key: String, x1: String, x2: String)
    requires s == a + ";" + b + ";" + c + ";" && ';' !in a && ';' !in b && ';' !in c
    requires KeyOf(s, ArticleRules) == Some(key) && SegmentValue(a, ArticleRules) == Some(key)
    requires SegmentValue(b, ArticleRules) == Some(x1) && SegmentValue(c, ArticleRules) == Some(x2)
    requires x1 != key && x2 != key
    ensures StringPairs(s, ArticleRules) == [(x1, key), (x2, key)]
  {
    ThreeSegments(a, b, c);
    FourSegments(a, b, c, "", key, x1, x2);
  }

  /** A block in the docstring's shape maps both variants to the key. */
  lemma ThreeLocalesPairs(k: String, v1: String, v2: String)
    requires ';' !in k && ';' !in v1 && ';' !in v2 && k != []
    requires 2 <= |Strip(k)| <= 30 && HasNonAscii(Strip(k))
    requires Strip(v1) != Strip(k) && Strip(v2) != Strip(k)
    ensures StringPairs(ThreeLocales(k, v1, v2), ArticleRules) == [(Strip(v1), Strip(k)), (Strip(v2), Strip(k))]
  {
    DocSegments(k, v1, v2);
    ThreeLocalesKey(k, v1, v2);
    ThreeSegmentPairs(ThreeLocales(k, v1, v2), "zh-cn:" + k, " zh-sg:" + v1, " zh-tw:" + v2, Strip(k), Strip(v1), Strip(v2));
  }

  /** Text a block may hold that has no `H` to remove. */
  predicate PlainBlockText(s: String)
  {
    forall i :: 0 <= i < |s| ==> IsBlockChar(s[i]) && s[i] != 'H'
  }

  lemma PlainBlockTextConcat(a: String, b: String)
    requires PlainBlockText(a) && PlainBlockText(b)
    ensures PlainBlockText(a + b)
  {
    forall i | 0 <= i < |a + b| ensures IsBlockChar((a + b)[i]) && (a + b)[i] != 'H' {
      if i >= |a| { assert (a + b)[i] == b[i - |a|]; }
    }
  }

  lemma DocPieces()
    ensures PlainBlockText("zh-cn:") && PlainBlockText(" zh-sg:") && PlainBlockText(" zh-tw:")
    ensures PlainBlockText(";")
  {
  }

  /** The inside of a block in the docstring's shape is plain block text opening with `zh`. */
  lemma ThreeLocalesPlain(k: String, v1: String, v2: String)
    requires PlainBlockText(k) && PlainBlockText(v1) && PlainBlockText(v2)
    ensures PlainBlockText(ThreeLocales(k, v1, v2))
    ensures |ThreeLocales(k, v1, v2)| >= 3
    ensures ThreeLocales(k, v1, v2)[0] == 'z' && ThreeLocales(k, v1, v2)[1] == 'h'
  {
    DocPieces();
    var a, b, c := "zh-cn:" + k, " zh-sg:" + v1, " zh-tw:" + v2;
    PlainBlockTextConcat("zh-cn:", k);
    PlainBlockTextConcat(" zh-sg:", v1);
    PlainBlockTextConcat(" zh-tw:", v2);
    PlainBlockTextConcat(a, ";");
    PlainBlockTextConcat(a + ";", b);
    PlainBlockTextConcat(a + ";" + b, ";");
    PlainBlockTextConcat(a + ";" + b + ";", c);
    PlainBlockTextConcat(a + ";" + b + ";" + c, ";");
    var s := ThreeLocales(k, v1, v2);
    assert s[0] == a[0] == 'z' && s[1] == a[1] == 'h';
  }

  /** A text that is a single block records what the block's inside gives. */
  lemma OneBlockArticle(text: String, pairs: seq<(String, String)>)
    requires Matches(text) == [text] && StringPairs(Unwrap(text), ArticleRules) == pairs
    ensures ArticlePairs(text) == pairs
  {
    MatchPairsOne(text);
  }

  lemma MatchPairsOne(m: String)
    ensures MatchPairs([m]) == StringPairs(Unwrap(m), ArticleRules)
  {
    assert [m][..0] == [];
  }

  /** `{H|…}` around plain block text opening with `zh` is one block, unwrapped to that text. */
  lemma PlainWrapped(inner: String)
    requires PlainBlockText(inner) && |inner| >= 3 && inner[0] == 'z' && inner[1] == 'h'
    ensures Matches("{H|" + inner + "}") == ["{H|" + inner + "}"]
    ensures Unwrap("{H|" + inner + "}") == inner
  {
    WrappedBlock(inner);
    UnwrapWrapped(inner);
  }

  /** `split_article` on a text that is one block in the docstring's shape records both variants. */
  lemma ThreeLocalesArticle(k: String, v1: String, v2: String)
    requires PlainBlockText(k) && PlainBlockText(v1) && PlainBlockText(v2)
    requires ';' !in k && ';' !in v1 && ';' !in v2 && k != []
    requires 2 <= |Strip(k)| <= 30 && HasNonAscii(Strip(k))
    requires Strip(v1) != Strip(k) && Strip(v2) != Strip(k)
    ensures ArticlePairs("{H|" + ThreeLocales(k, v1, v2) + "}") == [(Strip(v1), Strip(k)), (Strip(v2), Strip(k))]
  {
    var inner := ThreeLocales(k, v1, v2);
    ThreeLocalesPlain(k, v1, v2);
    PlainWrapped(inner);
    ThreeLocalesPairs(k, v1, v2);
    OneBlockArticle("{H|" + inner + "}", [(Strip(v1), Strip(k)), (Strip(v2), Strip(k))]);
  }

  /** Two different variants of one key fill an empty dictionary in order. */
  lemma TwoPairsDictionary(x1: String, x2: String, key: String)
    requires x1 != x2
    ensures PutAll(Empty(), [(x1, key), (x2, key)]) == ODict([x1, x2], map[x1 := key, x2 := key])
  {
    var pairs := [(x1, key), (x2, key)];
    assert pairs[..1][..0] == [];
    assert PutAll(Empty(), pairs[..1]) == ODict([x1], map[x1 := key]);
  }

  /** A word of the example: plain block text without `;` or surrounding whitespace. */
  predicate Word(w: String)
  {
    PlainBlockText(w) && ';' !in w && Strip(w) == w
  }

  lemma WordKey()
    ensures Word("计算机") && HasNonAscii("计算机") && |"计算机"| == 3
  {
    StripClean("计算机");
    assert !IsAscii("计算机"[0]);
  }

  lemma WordSimplified()
    ensures Word("电脑") && "电脑" != "计算机"
  {
    StripClean("电脑");
  }

  lemma WordTraditional()
    ensures Word("電腦") && "電腦" != "计算机" && "电脑" != "電腦"
  {
    StripClean("電腦");
    assert "电脑"[0] != "電腦"[0];
  }

  /** The docstring's example: `{H|zh-cn:计算机; zh-sg:电脑; zh-tw:電腦;}` maps 电脑 and 電腦 to 计算机,
      in that order. */
  lemma DocstringExample()
    ensures PutAll(Empty(), ArticlePairs("{H|" + ThreeLocales("计算机", "电脑", "電腦") + "}"))
            == ODict(["电脑", "電腦"], map["电脑" := "计算机", "電腦" := "计算机"])
  {
    WordKey();
    WordSimplified();
    WordTraditional();
    ThreeLocalesArticle("计算机", "电脑", "電腦");
    TwoPairsDictionary("电脑", "電腦", "计算机");
  }

  /** The inside of a block whose second variant is only whitespace. */
  function KeyAndBlank(k: String, tag: String, blank: String): String
  {
    ("zh-cn:" + k) + ";" + (tag + blank) + ";"
  }

  predicate AllSpace(s: String)
  {
    forall i :: 0 <= i < |s| ==> IsSpace(s[i])
  }

  /** A variant that is only whitespace strips to the empty string. */
  lemma BlankSegment(tag: String, blank: String)
    requires TagOk(tag) && PlainBlockText(tag) && AllSpace(blank)
    ensures ';' !in tag + blank && PlainBlockText(tag + blank)
    ensures SegmentValue(tag + blank, ArticleRules) == Some([])
  {
    assert PlainBlockText(blank) && ';' !in blank by {
      forall i | 0 <= i < |blank| ensures IsBlockChar(blank[i]) && blank[i] != 'H' && blank[i] != ';' {
        assert IsSpace(blank[i]);
      }
    }
    TaggedSegment(tag, blank);
    PlainBlockTextConcat(tag, blank);
  }

  lemma TwoSegments(a: String, b: String)
    requires ';' !in a && ';' !in b
    ensures Split(a + ";" + b + ";", ';') == [] + [a] + [b] + [""]
  {
    assert a + ";" + b + ";" == a + [';'] + (b + [';'] + []);
    SplitConcat(a, ';', b + [';'] + []);
    SplitConcat(b, ';', []);
  }

  lemma ThreeSegmentsOnePair(a: String, b: String, d: String, key: String, x: String)
    requires SegmentValue(a, ArticleRules) == Some(key) && SegmentValue(d, ArticleRules) == None
    requires SegmentValue(b, ArticleRules) == Some(x) && x != key
    ensures SegmentPairs([] + [a] + [b] + [d], key, ArticleRules) == [(x, key)]
  {
    SegmentPairsSkip([], a, key, ArticleRules);
    SegmentPairsAdd([] + [a], b, key, ArticleRules, x);
    SegmentPairsSkip([] + [a] + [b], d, key, ArticleRules);
  }

  lemma TwoSegmentPairs(s: String, a: String, b: String, key: String, x: String)
    requires s == a + ";" + b + ";" && ';' !in a && ';' !in b
    requires KeyOf(s, ArticleRules) == Some(key) && SegmentValue(a, ArticleRules) == Some(key)
    requires SegmentValue(b, ArticleRules) == Some(x) && x != key
    ensures StringPairs(s, ArticleRules) == [(x, key)]
  {
    TwoSegments(a, b);
    ThreeSegmentsOnePair(a, b, "", key, x);
  }

  lemma KeyAndBlankKey(k: String, tag: String, blank: String)
    requires ';' !in k && k != []
    requires 2 <= |Strip(k)| <= 30 && HasNonAscii(Strip(k))
    ensures KeyOf(KeyAndBlank(k, tag, blank), ArticleRules) == Some(Strip(k))
  {
    assert KeyAndBlank(k, tag, blank) == "zh-cn:" + k + ";" + ((tag + blank) + ";");
    CnTagKey(k, (tag + blank) + ";");
  }

  /** A key followed by a blank variant records the empty string as a variant of the key. */
  lemma KeyAndBlankPairs(k: String, tag: String, blank: String)
    requires TagOk(tag) && PlainBlockText(tag) && AllSpace(blank)
    requires ';' !in k && k != []
    requires 2 <= |Strip(k)| <= 30 && HasNonAscii(Strip(k))
    ensures StringPairs(KeyAndBlank(k, tag, blank), ArticleRules) == [([], Strip(k))]
  {
    DocTags();
    TaggedSegment("zh-cn:", k);
    BlankSegment(tag, blank);
    KeyAndBlankKey(k, tag, blank);
    TwoSegmentPairs(KeyAndBlank(k, tag, blank), "zh-cn:" + k, tag + blank, Strip(k), []);
  }

  lemma KeyAndBlankPlain(k: String, tag: String, blank: String)
    requires PlainBlockText(k) && PlainBlockText(tag + blank)
    ensures PlainBlockText(KeyAndBlank(k, tag, blank))
    ensures |KeyAndBlank(k, tag, blank)| >= 3
    ensures KeyAndBlank(k, tag, blank)[0] == 'z' && KeyAndBlank(k, tag, blank)[1] == 'h'
  {
    DocPieces();
    var a, b := "zh-cn:" + k, tag + blank;
    PlainBlockTextConcat("zh-cn:", k);
    PlainBlockTextConcat(a, ";");
    PlainBlockTextConcat(a + ";", b);
    PlainBlockTextConcat(a + ";" + b, ";");
    var s := KeyAndBlank(k, tag, blank);
    assert s[0] == a[0] == 'z' && s[1] == a[1] == 'h';
  }

  /** A block whose only variant is blank, such as `{H|zh-cn:计算机; zh-tw: ;}`, records the empty
      string, and replacing the empty string puts a copy of the key before every character of the
      text and one at its end. */
  lemma BlankVariantArticle(k: String, tag: String, blank: String)
    requires TagOk(tag) && PlainBlockText(tag) && AllSpace(blank)
    requires PlainBlockText(k) && ';' !in k && k != []
    requires 2 <= |Strip(k)| <= 30 && HasNonAscii(Strip(k))
    ensures var text := "{H|" + KeyAndBlank(k, tag, blank) + "}";
            && ArticlePairs(text) == [([], Strip(k))]
            && ApplyReplacements(text, ArticlePairs(text)) == InsertEverywhere(text, Strip(k))
            && |ApplyReplacements(text, ArticlePairs(text))| == |text| + (|text| + 1) * |Strip(k)|
  {
    var inner := KeyAndBlank(k, tag, blank);
    var text := "{H|" + inner + "}";
    BlankSegment(tag, blank);
    KeyAndBlankPlain(k, tag, blank);
    PlainWrapped(inner);
    KeyAndBlankPairs(k, tag, blank);
    OneBlockArticle(text, [([], Strip(k))]);
    OneReplacement(text, [], Strip(k));
    InsertEverywhereLength(text, Strip(k));
  }

  lemma OneReplacement(text: String, x: String, key: String)
    ensures ApplyReplacements(text, [(x, key)]) == Replace(text, x, key)
  {
    assert [(x, key)][..0] == [];
  }

  lemma OneSpace()
    ensures AllSpace(" ")
  {
  }

  /** A word of the example with a non-ASCII letter is a key the rules accept. */
  lemma WordAsKey(w: String)
    requires Word(w) && HasNonAscii(w) && |w| == 3
    ensures PlainBlockText(w) && ';' !in w && w != []
    ensures 2 <= |Strip(w)| <= 30 && HasNonAscii(Strip(w))
  {
  }

  /** The blank-variant case with the docstring's key: `{H|zh-cn:计算机; zh-tw: ;}`. */
  lemma BlankVariantExample()
    ensures ArticlePairs("{H|" + KeyAndBlank("计算机", " zh-tw:", " ") + "}") == [([], "计算机")]
  {
    DocTags();
    DocPieces();
    OneSpace();
    WordKey();
    WordAsKey("计算机");
    BlankVariantArticle("计算机", " zh-tw:", " ");
  }

  /** Punctuation or a word in a non-ASCII script: neither whitespace nor in tab-to-tilde. */
  predicate Wide(c: char)
  {
    !IsSpace(c) && !IsTabToTilde(c)
  }

  /** An ASCII word between two spaces, inside non-ASCII text, collapses to one space. */
  lemma CollapseAsciiWord(x: char, w: String, y: char)
    requires Wide(x) && Wide(y) && w != []
    requires forall i :: 0 <= i < |w| ==> IsTabToTilde(w[i]) && !IsSpace(w[i])
    ensures Collapse([x] + " " + w + " " + [y]) == [x] + " " + [y]
  {
    var s := [x] + " " + w + " " + [y];
    var n := |w|;
    assert s[0] == x && s[1] == ' ' && s[n + 2] == ' ' && s[n + 3] == y;
    forall k | 2 <= k < n + 2 ensures s[k] == w[k - 2] { }
    TabToTildeEndCovers(s, 2, n + 3);
    assert TabToTildeEnd(s, 2) == n + 3;
    assert LastSpace(s, 3, n + 3) == Some(n + 2);
    assert SpaceRunAt(s, 1) == Some(n + 3);
    assert CollapseFrom(s, n + 4) == [];
    assert CollapseFrom(s, n + 3) == [y];
    assert CollapseFrom(s, 1) == " " + [y];
  }

  /** `re.sub` on `中 abc 文` leaves `中 文`. */
  lemma CollapseExample()
    ensures Collapse("中 abc 文") == "中 文"
  {
    CollapseAsciiWord('中', "abc", '文');
    assert "中 abc 文" == ['中'] + " " + "abc" + " " + ['文'];
    assert "中 文" == ['中'] + " " + ['文'];
  }
}

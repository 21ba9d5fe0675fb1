/**
 * The language engine: the rule-based English to Tok Pisin rewriter (lower-case,
 * whole-word dictionary substitution, first letter upper-cased), the
 * translation entry point with its two supported paths, and the course-level
 * rewrite of every string leaf.
 */
module LanguageEngine {
  import opened Wrappers
  import opened JsString
  import opened Json

  /** The dictionary, in the order its entries are applied. */
  const Dictionary: seq<(string, string)> := [
    ("training", "tren"),
    ("course", "kos"),
    ("student", "sumatin"),
    ("teacher", "tisa"),
    ("workplace", "ples wok"),
    ("safety", "sefti"),
    ("assessment", "sek"),
    ("learning", "lanem"),
    ("module", "hap"),
    ("lesson", "lesen"),
    ("community", "komuniti"),
    ("development", "divelopmen"),
    ("leadership", "lidasip")
  ]

  /** Every English word is non-empty; every replacement is non-empty and lower case. */
  predicate ValidEntries(d: seq<(string, string)>) {
    forall k :: 0 <= k < |d| ==> |d[k].0| > 0 && |d[k].1| > 0 && NoUpper(d[k].1)
  }

  lemma DictionaryValid()
    ensures ValidEntries(Dictionary)
  {
  }

  predicate WordCharAt(s: string, i: int) {
    0 <= i < |s| && IsWordChar(s[i])
  }

  /** `\b` at position `i`: a word character on exactly one side. */
  predicate Boundary(s: string, i: int) {
    WordCharAt(s, i - 1) != WordCharAt(s, i)
  }

  /** `\bw\b` with the `i` flag matches at index `i`. */
  predicate WordAt(s: string, i: nat, w: string) {
    LitAt(s, i, w) && Boundary(s, i) && Boundary(s, i + |w|)
  }

  /** What `s.replace(/\bw\b/gi, r)` produces from index `i` on: matches are found
      left to right without overlap, each becomes `r`, other characters are copied. */
  function ReplaceWordFrom(s: string, w: string, r: string, i: nat): string
    requires |w| > 0 && i <= |s|
    decreases |s| - i
  {
    if i == |s| then ""
    else if WordAt(s, i, w) then r + ReplaceWordFrom(s, w, r, i + |w|)
    else [s[i]] + ReplaceWordFrom(s, w, r, i + 1)
  }

  /** The dictionary entries applied one after another, as the `forEach` does. */
  function ApplyDictionary(s: string, d: seq<(string, string)>): string
    requires ValidEntries(d)
    decreases |d|
  {
    if d == [] then s else ApplyDictionary(ReplaceWordFrom(s, d[0].0, d[0].1, 0), d[1..])
  }

  /** `s.charAt(0).toUpperCase() + s.slice(1)`. */
  function Capitalize(s: string): (r: string)
    ensures |r| == |s|
    ensures r != [] ==> r[0] == UpperChar(s[0]) && !IsAsciiLower(r[0]) && r[1..] == s[1..]
  {
    if s == [] then [] else [UpperChar(s[0])] + s[1..]
  }

  /** Lower-cased, then rewritten with the entries of `d`. */
  function RewriteWith(text: string, d: seq<(string, string)>): string
    requires ValidEntries(d)
  {
    ApplyDictionary(ToLower(text), d)
  }

  /** The text before capitalisation: lower-cased and rewritten with the dictionary. */
  function Rewritten(text: string): string {
    DictionaryValid();
    RewriteWith(text, Dictionary)
  }

  /** What `englishToTokPisin` returns. */
  function TokPisin(text: string): string {
    Capitalize(Rewritten(text))
  }

  /** `englishToTokPisin`: lower-case, rewrite with each dictionary entry in turn, capitalise. */
  method EnglishToTokPisin(text: string) returns (translated: string)
    ensures translated == TokPisin(text)
  {
    DictionaryValid();
    translated := ToLower(text);
    var i := 0;
    while i < |Dictionary|
      invariant 0 <= i <= |Dictionary|
      invariant ValidEntries(Dictionary[i..])
      invariant ApplyDictionary(translated, Dictionary[i..]) == ApplyDictionary(ToLower(text), Dictionary)
    {
      var (en, tp) := Dictionary[i];
      assert Dictionary[i..][1..] == Dictionary[i + 1..];
      translated := ReplaceWordFrom(translated, en, tp, 0);
      i := i + 1;
    }
    translated := Capitalize(translated);
  }

  // Facts about one rewrite.

  /** No match of `\bw\b` starts in `[i, j)`. */
  predicate NoWordBetween(s: string, w: string, i: nat, j: nat)
    decreases j - i
  {
    i >= j || (!WordAt(s, i, w) && NoWordBetween(s, w, i + 1, j))
  }

  /** A stretch with no match is copied as it is. */
  lemma {:induction false} SkipNoWord(s: string, w: string, r: string, i: nat, j: nat)
    requires |w| > 0 && i <= j <= |s|
    requires NoWordBetween(s, w, i, j)
    ensures ReplaceWordFrom(s, w, r, i) == s[i..j] + ReplaceWordFrom(s, w, r, j)
    decreases j - i
  {
    if i < j {
      SkipNoWord(s, w, r, i + 1, j);
      assert s[i..j] == [s[i]] + s[i + 1..j];
    }
  }

  /** From a point after which the word does not occur whole, the rest is copied. */
  lemma NoWordTail(s: string, w: string, r: string, j: nat)
    requires |w| > 0 && j <= |s|
    requires NoWordBetween(s, w, j, |s|)
    ensures ReplaceWordFrom(s, w, r, j) == s[j..]
  {
    SkipNoWord(s, w, r, j, |s|);
    assert ReplaceWordFrom(s, w, r, |s|) == [];
    assert s[j..|s|] == s[j..];
  }

  /** A string in which the word does not occur whole comes back unchanged. */
  lemma NoWordLeavesUnchanged(s: string, w: string, r: string)
    requires |w| > 0
    requires NoWordBetween(s, w, 0, |s|)
    ensures ReplaceWordFrom(s, w, r, 0) == s
  {
    NoWordTail(s, w, r, 0);
  }

  /** Rewriting introduces no upper-case letter when the replacement has none. */
  lemma {:induction false} ReplaceKeepsLower(s: string, w: string, r: string, i: nat)
    requires |w| > 0 && i <= |s|
    requires NoUpper(s) && NoUpper(r)
    ensures NoUpper(ReplaceWordFrom(s, w, r, i))
    decreases |s| - i
  {
    if i < |s| {
      if WordAt(s, i, w) {
        ReplaceKeepsLower(s, w, r, i + |w|);
      } else {
        ReplaceKeepsLower(s, w, r, i + 1);
      }
    }
  }

  /** Rewriting with a non-empty replacement empties nothing but the empty string. */
  lemma {:induction false} ReplaceKeepsNonEmpty(s: string, w: string, r: string, i: nat)
    requires |w| > 0 && |r| > 0 && i <= |s|
    ensures ReplaceWordFrom(s, w, r, i) == [] <==> i == |s|
    decreases |s| - i
  {
  }

  lemma {:induction false} ApplyKeepsLower(s: string, d: seq<(string, string)>)
    requires ValidEntries(d) && NoUpper(s)
    ensures NoUpper(ApplyDictionary(s, d))
    decreases |d|
  {
    if d != [] {
      ReplaceKeepsLower(s, d[0].0, d[0].1, 0);
      ApplyKeepsLower(ReplaceWordFrom(s, d[0].0, d[0].1, 0), d[1..]);
    }
  }

  lemma {:induction false} ApplyKeepsNonEmpty(s: string, d: seq<(string, string)>)
    requires ValidEntries(d)
    ensures ApplyDictionary(s, d) == [] <==> s == []
    decreases |d|
  {
    if d != [] {
      ReplaceKeepsNonEmpty(s, d[0].0, d[0].1, 0);
      ApplyKeepsNonEmpty(ReplaceWordFrom(s, d[0].0, d[0].1, 0), d[1..]);
    }
  }

  /** Entries whose words do not occur whole leave the string as it is. */
  lemma {:induction false} ApplyUnchanged(s: string, d: seq<(string, string)>)
    requires ValidEntries(d)
    requires forall k :: 0 <= k < |d| ==> NoWordBetween(s, d[k].0, 0, |s|)
    ensures ApplyDictionary(s, d) == s
    decreases |d|
  {
    if d != [] {
      NoWordLeavesUnchanged(s, d[0].0, d[0].1);
      assert forall k :: 0 <= k < |d[1..]| ==> d[1..][k] == d[k + 1];
      ApplyUnchanged(s, d[1..]);
    }
  }

  // Properties of the translation.

  /** Only the first character can be upper case, and it is never an ASCII lower-case letter. */
  lemma TokPisinCase(text: string)
    ensures var t := TokPisin(text);
      t != [] ==> !IsAsciiLower(t[0]) && NoUpper(t[1..])
  {
    DictionaryValid();
    var a := ApplyDictionary(ToLower(text), Dictionary);
    ApplyKeepsLower(ToLower(text), Dictionary);
    if a != [] {
      CapitalizeLower(a);
    }
  }

  lemma CapitalizeLower(s: string)
    requires NoUpper(s) && s != []
    ensures NoUpper(Capitalize(s)[1..])
  {
  }

  /** The empty string translates to the empty string, and only it does. */
  lemma TokPisinEmpty(text: string)
    ensures TokPisin(text) == [] <==> text == []
  {
    DictionaryValid();
    ApplyKeepsNonEmpty(ToLower(text), Dictionary);
  }

  /** The input is lower-cased first, so its ASCII case makes no difference. */
  lemma TokPisinIgnoresCase(a: string, b: string)
    requires ToLower(a) == ToLower(b)
    ensures TokPisin(a) == TokPisin(b)
  {
  }

  // Word by word: a character outside `\w` separates matches.

  /** Every character of `w` is a `\w` character. */
  predicate AllWordChars(w: string) {
    forall k :: 0 <= k < |w| ==> IsWordChar(w[k])
  }

  /** Every dictionary word is made of `\w` characters only. */
  predicate WordKeys(d: seq<(string, string)>) {
    forall k :: 0 <= k < |d| ==> AllWordChars(d[k].0)
  }

  lemma WordCharLower(c: char)
    ensures IsWordChar(LowerChar(c)) <==> IsWordChar(c)
  {
  }

  /** A case-insensitive match of word characters covers only word characters. */
  lemma {:induction false} LitCoversWordChars(s: string, i: nat, t: string, k: nat, m: nat)
    requires k <= m < |t| && AllWordChars(t)
    requires LitFrom(s, i, t, k)
    ensures IsWordChar(s[i + m])
    decreases m - k
  {
    if k < m {
      LitCoversWordChars(s, i, t, k + 1, m);
    } else {
      WordCharLower(s[i + m]);
      WordCharLower(t[m]);
    }
  }

  /** Matching inside a string is matching inside any string that extends it. */
  lemma {:induction false} LitPrefix(s: string, x: string, i: nat, t: string, k: nat)
    requires k <= |t| && |x| <= |s| && i + |t| <= |x|
    requires forall m :: 0 <= m < |x| ==> s[m] == x[m]
    ensures LitFrom(s, i, t, k) <==> LitFrom(x, i, t, k)
    decreases |t| - k
  {
    if k < |t| {
      LitPrefix(s, x, i, t, k + 1);
    }
  }

  /** Matching inside a suffix `y` of `s`, which starts at `off`. */
  lemma {:induction false} LitSuffix(s: string, off: nat, y: string, i: nat, t: string, k: nat)
    requires k <= |t| && off + |y| == |s|
    requires forall m :: 0 <= m < |y| ==> s[off + m] == y[m]
    ensures LitFrom(s, off + i, t, k) <==> LitFrom(y, i, t, k)
    decreases |t| - k
  {
    if k < |t| {
      LitSuffix(s, off, y, i, t, k + 1);
    }
  }

  /** After a non-word character `s[off - 1]`, a match in `s` is a match in the suffix `y`. */
  lemma WordAtSuffix(s: string, off: nat, y: string, w: string, j: nat)
    requires |w| > 0 && 1 <= off && off + |y| == |s| && j < |y|
    requires forall m :: 0 <= m < |y| ==> s[off + m] == y[m]
    requires !IsWordChar(s[off - 1])
    ensures WordAt(s, off + j, w) <==> WordAt(y, j, w)
  {
    LitSuffix(s, off, y, j, w, 0);
    assert WordCharAt(s, off + j - 1) == WordCharAt(y, j - 1);
    assert WordCharAt(s, off + j) == WordCharAt(y, j);
    assert WordCharAt(s, off + j + |w|) == WordCharAt(y, j + |w|);
  }

  /** After a non-word character, rewriting `s` is rewriting the suffix `y` on its own. */
  lemma {:induction false} ReplaceInSuffix(s: string, off: nat, y: string, w: string, r: string, j: nat)
    requires |w| > 0 && 1 <= off && off + |y| == |s| && j <= |y|
    requires forall m :: 0 <= m < |y| ==> s[off + m] == y[m]
    requires !IsWordChar(s[off - 1])
    ensures ReplaceWordFrom(s, w, r, off + j) == ReplaceWordFrom(y, w, r, j)
    decreases |y| - j
  {
    if j < |y| {
      WordAtSuffix(s, off, y, w, j);
      if WordAt(y, j, w) {
        ReplaceInSuffix(s, off, y, w, r, j + |w|);
        SuffixMatchStep(s, off, y, w, r, j);
      } else {
        ReplaceInSuffix(s, off, y, w, r, j + 1);
        SuffixCopyStep(s, off, y, w, r, j);
      }
    } else {
      assert ReplaceWordFrom(s, w, r, off + j) == [];
    }
  }

  lemma SuffixMatchStep(s: string, off: nat, y: string, w: string, r: string, j: nat)
    requires |w| > 0 && off + |y| == |s| && j < |y| && j + |w| <= |y|
    requires WordAt(s, off + j, w) && WordAt(y, j, w)
    requires ReplaceWordFrom(s, w, r, off + j + |w|) == ReplaceWordFrom(y, w, r, j + |w|)
    ensures ReplaceWordFrom(s, w, r, off + j) == ReplaceWordFrom(y, w, r, j)
  {
  }

  lemma SuffixCopyStep(s: string, off: nat, y: string, w: string, r: string, j: nat)
    requires |w| > 0 && off + |y| == |s| && j < |y| && s[off + j] == y[j]
    requires !WordAt(s, off + j, w) && !WordAt(y, j, w)
    requires ReplaceWordFrom(s, w, r, off + j + 1) == ReplaceWordFrom(y, w, r, j + 1)
    ensures ReplaceWordFrom(s, w, r, off + j) == ReplaceWordFrom(y, w, r, j)
  {
  }

  /** Before a non-word character `s[|x|]`, a match in `s` is a match in the prefix `x`. */
  lemma WordAtPrefix(s: string, x: string, w: string, i: nat)
    requires |w| > 0 && AllWordChars(w) && i < |x| < |s|
    requires forall m :: 0 <= m < |x| ==> s[m] == x[m]
    requires !IsWordChar(s[|x|])
    ensures WordAt(s, i, w) <==> WordAt(x, i, w)
  {
    if LitAt(s, i, w) && i + |w| > |x| {
      LitCoversWordChars(s, i, w, 0, |x| - i);
      assert false;
    }
    if i + |w| <= |x| {
      LitPrefix(s, x, i, w, 0);
      assert WordCharAt(s, i + |w|) == WordCharAt(x, i + |w|);
      assert WordCharAt(s, i + |w| - 1) == WordCharAt(x, i + |w| - 1);
    } else {
      assert !LitAt(x, i, w);
    }
    assert WordCharAt(s, i - 1) == WordCharAt(x, i - 1);
    assert WordCharAt(s, i) == WordCharAt(x, i);
  }

  /** Before a non-word character `s[|x|]`, rewriting `s` is rewriting the prefix `x`. */
  lemma {:induction false} ReplaceInPrefix(s: string, x: string, w: string, r: string, i: nat)
    requires |w| > 0 && AllWordChars(w) && i <= |x| < |s|
    requires x == s[..|x|]
    requires !IsWordChar(s[|x|])
    ensures ReplaceWordFrom(s, w, r, i) == ReplaceWordFrom(x, w, r, i) + ReplaceWordFrom(s, w, r, |x|)
    decreases |x| - i, 1
  {
    if i < |x| {
      assert forall m :: 0 <= m < |x| ==> s[m] == x[m];
      WordAtPrefix(s, x, w, i);
      if WordAt(x, i, w) {
        PrefixMatchStep(s, x, w, r, i);
      } else {
        PrefixCopyStep(s, x, w, r, i);
      }
    }
  }

  lemma {:induction false} PrefixMatchStep(s: string, x: string, w: string, r: string, i: nat)
    requires |w| > 0 && AllWordChars(w) && i < |x| < |s|
    requires x == s[..|x|]
    requires !IsWordChar(s[|x|])
    requires WordAt(s, i, w) && WordAt(x, i, w)
    ensures ReplaceWordFrom(s, w, r, i) == ReplaceWordFrom(x, w, r, i) + ReplaceWordFrom(s, w, r, |x|)
    decreases |x| - i, 0
  {
    assert i + |w| <= |x|;
    ReplaceInPrefix(s, x, w, r, i + |w|);
    var a, b := ReplaceWordFrom(x, w, r, i + |w|), ReplaceWordFrom(s, w, r, |x|);
    assert r + (a + b) == (r + a) + b;
  }

  lemma {:induction false} PrefixCopyStep(s: string, x: string, w: string, r: string, i: nat)
    requires |w| > 0 && AllWordChars(w) && i < |x| < |s|
    requires x == s[..|x|]
    requires !IsWordChar(s[|x|])
    requires !WordAt(s, i, w) && !WordAt(x, i, w)
    ensures ReplaceWordFrom(s, w, r, i) == ReplaceWordFrom(x, w, r, i) + ReplaceWordFrom(s, w, r, |x|)
    decreases |x| - i, 0
  {
    ReplaceInPrefix(s, x, w, r, i + 1);
    var a, b := ReplaceWordFrom(x, w, r, i + 1), ReplaceWordFrom(s, w, r, |x|);
    assert s[i] == s[..|x|][i];
    assert [x[i]] + (a + b) == ([x[i]] + a) + b;
  }

  /** One rewrite acts on each side of a non-word character separately. */
  lemma ReplaceSplit(x: string, c: char, y: string, w: string, r: string)
    requires |w| > 0 && AllWordChars(w) && !IsWordChar(c)
    ensures ReplaceWordFrom(x + [c] + y, w, r, 0)
         == ReplaceWordFrom(x, w, r, 0) + [c] + ReplaceWordFrom(y, w, r, 0)
  {
    var s := x + [c] + y;
    ReplaceInPrefix(s, x, w, r, 0);
    if LitAt(s, |x|, w) {
      LitCoversWordChars(s, |x|, w, 0, 0);
      assert false;
    }
    assert ReplaceWordFrom(s, w, r, |x|) == [c] + ReplaceWordFrom(s, w, r, |x| + 1);
    ReplaceInSuffix(s, |x| + 1, y, w, r, 0);
  }

  /** The whole dictionary acts on each side of a non-word character separately. */
  lemma {:induction false} ApplySplit(x: string, c: char, y: string, d: seq<(string, string)>)
    requires ValidEntries(d) && WordKeys(d) && !IsWordChar(c)
    ensures ApplyDictionary(x + [c] + y, d) == ApplyDictionary(x, d) + [c] + ApplyDictionary(y, d)
    decreases |d|
  {
    if d != [] {
      ReplaceSplit(x, c, y, d[0].0, d[0].1);
      assert WordKeys(d[1..]) by {
        forall k | 0 <= k < |d[1..]| ensures AllWordChars(d[1..][k].0) {
          assert d[1..][k] == d[k + 1];
        }
      }
      ApplySplit(ReplaceWordFrom(x, d[0].0, d[0].1, 0), c, ReplaceWordFrom(y, d[0].0, d[0].1, 0), d[1..]);
    }
  }

  lemma DictionaryWordKeys()
    ensures WordKeys(Dictionary)
  {
  }

  lemma ToLowerSplit(x: string, c: char, y: string)
    ensures ToLower(x + [c] + y) == ToLower(x) + [LowerChar(c)] + ToLower(y)
  {
  }

  /** Translation works word by word: text on either side of a character outside
      `\w` is rewritten on its own. */
  lemma RewrittenSplit(x: string, c: char, y: string)
    requires !IsWordChar(c)
    ensures Rewritten(x + [c] + y) == Rewritten(x) + [LowerChar(c)] + Rewritten(y)
  {
    DictionaryValid();
    DictionaryWordKeys();
    RewriteSplit(x, c, y, Dictionary);
  }

  lemma RewriteSplit(x: string, c: char, y: string, d: seq<(string, string)>)
    requires ValidEntries(d) && WordKeys(d) && !IsWordChar(c)
    ensures RewriteWith(x + [c] + y, d) == RewriteWith(x, d) + [LowerChar(c)] + RewriteWith(y, d)
  {
    ToLowerSplit(x, c, y);
    WordCharLower(c);
    ApplySplit(ToLower(x), LowerChar(c), ToLower(y), d);
  }

  /** Only the first piece is capitalised. */
  lemma TokPisinSplit(x: string, c: char, y: string)
    requires x != [] && !IsWordChar(c)
    ensures TokPisin(x + [c] + y) == TokPisin(x) + [LowerChar(c)] + Rewritten(y)
  {
    RewrittenSplit(x, c, y);
    RewrittenNonEmpty(x);
    CapitalizeConcat(Rewritten(x), [LowerChar(c)], Rewritten(y));
  }

  lemma RewrittenNonEmpty(x: string)
    requires x != []
    ensures Rewritten(x) != []
  {
    DictionaryValid();
    ApplyKeepsNonEmpty(ToLower(x), Dictionary);
  }

  lemma CapitalizeConcat(a: string, m: string, b: string)
    requires a != []
    ensures Capitalize(a + m + b) == Capitalize(a) + m + b
  {
  }

  // Worked examples.

  /** In a string made of word characters only, `\b` holds at its two ends alone, so a
      word matches whole only when it spans the entire string. */
  lemma {:induction false} OneWordOnly(s: string, w: string, i: nat, j: nat)
    requires AllWordChars(s) && |w| > 0 && j <= |s|
    requires |w| != |s| || !LitAt(s, 0, w)
    ensures NoWordBetween(s, w, i, j)
    decreases j - i
  {
    if i < j {
      assert !WordAt(s, i, w) by {
        if 0 < i {
          assert WordCharAt(s, i - 1) && WordCharAt(s, i);
        } else if |w| < |s| {
          assert WordCharAt(s, |w| - 1) && WordCharAt(s, |w|);
        }
      }
      OneWordOnly(s, w, i + 1, j);
    }
  }

  lemma NoEntryOccurs(text: string, d: seq<(string, string)>)
    requires ValidEntries(d) && NoUpper(text)
    requires forall k :: 0 <= k < |d| ==> NoWordBetween(text, d[k].0, 0, |text|)
    ensures ApplyDictionary(ToLower(text), d) == text
  {
    ToLowerFixesLower(text);
    ApplyUnchanged(text, d);
  }

  /** A word in which no entry occurs whole is only lower-cased. */
  lemma PlainWord(word: string, lower: string, d: seq<(string, string)>)
    requires ValidEntries(d) && ToLower(word) == lower
    requires forall k :: 0 <= k < |d| ==> NoWordBetween(lower, d[k].0, 0, |lower|)
    ensures RewriteWith(word, d) == lower
  {
    NoEntryOccurs(lower, d);
    ToLowerFixesLower(lower);
  }

  lemma CourseworkScreened()
    ensures NoUpper("coursework")
    ensures forall k :: 0 <= k < |Dictionary| ==> NoWordBetween("coursework", Dictionary[k].0, 0, |"coursework"|)
  {
    var s := "coursework";
    assert AllWordChars(s);
    forall k | 0 <= k < |Dictionary| ensures NoWordBetween(s, Dictionary[k].0, 0, |s|) {
      OneWordOnly(s, Dictionary[k].0, 0, |s|);
    }
  }

  lemma CourseworkCapitalised()
    ensures Capitalize("coursework") == "Coursework"
  {
  }

  lemma CourseworkRewritten()
    ensures Rewritten("coursework") == "coursework"
  {
    DictionaryValid();
    CourseworkScreened();
    ToLowerFixesLower("coursework");
    PlainWord("coursework", "coursework", Dictionary);
  }

  /** `course` inside `coursework` is not a whole word, so nothing is replaced. */
  lemma CourseworkLeftAlone()
    ensures TokPisin("coursework") == "Coursework"
  {
    CourseworkRewritten();
    CourseworkCapitalised();
  }

  /** Dictionary entries applied in two runs. */
  lemma {:induction false} ApplyConcat(s: string, a: seq<(string, string)>, b: seq<(string, string)>)
    requires ValidEntries(a) && ValidEntries(b)
    ensures ValidEntries(a + b)
    ensures ApplyDictionary(s, a + b) == ApplyDictionary(ApplyDictionary(s, a), b)
    decreases |a|
  {
    if a != [] {
      assert (a + b)[0] == a[0];
      assert (a + b)[1..] == a[1..] + b;
      ApplyConcat(ReplaceWordFrom(s, a[0].0, a[0].1, 0), a[1..], b);
    } else {
      assert a + b == b;
    }
  }

  /** A case-insensitive literal matches itself. */
  lemma {:induction false} LitSelf(t: string, k: nat)
    requires k <= |t|
    ensures LitFrom(t, 0, t, k)
    decreases |t| - k
  {
    if k < |t| {
      LitSelf(t, k + 1);
    }
  }

  /** A word rewritten on its own becomes its replacement. */
  lemma WholeWord(w: string, r: string)
    requires |w| > 0 && AllWordChars(w)
    ensures ReplaceWordFrom(w, w, r, 0) == r
  {
    LitSelf(w, 0);
    assert WordAt(w, 0, w);
    assert ReplaceWordFrom(w, w, r, |w|) == [];
  }

  /** A lower-case word that is entry `k`'s English word, where no earlier entry occurs
      in it and no later entry occurs in the replacement, becomes that replacement. */
  lemma {:induction false} EntryWord(word: string, d: seq<(string, string)>, k: nat)
    requires ValidEntries(d) && WordKeys(d) && k < |d| && word == d[k].0 && NoUpper(word)
    requires forall j :: 0 <= j < k ==> NoWordBetween(word, d[j].0, 0, |word|)
    requires forall j :: k < j < |d| ==> NoWordBetween(d[k].1, d[j].0, 0, |d[k].1|)
    ensures ApplyDictionary(ToLower(word), d) == d[k].1
  {
    ToLowerFixesLower(word);
    var pre, post := d[..k], d[k + 1..];
    assert d == pre + [d[k]] + post;
    ApplyConcat(word, pre + [d[k]], post);
    ApplyConcat(word, pre, [d[k]]);
    assert forall j :: 0 <= j < |pre| ==> pre[j] == d[j];
    ApplyUnchanged(word, pre);
    WholeWord(word, d[k].1);
    assert ApplyDictionary(word, [d[k]]) == ApplyDictionary(d[k].1, []);
    assert forall j :: 0 <= j < |post| ==> post[j] == d[k + 1 + j];
    ApplyUnchanged(d[k].1, post);
  }

  /** Words joined by single spaces. */
  function Join(ws: seq<string>): string
    decreases |ws|
  {
    if ws == [] then "" else if |ws| == 1 then ws[0] else ws[0] + [' '] + Join(ws[1..])
  }

  /** Each word rewritten on its own. */
  function MapRewrite(ws: seq<string>, d: seq<(string, string)>): (out: seq<string>)
    requires ValidEntries(d)
    ensures |out| == |ws|
    ensures forall i :: 0 <= i < |ws| ==> out[i] == RewriteWith(ws[i], d)
    decreases |ws|
  {
    if ws == [] then [] else [RewriteWith(ws[0], d)] + MapRewrite(ws[1..], d)
  }

  lemma RewriteEmpty(d: seq<(string, string)>)
    requires ValidEntries(d)
    ensures RewriteWith("", d) == ""
  {
    ApplyKeepsNonEmpty(ToLower(""), d);
  }

  /** Space-separated words are rewritten one by one. */
  lemma {:induction false} RewriteJoin(ws: seq<string>, d: seq<(string, string)>)
    requires ValidEntries(d) && WordKeys(d)
    ensures RewriteWith(Join(ws), d) == Join(MapRewrite(ws, d))
    decreases |ws|
  {
    if ws == [] {
      RewriteEmpty(d);
    } else if |ws| > 1 {
      RewriteSplit(ws[0], ' ', Join(ws[1..]), d);
      RewriteJoin(ws[1..], d);
      var out := MapRewrite(ws, d);
      assert out[0] == RewriteWith(ws[0], d) && out[1..] == MapRewrite(ws[1..], d);
    } else {
      assert MapRewrite(ws, d) == [RewriteWith(ws[0], d)];
    }
  }

  /** A sentence of words is translated word by word: the first word is rewritten and
      capitalised, every later word only rewritten, and the single spaces are kept. */
  lemma SentenceOf(ws: seq<string>, outs: seq<string>, d: seq<(string, string)>)
    requires ValidEntries(d) && WordKeys(d)
    requires ws != [] && ws[0] != [] && |outs| == |ws|
    requires Capitalize(RewriteWith(ws[0], d)) == outs[0]
    requires forall i :: 1 <= i < |ws| ==> RewriteWith(ws[i], d) == outs[i]
    ensures Capitalize(RewriteWith(Join(ws), d)) == Join(outs)
  {
    if |ws| > 1 {
      assert Join(ws) == ws[0] + [' '] + Join(ws[1..]);
      assert Join(outs) == outs[0] + [' '] + Join(outs[1..]);
      RewriteSplit(ws[0], ' ', Join(ws[1..]), d);
      RewriteJoin(ws[1..], d);
      MapRewriteTail(ws, outs, d);
      ApplyKeepsNonEmpty(ToLower(ws[0]), d);
      CapitalizeConcat(RewriteWith(ws[0], d), [' '], RewriteWith(Join(ws[1..]), d));
    }
  }

  lemma MapRewriteTail(ws: seq<string>, outs: seq<string>, d: seq<(string, string)>)
    requires ValidEntries(d)
    requires ws != [] && |outs| == |ws|
    requires forall i :: 1 <= i < |ws| ==> RewriteWith(ws[i], d) == outs[i]
    ensures MapRewrite(ws[1..], d) == outs[1..]
  {
    var m, o := MapRewrite(ws[1..], d), outs[1..];
    forall i | 0 <= i < |m| ensures m[i] == o[i] {
      assert ws[1..][i] == ws[i + 1];
    }
  }

  lemma SixWords(w0: string, w1: string, w2: string, w3: string, w4: string, w5: string,
                 t0: string, t1: string, t2: string, t3: string, t4: string, t5: string,
                 d: seq<(string, string)>)
    requires ValidEntries(d) && WordKeys(d)
    requires w0 != [] && Capitalize(RewriteWith(w0, d)) == t0
    requires RewriteWith(w1, d) == t1 && RewriteWith(w2, d) == t2 && RewriteWith(w3, d) == t3
    requires RewriteWith(w4, d) == t4 && RewriteWith(w5, d) == t5
    ensures Capitalize(RewriteWith(Join([w0, w1, w2, w3, w4, w5]), d)) == Join([t0, t1, t2, t3, t4, t5])
  {
    var ws, outs := [w0, w1, w2, w3, w4, w5], [t0, t1, t2, t3, t4, t5];
    forall i | 1 <= i < |ws| ensures RewriteWith(ws[i], d) == outs[i] {
      if i == 1 { assert ws[1] == w1; }
      else if i == 2 { assert ws[2] == w2; }
      else if i == 3 { assert ws[3] == w3; }
      else if i == 4 { assert ws[4] == w4; }
      else { assert ws[5] == w5; }
    }
    SentenceOf(ws, outs, d);
  }

  lemma TrainingWord()
    ensures Rewritten("training") == "tren"
  {
    DictionaryValid();
    DictionaryWordKeys();
    forall j | 0 < j < |Dictionary| ensures NoWordBetween("tren", Dictionary[j].0, 0, 4) {
      OneWordOnly("tren", Dictionary[j].0, 0, 4);
    }
    EntryWord("training", Dictionary, 0);
  }

  lemma CourseWord()
    ensures Rewritten("course") == "kos"
  {
    DictionaryValid();
    DictionaryWordKeys();
    assert NoWordBetween("course", "training", 0, 6);
    forall j | 1 < j < |Dictionary| ensures NoWordBetween("kos", Dictionary[j].0, 0, 3) {
      OneWordOnly("kos", Dictionary[j].0, 0, 3);
    }
    EntryWord("course", Dictionary, 1);
  }

  lemma StudentWord()
    ensures Rewritten("student") == "sumatin"
  {
    DictionaryValid();
    DictionaryWordKeys();
    assert NoWordBetween("student", "training", 0, 7);
    assert NoWordBetween("student", "course", 0, 7);
    forall j | 2 < j < |Dictionary| ensures NoWordBetween("sumatin", Dictionary[j].0, 0, 7) {
      OneWordOnly("sumatin", Dictionary[j].0, 0, 7);
    }
    EntryWord("student", Dictionary, 2);
  }

  lemma ThisWord()
    ensures Rewritten("This") == "this"
  {
    DictionaryValid();
    assert ToLower("This") == "this";
    forall k | 0 <= k < |Dictionary| ensures NoWordBetween("this", Dictionary[k].0, 0, 4) {
      OneWordOnly("this", Dictionary[k].0, 0, 4);
    }
    PlainWord("This", "this", Dictionary);
  }

  lemma HelpsWord()
    ensures Rewritten("helps") == "helps"
  {
    DictionaryValid();
    assert ToLower("helps") == "helps";
    forall k | 0 <= k < |Dictionary| ensures NoWordBetween("helps", Dictionary[k].0, 0, 5) {
      OneWordOnly("helps", Dictionary[k].0, 0, 5);
    }
    PlainWord("helps", "helps", Dictionary);
  }

  lemma TheWord()
    ensures Rewritten("the") == "the"
  {
    DictionaryValid();
    assert ToLower("the") == "the";
    forall k | 0 <= k < |Dictionary| ensures NoWordBetween("the", Dictionary[k].0, 0, 3) {
      OneWordOnly("the", Dictionary[k].0, 0, 3);
    }
    PlainWord("the", "the", Dictionary);
  }

  lemma ThisCapitalised()
    ensures Capitalize("this") == "This"
  {
  }

  /** "This training course helps the student" becomes "This tren kos helps the sumatin":
      whole words are replaced, the rest is kept, and only the first letter is upper case. */
  lemma SentenceExample()
    ensures TokPisin(Join(["This", "training", "course", "helps", "the", "student"]))
         == Join(["This", "tren", "kos", "helps", "the", "sumatin"])
  {
    DictionaryValid();
    DictionaryWordKeys();
    ThisWord();
    ThisCapitalised();
    TrainingWord();
    CourseWord();
    StudentWord();
    HelpsWord();
    TheWord();
    SixWords("This", "training", "course", "helps", "the", "student",
      "This", "tren", "kos", "helps", "the", "sumatin", Dictionary);
  }

  // The translation entry point.

  /** `TranslationInput`: the language codes are plain text, as they are at run time. */
  datatype TranslationInput = TranslationInput(text: string, from: string, to: string, country: Option<string>)

  datatype TranslationResult = TranslationResult(original: string, translated: string, language: string)

  /** The text of the error for a path the engine does not support. */
  function UnsupportedPath(from: string, to: string): string {
    "Unsupported translation path: " + from + " \U{2192} " + to
  }

  /** `translateText`: the identity when both codes agree, the rule-based rewriter from
      English to Tok Pisin, and an error naming the path for any other pair. */
  function TranslateText(input: TranslationInput): (r: Result<TranslationResult, string>)
    ensures r.Success? <==> input.from == input.to || (input.from == "en" && input.to == "tok-pisin")
    ensures r.Success? ==> r.value.original == input.text && r.value.language == input.to
    ensures r.Success? && input.from == input.to ==> r.value.translated == input.text
    ensures r.Success? && input.from != input.to ==> r.value.translated == TokPisin(input.text)
    ensures r.Failure? ==> r.error == UnsupportedPath(input.from, input.to)
  {
    if input.from == input.to then
      Success(TranslationResult(input.text, input.text, input.to))
    else if input.from == "en" && input.to == "tok-pisin" then
      Success(TranslationResult(input.text, TokPisin(input.text), input.to))
    else
      Failure(UnsupportedPath(input.from, input.to))
  }

  /** The country hint plays no part in the translation. */
  lemma TranslateIgnoresCountry(input: TranslationInput, country: Option<string>)
    ensures TranslateText(input.(country := country)) == TranslateText(input)
  {
  }

  /** Only one direction is supported: Tok Pisin cannot be turned back into English. */
  lemma NoPathBack(text: string)
    ensures TranslateText(TranslationInput(text, "tok-pisin", "en", None))
      == Failure(UnsupportedPath("tok-pisin", "en"))
  {
  }

  /** An English to Tok Pisin translation is empty exactly when the text is. */
  lemma TranslatedEmpty(input: TranslationInput)
    requires input.from == "en" && input.to == "tok-pisin"
    ensures TranslateText(input).Success?
    ensures var t := TranslateText(input).value.translated;
      |t| == 0 <==> |input.text| == 0
  {
    TokPisinEmpty(input.text);
  }

  // Course-level translation.

  /** What `JSON.parse(JSON.stringify(course, replacer))` gives when the replacer rewrites
      every string value: strings anywhere (the root included) are translated, keys are not,
      and every other value is copied. */
  function TranslateTree(j: Json): Json {
    MapStrings(TokPisin, j)
  }

  /** Every string of `j`, the root included, rewritten by `f`; keys and all other
      values copied. */
  function MapStrings(f: string -> string, j: Json): Json
    decreases j
  {
    match j
    case JStr(s) => JStr(f(s))
    case JArr(items) => JArr(seq(|items|, i requires 0 <= i < |items| => MapStrings(f, items[i])))
    case JObj(fs) => JObj(seq(|fs|, i requires 0 <= i < |fs| => MapField(f, j, fs[i])))
    case _ => j
  }

  function MapField(f: string -> string, parent: Json, fl: Field): Field
    requires fl < parent
    decreases parent, 0
  {
    Field(fl.key, MapStrings(f, fl.value))
  }

  /** `translateCourse`: English leaves the course as it is; any other code rewrites every
      string to Tok Pisin, whatever language was asked for. */
  function TranslateCourse(course: Json, to: string): (r: Json)
    ensures to == "en" ==> r == course
    ensures to != "en" ==> r == TranslateTree(course)
  {
    if to == "en" then course else TranslateTree(course)
  }

  /** A value with every string emptied: what the translation must leave alone. */
  function Skeleton(j: Json): Json
    decreases j
  {
    match j
    case JStr(_) => JStr("")
    case JArr(items) => JArr(seq(|items|, i requires 0 <= i < |items| => Skeleton(items[i])))
    case JObj(fs) => JObj(seq(|fs|, i requires 0 <= i < |fs| => SkeletonField(j, fs[i])))
    case _ => j
  }

  function SkeletonField(parent: Json, f: Field): Field
    requires f < parent
    decreases parent, 0
  {
    Field(f.key, Skeleton(f.value))
  }

  /** Translation changes strings only: the shape, every key, every number, boolean and
      null, and the order of elements and fields are kept. */
  lemma TranslateKeepsSkeleton(j: Json)
    ensures Skeleton(TranslateTree(j)) == Skeleton(j)
  {
    MapKeepsSkeleton(TokPisin, j);
  }

  /** Rewriting strings, by any rewrite, keeps the skeleton. */
  lemma {:induction false} MapKeepsSkeleton(f: string -> string, j: Json)
    ensures Skeleton(MapStrings(f, j)) == Skeleton(j)
    decreases j
  {
    match j
    case JArr(items) =>
      var t := MapStrings(f, j);
      forall i | 0 <= i < |items| ensures Skeleton(t.items[i]) == Skeleton(items[i]) {
        MapKeepsSkeleton(f, items[i]);
      }
    case JObj(fs) =>
      var t := MapStrings(f, j);
      forall i | 0 <= i < |fs| ensures SkeletonField(t, t.fields[i]) == SkeletonField(j, fs[i]) {
        assert fs[i] < j;
        assert t.fields[i] == MapField(f, j, fs[i]);
        MapKeepsSkeleton(f, fs[i].value);
      }
    case _ =>
  }

  /** One level of the translation: a string becomes its Tok Pisin form, an array keeps its
      length, an object keeps its keys in order, every other value is copied. */
  lemma TranslateTreeShape(j: Json)
    ensures !(j.JStr? || j.JArr? || j.JObj?) ==> TranslateTree(j) == j
    ensures j.JStr? ==> TranslateTree(j) == JStr(TokPisin(j.s))
    ensures j.JArr? ==> var r := TranslateTree(j);
      && r.JArr? && |r.items| == |j.items|
      && forall i :: 0 <= i < |r.items| ==> r.items[i] == TranslateTree(j.items[i])
    ensures j.JObj? ==> var r := TranslateTree(j);
      && r.JObj? && Keys(r.fields) == Keys(j.fields)
      && forall i :: 0 <= i < |r.fields| ==> r.fields[i].value == TranslateTree(j.fields[i].value)
  {
    MapStringsShape(TokPisin, j);
  }

  lemma MapStringsShape(f: string -> string, j: Json)
    ensures !(j.JStr? || j.JArr? || j.JObj?) ==> MapStrings(f, j) == j
    ensures j.JStr? ==> MapStrings(f, j) == JStr(f(j.s))
    ensures j.JArr? ==> var r := MapStrings(f, j);
      && r.JArr? && |r.items| == |j.items|
      && forall i :: 0 <= i < |r.items| ==> r.items[i] == MapStrings(f, j.items[i])
    ensures j.JObj? ==> var r := MapStrings(f, j);
      && r.JObj? && Keys(r.fields) == Keys(j.fields)
      && forall i :: 0 <= i < |r.fields| ==> r.fields[i].value == MapStrings(f, j.fields[i].value)
  {
  }

  /** Whatever code is asked for, the course keeps its skeleton. */
  lemma TranslateCourseKeepsSkeleton(course: Json, to: string)
    ensures Skeleton(TranslateCourse(course, to)) == Skeleton(course)
  {
    if to != "en" {
      TranslateKeepsSkeleton(course);
    }
  }
}

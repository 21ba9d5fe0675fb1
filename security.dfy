/**
 * The security layer: string sanitisation (truncation, first-match redaction
 * of ten blocked patterns, trimming), the recursive sanitiser over request
 * values, the validation assertion, and the per-key request counter.
 */
module Security {
  import opened Wrappers
  import opened JsString
  import opened Json

  const MaxStringLength: nat := 5000
  const MaxArrayLength: nat := 50
  const Redacted := "[redacted]"

  /** One element of a blocked pattern: literal text matched without regard to ASCII
      case, or a greedy run of `\s` (`atLeastOne` for `\s+`, otherwise `\s*`). */
  datatype Piece = Lit(text: string) | Spaces(atLeastOne: bool)

  type Pattern = seq<Piece>

  // The blocked patterns, all case-insensitive.
  const SystemRole: Pattern := [Lit("system"), Spaces(false), Lit(":")]
  const AssistantRole: Pattern := [Lit("assistant"), Spaces(false), Lit(":")]
  const DeveloperRole: Pattern := [Lit("developer"), Spaces(false), Lit(":")]
  const IgnorePrevious: Pattern := [Lit("ignore"), Spaces(true), Lit("previous")]
  const Bypass: Pattern := [Lit("bypass")]
  const Jailbreak: Pattern := [Lit("jailbreak")]
  const Override: Pattern := [Lit("override")]
  const ExecuteCode: Pattern := [Lit("execute"), Spaces(true), Lit("code")]
  const FunctionCall: Pattern := [Lit("function"), Spaces(false), Lit("(")]
  const ProcessEnv: Pattern := [Lit("process.env")]

  /** The blocked patterns in the order they are applied. */
  const BlockedPatterns: seq<Pattern> := [
    SystemRole, AssistantRole, DeveloperRole, IgnorePrevious, Bypass,
    Jailbreak, Override, ExecuteCode, FunctionCall, ProcessEnv]

  /** Every pattern starts with non-empty literal text written in lower case, and follows
      each whitespace run with literal text that does not start with whitespace, so a
      greedy run never has to give characters back. */
  predicate WellFormed(p: Pattern) {
    && |p| > 0 && p[0].Lit? && |p[0].text| > 0 && NoUpper(p[0].text)
    && (forall k :: 0 <= k < |p| && p[k].Spaces? ==>
          k + 1 < |p| && p[k + 1].Lit? && |p[k + 1].text| > 0 && !IsWhitespace(p[k + 1].text[0]))
  }

  lemma BlockedPatternsWellFormed()
    ensures forall k :: 0 <= k < |BlockedPatterns| ==> WellFormed(BlockedPatterns[k])
  {
    RolePatternsWellFormed();
    IgnoreAndBypassWellFormed();
    JailbreakPatternsWellFormed();
    CodePatternsWellFormed();
  }

  lemma RolePatternsWellFormed()
    ensures WellFormed(SystemRole) && WellFormed(AssistantRole) && WellFormed(DeveloperRole)
  {
    RunWellFormed("system", false, ":");
    RunWellFormed("assistant", false, ":");
    RunWellFormed("developer", false, ":");
  }

  lemma IgnoreAndBypassWellFormed()
    ensures WellFormed(IgnorePrevious) && WellFormed(Bypass)
  {
    RunWellFormed("ignore", true, "previous");
    LiteralWellFormed("bypass");
  }

  lemma JailbreakPatternsWellFormed()
    ensures WellFormed(Jailbreak) && WellFormed(Override)
  {
    LiteralWellFormed("jailbreak");
    LiteralWellFormed("override");
  }

  lemma CodePatternsWellFormed()
    ensures WellFormed(ExecuteCode) && WellFormed(FunctionCall) && WellFormed(ProcessEnv)
  {
    RunWellFormed("execute", true, "code");
    RunWellFormed("function", false, "(");
    LiteralWellFormed("process.env");
  }

  lemma LiteralWellFormed(t: string)
    requires |t| > 0 && NoUpper(t)
    ensures WellFormed([Lit(t)])
  {
  }

  lemma RunWellFormed(a: string, one: bool, b: string)
    requires |a| > 0 && NoUpper(a) && |b| > 0 && !IsWhitespace(b[0])
    ensures WellFormed([Lit(a), Spaces(one), Lit(b)])
  {
  }

  /** End of the maximal run of whitespace starting at `i`. */
  function SkipSpaces(s: string, i: nat): (j: nat)
    requires i <= |s|
    ensures i <= j <= |s|
    ensures forall k :: i <= k < j ==> IsWhitespace(s[k])
    ensures j < |s| ==> !IsWhitespace(s[j])
    decreases |s| - i
  {
    if i < |s| && IsWhitespace(s[i]) then SkipSpaces(s, i + 1) else i
  }

  /** Where a match of pieces `ps` that starts at `i` ends, if there is one. Each
      whitespace run is taken whole; `RunMatch` shows that when the piece after it does
      not start with whitespace, no match is lost by not giving characters back. */
  function MatchFrom(s: string, i: nat, ps: Pattern): (r: Option<nat>)
    requires i <= |s|
    ensures r.Some? ==> i <= r.value <= |s|
    ensures r.Some? && |ps| > 0 && ps[0].Lit? ==> LitAt(s, i, ps[0].text) && r.value >= i + |ps[0].text|
    decreases |ps|
  {
    if ps == [] then Some(i)
    else match ps[0]
      case Lit(t) => if LitAt(s, i, t) then MatchFrom(s, i + |t|, ps[1..]) else None
      case Spaces(one) =>
        var j := SkipSpaces(s, i);
        if one && j == i then None else MatchFrom(s, j, ps[1..])
  }

  /** `a` at `i`, then whitespace up to `j` (at least one character when `one`), then `b`,
      all ignoring ASCII case. */
  predicate SpacedPair(s: string, i: nat, a: string, j: nat, one: bool, b: string) {
    && LitAt(s, i, a) && i + |a| <= j <= |s| && (one ==> j > i + |a|)
    && (forall k :: i + |a| <= k < j ==> IsWhitespace(s[k]))
    && LitAt(s, j, b)
  }

  /** What a literal, a whitespace run and a literal match (`a\s*b` or `a\s+b`, ignoring
      ASCII case): `a` at `i`, then some whitespace, then `b`. When `b` does not start with
      whitespace, taking the run whole loses no match, and the match ends after `b`. */
  lemma RunMatch(s: string, i: nat, a: string, one: bool, b: string)
    requires i <= |s| && |b| > 0 && !IsWhitespace(b[0])
    ensures MatchFrom(s, i, [Lit(a), Spaces(one), Lit(b)]).Some? <==>
      exists j: nat :: SpacedPair(s, i, a, j, one, b)
    ensures MatchFrom(s, i, [Lit(a), Spaces(one), Lit(b)]).Some? ==>
      var e := MatchFrom(s, i, [Lit(a), Spaces(one), Lit(b)]).value;
      e >= i + |a| + |b| && SpacedPair(s, i, a, e - |b|, one, b)
  {
    var ps := [Lit(a), Spaces(one), Lit(b)];
    assert ps[1..] == [Spaces(one), Lit(b)] && ps[1..][1..] == [Lit(b)] && [Lit(b)][1..] == [];
    if LitAt(s, i, a) {
      var m := i + |a|;
      var j := SkipSpaces(s, m);
      assert MatchFrom(s, i, ps) == MatchFrom(s, m, ps[1..]);
      assert MatchFrom(s, m, ps[1..]) == if one && j == m then None else MatchFrom(s, j, [Lit(b)]);
      assert MatchFrom(s, j, [Lit(b)]) == if LitAt(s, j, b) then Some(j + |b|) else None;
      if MatchFrom(s, i, ps).Some? {
        assert SpacedPair(s, i, a, j, one, b);
      }
    }
  }

  /** `system\s*:` takes the whole run of spaces before the colon. */
  lemma SystemRoleSpaced()
    ensures MatchFrom("System  :", 0, SystemRole) == Some(9)
  {
    var s := "System  :";
    RunMatch(s, 0, "system", false, ":");
    assert SpacedPair(s, 0, "system", 8, false, ":");
  }

  /** `ignore\s+previous` needs at least one whitespace character between the words. */
  lemma IgnorePreviousNeedsSpace()
    ensures MatchFrom("ignoreprevious", 0, IgnorePrevious) == None
  {
    var s := "ignoreprevious";
    RunMatch(s, 0, "ignore", true, "previous");
    assert !IsWhitespace(s[6]);
  }

  /** The leftmost match of `p` at or after `i`, as a start and an end index. */
  function FindFrom(s: string, p: Pattern, i: nat): (r: Option<(nat, nat)>)
    requires i <= |s|
    ensures r.Some? ==> i <= r.value.0 <= |s| && MatchFrom(s, r.value.0, p) == Some(r.value.1)
    ensures r.Some? ==> forall k :: i <= k < r.value.0 ==> MatchFrom(s, k, p).None?
    ensures r.None? ==> forall k :: i <= k <= |s| ==> MatchFrom(s, k, p).None?
    decreases |s| - i
  {
    match MatchFrom(s, i, p)
    case Some(e) => Some((i, e))
    case None => if i == |s| then None else FindFrom(s, p, i + 1)
  }

  /** `s.replace(pattern, "[redacted]")` without the `g` flag: only the first match goes. */
  function ReplaceFirst(s: string, p: Pattern): (r: string)
    ensures FindFrom(s, p, 0).None? ==> r == s
    ensures FindFrom(s, p, 0).Some? ==>
      var (i, e) := FindFrom(s, p, 0).value;
      r == s[..i] + Redacted + s[e..]
  {
    match FindFrom(s, p, 0)
    case None => s
    case Some((i, e)) => s[..i] + Redacted + s[e..]
  }

  /** The patterns applied one after another, as the `forEach` does. */
  function ApplyPatterns(s: string, ps: seq<Pattern>): string
    decreases |ps|
  {
    if ps == [] then s else ApplyPatterns(ReplaceFirst(s, ps[0]), ps[1..])
  }

  /** `input.slice(0, 5000)`. */
  function Truncate(s: string): (r: string)
    ensures |r| == if |s| <= MaxStringLength then |s| else MaxStringLength
    ensures r == s[..|r|]
  {
    if |s| <= MaxStringLength then s else s[..MaxStringLength]
  }

  /** What `sanitizeString` returns. */
  function SanitizeSpec(input: string): (r: string)
    ensures input == "" ==> r == ""
    ensures Trimmed(r)
  {
    if input == "" then "" else Trim(ApplyPatterns(Truncate(input), BlockedPatterns))
  }

  /** `sanitizeString`: truncate, then redact the first match of each pattern in turn, then trim. */
  method SanitizeString(input: string) returns (clean: string)
    ensures clean == SanitizeSpec(input)
  {
    if input == "" {
      return "";
    }
    clean := Truncate(input);
    var i := 0;
    while i < |BlockedPatterns|
      invariant 0 <= i <= |BlockedPatterns|
      invariant ApplyPatterns(clean, BlockedPatterns[i..]) == ApplyPatterns(Truncate(input), BlockedPatterns)
    {
      assert BlockedPatterns[i..][1..] == BlockedPatterns[i + 1..];
      clean := ReplaceFirst(clean, BlockedPatterns[i]);
      i := i + 1;
    }
    assert BlockedPatterns[i..] == [];
    clean := Trim(clean);
  }

  /** Nothing beyond the first 5000 characters can influence the result. */
  lemma TruncationComesFirst(input: string)
    requires |input| > MaxStringLength
    ensures SanitizeSpec(input) == SanitizeSpec(input[..MaxStringLength])
  {
  }

  /** A redaction can grow the string: each replacement adds at most nine characters. */
  lemma {:induction false} ApplyPatternsLength(s: string, ps: seq<Pattern>)
    requires forall k :: 0 <= k < |ps| ==> WellFormed(ps[k])
    ensures |ApplyPatterns(s, ps)| <= |s| + 9 * |ps|
    decreases |ps|
  {
    if ps != [] {
      var r := ReplaceFirst(s, ps[0]);
      if FindFrom(s, ps[0], 0).Some? {
        var (i, e) := FindFrom(s, ps[0], 0).value;
        assert e >= i + 1;
      }
      assert |r| <= |s| + 9;
      ApplyPatternsLength(r, ps[1..]);
    }
  }

  /** The result is at most 5090 characters: the limit is applied before the
      redaction markers are inserted, so 5000 is not a bound on the output. */
  lemma SanitizedLength(input: string)
    ensures |SanitizeSpec(input)| <= MaxStringLength + 9 * |BlockedPatterns|
  {
    if input != "" {
      BlockedPatternsWellFormed();
      ApplyPatternsLength(Truncate(input), BlockedPatterns);
    }
  }

  /** A pattern that has no match leaves the string as it is. */
  predicate NoneMatch(s: string, ps: seq<Pattern>) {
    forall k :: 0 <= k < |ps| ==> FindFrom(s, ps[k], 0).None?
  }

  lemma {:induction false} ApplyNoMatch(s: string, ps: seq<Pattern>)
    requires NoneMatch(s, ps)
    ensures ApplyPatterns(s, ps) == s
    decreases |ps|
  {
    if ps != [] {
      assert FindFrom(s, ps[0], 0).None?;
      assert NoneMatch(s, ps[1..]) by {
        forall k | 0 <= k < |ps[1..]| ensures FindFrom(s, ps[1..][k], 0).None? {
          assert ps[1..][k] == ps[k + 1];
        }
      }
      ApplyNoMatch(s, ps[1..]);
    }
  }

  /** A string in which no blocked pattern occurs comes back as its trimmed 5000-prefix. */
  lemma CleanInputOnlyTruncatedAndTrimmed(input: string)
    requires NoneMatch(Truncate(input), BlockedPatterns)
    ensures SanitizeSpec(input) == Trim(Truncate(input))
  {
    ApplyNoMatch(Truncate(input), BlockedPatterns);
  }

  /** A string no longer than the limit, with no blocked pattern and no surrounding
      whitespace, is returned unchanged. */
  lemma CleanTrimmedInputUnchanged(input: string)
    requires |input| <= MaxStringLength && Trimmed(input)
    requires NoneMatch(input, BlockedPatterns)
    ensures SanitizeSpec(input) == input
  {
    CleanInputOnlyTruncatedAndTrimmed(input);
    if input != [] {
      assert TrimStart(input) == input;
      assert TrimEnd(input) == input;
    }
  }

  lemma {:induction false} ApplyPatternsConcat(s: string, a: seq<Pattern>, b: seq<Pattern>)
    ensures ApplyPatterns(s, a + b) == ApplyPatterns(ApplyPatterns(s, a), b)
    decreases |a|
  {
    if a != [] {
      assert (a + b)[0] == a[0];
      assert (a + b)[1..] == a[1..] + b;
      ApplyPatternsConcat(ReplaceFirst(s, a[0]), a[1..], b);
    } else {
      assert a + b == b;
    }
  }

  /** A pattern whose leading literal occurs nowhere has no match. */
  lemma {:induction false} LitNowhereNoMatch(s: string, p: Pattern, i: nat)
    requires WellFormed(p) && i <= |s|
    requires LitNowhere(s, p[0].text, i)
    ensures FindFrom(s, p, i).None?
    decreases |s| - i
  {
    if i < |s| {
      LitNowhereNoMatch(s, p, i + 1);
    } else {
      assert !LitAt(s, i, p[0].text);
    }
  }

  /** The three passes of `sanitizeString` with the pattern at index 4 (`bypass`)
      singled out: the patterns before it, itself, and the ones after it. */
  lemma SplitAtBypass(s: string)
    ensures ApplyPatterns(s, BlockedPatterns)
         == ApplyPatterns(ApplyPatterns(ApplyPatterns(s, BlockedPatterns[..4]), [BlockedPatterns[4]]), BlockedPatterns[5..])
  {
    var pre, mid, post := BlockedPatterns[..4], [BlockedPatterns[4]], BlockedPatterns[5..];
    assert BlockedPatterns == pre + mid + post;
    ApplyPatternsConcat(s, pre + mid, post);
    ApplyPatternsConcat(s, pre, mid);
  }

  /** A pattern whose leading literal has a character missing from `s` has no match. */
  lemma AbsentCharNoMatch(s: string, p: Pattern, m: nat)
    requires WellFormed(p) && m < |p[0].text| && Avoids(s, LowerChar(p[0].text[m]))
    ensures FindFrom(s, p, 0).None?
  {
    CharAbsent(s, p[0].text, m, 0);
    LitNowhereNoMatch(s, p, 0);
  }

  /** The four patterns before `bypass` need an `m`, an `i` and a `v`. */
  lemma ScreenBefore(s: string)
    requires Avoids(s, 'm') && Avoids(s, 'i') && Avoids(s, 'v')
    ensures NoneMatch(s, BlockedPatterns[..4])
  {
    BlockedPatternsWellFormed();
    var ps := BlockedPatterns[..4];
    forall k | 0 <= k < 4 ensures FindFrom(s, ps[k], 0).None? {
      if k == 0 { AbsentCharNoMatch(s, ps[0], 5); }
      else if k == 1 { AbsentCharNoMatch(s, ps[1], 3); }
      else if k == 2 { AbsentCharNoMatch(s, ps[2], 2); }
      else { AbsentCharNoMatch(s, ps[3], 0); }
    }
  }

  /** The five patterns after `bypass` need a `j`, an `o`, an `x` and an `f`. */
  lemma ScreenAfter(s: string)
    requires Avoids(s, 'j') && Avoids(s, 'o') && Avoids(s, 'x') && Avoids(s, 'f')
    ensures NoneMatch(s, BlockedPatterns[5..])
  {
    BlockedPatternsWellFormed();
    var ps := BlockedPatterns[5..];
    forall k | 0 <= k < 5 ensures FindFrom(s, ps[k], 0).None? {
      if k == 0 { AbsentCharNoMatch(s, ps[0], 0); }
      else if k == 1 { AbsentCharNoMatch(s, ps[1], 0); }
      else if k == 2 { AbsentCharNoMatch(s, ps[2], 1); }
      else if k == 3 { AbsentCharNoMatch(s, ps[3], 0); }
      else { AbsentCharNoMatch(s, ps[4], 2); }
    }
  }

  lemma ScreenFirstInput()
    ensures NoneMatch("bypass bypass", BlockedPatterns[..4])
  {
    var s0 := "bypass bypass";
    assert Avoids(s0, 'm') && Avoids(s0, 'i') && Avoids(s0, 'v');
    ScreenBefore(s0);
  }

  /** The replacement text has none of the letters the screening lemmas look for. */
  lemma RedactedAvoids(c: char)
    requires c in "jofxmiv"
    ensures Avoids(Redacted, c) && Avoids(" ", c) && Avoids(" bypass", c)
  {
  }

  lemma OnceRedactedAvoids(c: char)
    requires c in "jofxmiv"
    ensures Avoids("[redacted] bypass", c)
  {
    assert "[redacted] bypass" == Redacted + " bypass";
    RedactedAvoids(c);
    AvoidsConcat(Redacted, " bypass", c);
  }

  lemma ScreenOnceRedactedBefore()
    ensures NoneMatch("[redacted] bypass", BlockedPatterns[..4])
  {
    var s1 := "[redacted] bypass";
    OnceRedactedAvoids('m');
    OnceRedactedAvoids('i');
    OnceRedactedAvoids('v');
    ScreenBefore(s1);
  }

  lemma ScreenOnceRedactedAfter()
    ensures NoneMatch("[redacted] bypass", BlockedPatterns[5..])
  {
    var s1 := "[redacted] bypass";
    OnceRedactedAvoids('j');
    OnceRedactedAvoids('o');
    OnceRedactedAvoids('x');
    OnceRedactedAvoids('f');
    ScreenAfter(s1);
  }

  lemma ScreenTwiceRedacted()
    ensures NoneMatch("[redacted] [redacted]", BlockedPatterns[5..])
  {
    var s2 := "[redacted] [redacted]";
    assert s2 == Redacted + " " + Redacted;
    forall c | c in "jofx" ensures Avoids(s2, c) {
      RedactedAvoids(c);
      AvoidsConcat(Redacted, " ", c);
      AvoidsConcat(Redacted + " ", Redacted, c);
    }
    ScreenAfter(s2);
  }

  lemma ApplySingle(s: string, p: Pattern)
    ensures ApplyPatterns(s, [p]) == ReplaceFirst(s, p)
  {
    assert [p][1..] == [];
  }

  lemma FirstBypassFound()
    ensures FindFrom("bypass bypass", BlockedPatterns[4], 0) == Some((0, 6))
  {
    assert LitAt("bypass bypass", 0, "bypass");
    assert MatchFrom("bypass bypass", 0, BlockedPatterns[4]) == Some(6);
  }

  /** Composes the three passes of `SplitAtBypass` for a string on which only
      `bypass` matches, turning it into `a`. */
  lemma OnlyBypassMatches(s: string, a: string)
    requires NoneMatch(s, BlockedPatterns[..4])
    requires ReplaceFirst(s, BlockedPatterns[4]) == a
    requires NoneMatch(a, BlockedPatterns[5..])
    ensures ApplyPatterns(s, BlockedPatterns) == a
  {
    SplitAtBypass(s);
    ApplyNoMatch(s, BlockedPatterns[..4]);
    ApplySingle(s, BlockedPatterns[4]);
    ApplyNoMatch(a, BlockedPatterns[5..]);
  }

  lemma FirstPass()
    ensures ApplyPatterns("bypass bypass", BlockedPatterns) == "[redacted] bypass"
  {
    var s0, s1 := "bypass bypass", "[redacted] bypass";
    ScreenFirstInput();
    FirstBypassFound();
    assert s0[..0] + Redacted + s0[6..] == s1;
    ScreenOnceRedactedAfter();
    OnlyBypassMatches(s0, s1);
  }

  lemma SecondBypassFound()
    ensures FindFrom("[redacted] bypass", BlockedPatterns[4], 0) == Some((11, 17))
  {
    BlockedPatternsWellFormed();
    var s1 := "[redacted] bypass";
    assert !LitAt(s1, 10, "bypass");
    assert !LitAt(s1, 9, "bypass") && !LitAt(s1, 8, "bypass") && !LitAt(s1, 7, "bypass");
    assert !LitAt(s1, 6, "bypass") && !LitAt(s1, 5, "bypass") && !LitAt(s1, 4, "bypass");
    assert !LitAt(s1, 3, "bypass") && !LitAt(s1, 2, "bypass") && !LitAt(s1, 1, "bypass");
    assert !LitAt(s1, 0, "bypass");
    assert LitAt(s1, 11, "bypass");
    assert MatchFrom(s1, 11, BlockedPatterns[4]) == Some(17);
  }

  lemma SecondSplice()
    ensures var s1 := "[redacted] bypass"; s1[..11] + Redacted + s1[17..] == "[redacted] [redacted]"
  {
    var s1 := "[redacted] bypass";
    assert s1[..11] == Redacted + " ";
    assert s1[17..] == [];
    assert s1[..11] + Redacted + s1[17..] == Redacted + " " + Redacted;
  }

  lemma SecondPass()
    ensures ApplyPatterns("[redacted] bypass", BlockedPatterns) == "[redacted] [redacted]"
  {
    var s1, s2 := "[redacted] bypass", "[redacted] [redacted]";
    ScreenOnceRedactedBefore();
    SecondBypassFound();
    SecondSplice();
    ScreenTwiceRedacted();
    OnlyBypassMatches(s1, s2);
  }

  /** `sanitizeString` on a short input whose redacted form has no surrounding whitespace. */
  lemma SanitizeShort(input: string, redacted: string)
    requires input != [] && |input| <= MaxStringLength
    requires ApplyPatterns(input, BlockedPatterns) == redacted
    requires redacted != [] && !IsWhitespace(redacted[0]) && !IsWhitespace(redacted[|redacted| - 1])
    ensures SanitizeSpec(input) == redacted
  {
    ShortRedaction(input, BlockedPatterns, redacted);
  }

  lemma ShortRedaction(input: string, ps: seq<Pattern>, redacted: string)
    requires |input| <= MaxStringLength
    requires ApplyPatterns(input, ps) == redacted && Trimmed(redacted)
    ensures Trim(ApplyPatterns(Truncate(input), ps)) == redacted
  {
    assert Truncate(input) == input;
    TrimFixesTrimmed(redacted);
  }

  /** `sanitizeString` is not idempotent: each pattern loses only its first match,
      so a second pass redacts what the first pass left. */
  lemma NotIdempotent()
    ensures SanitizeSpec("bypass bypass") == "[redacted] bypass"
    ensures SanitizeSpec(SanitizeSpec("bypass bypass")) == "[redacted] [redacted]"
    ensures SanitizeSpec(SanitizeSpec("bypass bypass")) != SanitizeSpec("bypass bypass")
  {
    var once, twice := "[redacted] bypass", "[redacted] [redacted]";
    assert |"bypass bypass"| <= MaxStringLength && |once| <= MaxStringLength;
    assert !IsWhitespace(once[0]) && !IsWhitespace(once[|once| - 1]);
    assert !IsWhitespace(twice[0]) && !IsWhitespace(twice[|twice| - 1]);
    assert twice[11] != once[11];
    FirstPass();
    SecondPass();
    SanitizeShort("bypass bypass", "[redacted] bypass");
    SanitizeShort("[redacted] bypass", "[redacted] [redacted]");
  }

  /** Padding of `z` characters, a letter no blocked literal uses. */
  predicate AllZ(x: string) {
    forall k :: 0 <= k < |x| ==> x[k] == 'z'
  }

  lemma ScreenBypassPadded(x: string)
    requires AllZ(x)
    ensures NoneMatch("bypass" + x, BlockedPatterns[..4])
  {
    assert Avoids("bypass", 'm') && Avoids("bypass", 'i') && Avoids("bypass", 'v');
    AvoidsConcat("bypass", x, 'm');
    AvoidsConcat("bypass", x, 'i');
    AvoidsConcat("bypass", x, 'v');
    ScreenBefore("bypass" + x);
  }

  lemma ScreenRedactedPadded(x: string)
    requires AllZ(x)
    ensures NoneMatch(Redacted + x, BlockedPatterns[5..])
  {
    assert Avoids(Redacted, 'j') && Avoids(Redacted, 'o');
    assert Avoids(Redacted, 'x') && Avoids(Redacted, 'f');
    AvoidsConcat(Redacted, x, 'j');
    AvoidsConcat(Redacted, x, 'o');
    AvoidsConcat(Redacted, x, 'x');
    AvoidsConcat(Redacted, x, 'f');
    ScreenAfter(Redacted + x);
  }

  lemma BypassPaddedFound(x: string)
    ensures FindFrom("bypass" + x, BlockedPatterns[4], 0) == Some((0, 6))
  {
    var s0 := "bypass" + x;
    assert LitAt(s0, 0, "bypass");
    assert MatchFrom(s0, 0, BlockedPatterns[4]) == Some(6);
  }

  /** `bypass` followed by padding: the one match grows by four characters. */
  lemma SanitizeBypassPadded(x: string)
    requires AllZ(x) && |x| <= MaxStringLength - 6
    ensures SanitizeSpec("bypass" + x) == Redacted + x
  {
    var s0, s1 := "bypass" + x, Redacted + x;
    ScreenBypassPadded(x);
    BypassPaddedFound(x);
    assert s0[..0] + Redacted + s0[6..] == s1;
    ScreenRedactedPadded(x);
    OnlyBypassMatches(s0, s1);
    SanitizeShort(s0, s1);
  }

  /** The output of `sanitizeString` is not bounded by `MAX_STRING_LENGTH`: a
      5000-character input can come back 5004 characters long. */
  lemma OutputMayExceedLimit()
    ensures exists input :: |input| == MaxStringLength && |SanitizeSpec(input)| == MaxStringLength + 4
  {
    var x := seq(MaxStringLength - 6, _ => 'z');
    SanitizeBypassPadded(x);
    assert |"bypass" + x| == MaxStringLength;
  }

  // Sanitising values of any shape.

  /** What `sanitizeObject` returns: strings sanitised, arrays cut to 50 elements,
      every object value sanitised under its own key, everything else as it was. */
  function SanitizeTree(j: Json): Json
    decreases j
  {
    match j
    case JStr(s) => JStr(SanitizeSpec(s))
    case JArr(items) =>
      var n := if |items| <= MaxArrayLength then |items| else MaxArrayLength;
      JArr(seq(n, i requires 0 <= i < n => SanitizeTree(items[i])))
    case JObj(fs) =>
      JObj(seq(|fs|, i requires 0 <= i < |fs| => SanitizeField(j, fs[i])))
    case _ => j
  }

  function SanitizeField(parent: Json, f: Field): Field
    requires f < parent
    decreases parent, 0
  {
    Field(f.key, SanitizeTree(f.value))
  }

  /** `sanitizeObject`: strings through `sanitizeString`, arrays and objects element by element. */
  method SanitizeObject(input: Json) returns (out: Json)
    ensures out == SanitizeTree(input)
    decreases input, 1
  {
    match input {
      case JStr(s) =>
        var clean := SanitizeString(s);
        out := JStr(clean);
      case JArr(_) =>
        var kept := SanitizeItems(input);
        out := JArr(kept);
      case JObj(_) =>
        var fields := SanitizeEntries(input);
        out := JObj(fields);
      case _ =>
        out := input;
    }
  }

  /** `input.slice(0, 50).map(sanitizeObject)`. */
  method SanitizeItems(input: Json) returns (kept: seq<Json>)
    requires input.JArr?
    ensures JArr(kept) == SanitizeTree(input)
    decreases input, 0
  {
    var items := input.items;
    var n := if |items| <= MaxArrayLength then |items| else MaxArrayLength;
    kept := [];
    var i := 0;
    while i < n
      invariant 0 <= i <= n
      invariant |kept| == i
      invariant forall k :: 0 <= k < i ==> kept[k] == SanitizeTree(items[k])
    {
      var v := SanitizeObject(items[i]);
      kept := kept + [v];
      i := i + 1;
    }
  }

  /** The `forEach` over `Object.entries`: each value sanitised under its own key, in order. */
  method SanitizeEntries(input: Json) returns (fields: seq<Field>)
    requires input.JObj?
    ensures JObj(fields) == SanitizeTree(input)
    decreases input, 0
  {
    var fs := input.fields;
    fields := [];
    var i := 0;
    while i < |fs|
      invariant 0 <= i <= |fs|
      invariant |fields| == i
      invariant forall k :: 0 <= k < i ==> fields[k] == SanitizeField(input, fs[k])
    {
      assert fs[i] < input;
      var v := SanitizeObject(fs[i].value);
      fields := fields + [Field(fs[i].key, v)];
      i := i + 1;
    }
  }

  /** One level of `sanitizeObject`: null, undefined, numbers and booleans pass through,
      an array keeps its first 50 elements in order, an object keeps exactly its keys. */
  lemma SanitizeTreeShape(j: Json)
    ensures (j.JNull? || j.JUndefined? || j.JNum? || j.JBool?) ==> SanitizeTree(j) == j
    ensures j.JStr? ==> SanitizeTree(j) == JStr(SanitizeSpec(j.s))
    ensures j.JArr? ==> var r := SanitizeTree(j);
      && r.JArr?
      && |r.items| == (if |j.items| <= MaxArrayLength then |j.items| else MaxArrayLength)
      && forall i :: 0 <= i < |r.items| ==> r.items[i] == SanitizeTree(j.items[i])
    ensures j.JObj? ==> var r := SanitizeTree(j);
      && r.JObj?
      && Keys(r.fields) == Keys(j.fields)
      && forall i :: 0 <= i < |r.fields| ==> r.fields[i].value == SanitizeTree(j.fields[i].value)
  {
  }

  /** A sanitised value at any depth: no array over 50 elements, no string with
      surrounding whitespace or over 5090 characters. */
  predicate Sanitized(j: Json)
    decreases j
  {
    match j
    case JStr(s) => Trimmed(s) && |s| <= MaxStringLength + 9 * |BlockedPatterns|
    case JArr(items) => |items| <= MaxArrayLength && forall i :: 0 <= i < |items| ==> Sanitized(items[i])
    case JObj(fs) => forall i :: 0 <= i < |fs| ==> FieldSanitized(j, fs[i])
    case _ => true
  }

  predicate FieldSanitized(parent: Json, f: Field)
    requires f < parent
    decreases parent, 0
  {
    Sanitized(f.value)
  }

  lemma {:induction false} SanitizeTreeSanitizes(j: Json)
    ensures Sanitized(SanitizeTree(j))
    decreases j
  {
    match j
    case JStr(s) =>
      SanitizedLength(s);
    case JArr(items) =>
      var r := SanitizeTree(j);
      forall i | 0 <= i < |r.items| ensures Sanitized(r.items[i]) {
        SanitizeTreeSanitizes(items[i]);
      }
    case JObj(fs) =>
      var r := SanitizeTree(j);
      assert |r.fields| == |fs|;
      forall i | 0 <= i < |r.fields| ensures FieldSanitized(r, r.fields[i]) {
        assert fs[i] < j;
        assert r.fields[i] == SanitizeField(j, fs[i]);
        SanitizeTreeSanitizes(fs[i].value);
      }
    case _ =>
  }

  // Validation.

  /** `assertValidInput`: fails, with the message prefixed, exactly when the value is falsy. */
  function AssertValidInput(condition: Json, message: string): (r: Outcome<string>)
    ensures r.Fail? <==> !Truthy(condition)
    ensures r.Fail? ==> r.error == "SECURITY_VALIDATION_FAILED: " + message
  {
    if !Truthy(condition) then Fail("SECURITY_VALIDATION_FAILED: " + message) else Pass
  }

  // Rate limiting.

  const DefaultLimit: int := 25
  const RateLimitMessage := "RATE_LIMIT_EXCEEDED"

  /** `requestCounts.get(key) || 0`. */
  function CountOf(counts: map<string, nat>, key: string): nat {
    if key in counts then counts[key] else 0
  }

  /** One call of `checkRateLimit` on the table `counts`: whether it passes, and the table after. */
  function RateStep(counts: map<string, nat>, key: string, limit: int): (bool, map<string, nat>) {
    var current := CountOf(counts, key);
    if current >= limit then (false, counts) else (true, counts[key := current + 1])
  }

  /** A call fails exactly when the key's count has reached the limit; otherwise it
      adds one to that key's count, and no other key changes in either case. */
  lemma RateStepEffect(counts: map<string, nat>, key: string, limit: int, other: string)
    requires other != key
    ensures var (ok, next) := RateStep(counts, key, limit);
      && (ok <==> CountOf(counts, key) < limit)
      && CountOf(next, key) == (if ok then CountOf(counts, key) + 1 else CountOf(counts, key))
      && CountOf(next, other) == CountOf(counts, other)
      && (!ok ==> next == counts)
  {
  }

  /** The outcomes of `n` consecutive calls for one key, and the table after them. */
  function Calls(counts: map<string, nat>, key: string, limit: int, n: nat): (seq<bool>, map<string, nat>)
    decreases n
  {
    if n == 0 then ([], counts)
    else
      var (ok, next) := RateStep(counts, key, limit);
      var (rest, final) := Calls(next, key, limit, n - 1);
      ([ok] + rest, final)
  }

  lemma {:induction false} CallsUntilLimit(counts: map<string, nat>, key: string, limit: int)
    requires 0 <= CountOf(counts, key) <= limit
    ensures var n := limit - CountOf(counts, key);
      Calls(counts, key, limit, n + 1).0 == seq(n, _ => true) + [false]
    decreases limit - CountOf(counts, key)
  {
    var n := limit - CountOf(counts, key);
    if n == 0 {
      assert Calls(counts, key, limit, 1).0 == [false];
    } else {
      var (ok, next) := RateStep(counts, key, limit);
      assert ok && CountOf(next, key) == CountOf(counts, key) + 1;
      CallsUntilLimit(next, key, limit);
      assert Calls(counts, key, limit, n + 1).0 == [true] + Calls(next, key, limit, n).0;
      assert [true] + (seq(n - 1, _ => true) + [false]) == seq(n, _ => true) + [false];
    }
  }

  /** For a key never seen before, the first `limit` calls pass and call `limit + 1` fails. */
  lemma FreshKeyExhausted(counts: map<string, nat>, key: string, limit: nat)
    requires key !in counts
    ensures Calls(counts, key, limit, limit + 1).0 == seq(limit, _ => true) + [false]
  {
    CallsUntilLimit(counts, key, limit);
  }

  /** The module-level `requestCounts` map, owned by one object. */
  class RateLimiter {
    var requestCounts: map<string, nat>

    constructor ()
      ensures requestCounts == map[]
    {
      requestCounts := map[];
    }

    /** `checkRateLimit(key, limit)`. */
    method CheckRateLimit(key: string, limit: int) returns (r: Outcome<string>)
      modifies this
      ensures (r.Pass?, requestCounts) == RateStep(old(requestCounts), key, limit)
      ensures r.Fail? <==> CountOf(old(requestCounts), key) >= limit
      ensures r.Fail? ==> r.error == RateLimitMessage && requestCounts == old(requestCounts)
      ensures r.Pass? ==> requestCounts == old(requestCounts)[key := CountOf(old(requestCounts), key) + 1]
    {
      var current := if key in requestCounts then requestCounts[key] else 0;
      if current >= limit {
        r := Fail(RateLimitMessage);
        return;
      }
      requestCounts := requestCounts[key := current + 1];
      r := Pass;
    }
  }
}

/**
 * The ministry and Bible engine: scripture blocks for a topic, drawn from
 * explicit references or a fixed topic table, plus framing sentences. Verse
 * text is a labelled placeholder; no real scripture text is stored.
 */
module MinistryEngine {
  import opened Wrappers
  import opened JsString

  datatype ScriptureRef = ScriptureRef(book: string, chapter: int, verses: seq<int>)

  datatype ScriptureBlock = ScriptureBlock(reference: string, text: string)

  datatype MinistryInput = MinistryInput(
    translation: string,
    topic: string,
    references: Option<seq<ScriptureRef>>)

  datatype MinistryContent = MinistryContent(
    intro: string,
    scriptures: seq<ScriptureBlock>,
    reflection: string)

  const EnDash := "\U{2013}"
  const EmDash := "\U{2014}"

  /** The verse part of a reference: one verse alone, otherwise first and last joined by an
      en dash. An empty list prints `undefined` twice, as indexing past the end does. */
  function VerseRange(verses: seq<int>): string {
    if |verses| == 1 then IntToString(verses[0])
    else if verses == [] then "undefined" + EnDash + "undefined"
    else IntToString(verses[0]) + EnDash + IntToString(verses[|verses| - 1])
  }

  /** `formatReference`. */
  function FormatReference(r: ScriptureRef): (s: string)
    ensures |r.verses| == 1 ==> s == r.book + " " + IntToString(r.chapter) + ":" + IntToString(r.verses[0])
    ensures |r.verses| > 1 ==>
      s == r.book + " " + IntToString(r.chapter) + ":" + IntToString(r.verses[0]) + EnDash + IntToString(r.verses[|r.verses| - 1])
  {
    r.book + " " + IntToString(r.chapter) + ":" + VerseRange(r.verses)
  }

  /** Only the first and the last verse matter to the formatted reference. */
  lemma FormatUsesEndsOnly(r: ScriptureRef, middle: seq<int>)
    requires |r.verses| >= 2
    ensures FormatReference(r) == FormatReference(r.(verses := [r.verses[0]] + middle + [r.verses[|r.verses| - 1]]))
  {
  }

  const LeadershipRefs: seq<ScriptureRef> := [ScriptureRef("Proverbs", 11, [14]), ScriptureRef("1 Timothy", 3, [1, 2])]
  const FaithRefs: seq<ScriptureRef> := [ScriptureRef("Hebrews", 11, [1]), ScriptureRef("Romans", 10, [17])]
  const DiscipleshipRefs: seq<ScriptureRef> := [ScriptureRef("Matthew", 28, [19, 20])]
  const FallbackRefs: seq<ScriptureRef> := [ScriptureRef("Psalm", 119, [105])]

  /** `getDefaultRefs`: the topic table, looked up by the lower-cased topic, with a
      single Psalm 119:105 reference for any other topic. */
  function GetDefaultRefs(topic: string): (r: seq<ScriptureRef>)
    ensures ToLower(topic) !in {"leadership", "faith", "discipleship"} ==> r == FallbackRefs
    ensures |r| >= 1
  {
    var key := ToLower(topic);
    if key == "leadership" then LeadershipRefs
    else if key == "faith" then FaithRefs
    else if key == "discipleship" then DiscipleshipRefs
    else FallbackRefs
  }

  /** The lookup ignores ASCII case: topics equal up to case get the same references. */
  lemma DefaultRefsIgnoreCase(a: string, b: string)
    requires ToLower(a) == ToLower(b)
    ensures GetDefaultRefs(a) == GetDefaultRefs(b)
  {
  }

  const PlaceholderTail := " Scripture text loaded from approved source."

  /** `fetchScriptureText`: a placeholder that names the translation and the reference. */
  function FetchScriptureText(r: ScriptureRef, translation: string): (s: string)
    ensures Contains(s, translation) && Contains(s, FormatReference(r))
  {
    var head := "[" + translation + "] ";
    var tail := " " + EmDash + PlaceholderTail;
    var s := head + FormatReference(r) + tail;
    OccursInside("[", translation, "] ");
    OccursExtend(head, translation, 1, FormatReference(r));
    OccursExtend(head + FormatReference(r), translation, 1, tail);
    OccursInside(head, FormatReference(r), tail);
    s
  }

  const IntroTail := ") to guide learning, application, and spiritual growth."

  /** `generateMinistryIntro`. */
  function GenerateMinistryIntro(topic: string, translation: string): (s: string)
    ensures Contains(s, topic) && Contains(s, translation)
  {
    var head := "This ministry module focuses on \"";
    var mid := head + topic + "\" using the Holy Scriptures (";
    var s := mid + translation + IntroTail;
    OccursInside(head, topic, "\" using the Holy Scriptures (");
    OccursExtend(mid, topic, |head|, translation);
    OccursExtend(mid + translation, topic, |head|, IntroTail);
    OccursInside(mid, translation, IntroTail);
    s
  }

  const ReflectionHead := "Prayerfully reflect on how the biblical principles related to \""
  const ReflectionTail := "\" can be applied in your personal walk and ministry practice."

  /** `generateReflectionPrompt`. */
  function GenerateReflectionPrompt(topic: string): (s: string)
    ensures Contains(s, topic)
  {
    var head := ReflectionHead;
    var s := head + topic + ReflectionTail;
    OccursInside(head, topic, ReflectionTail);
    s
  }

  function Block(r: ScriptureRef, translation: string): ScriptureBlock {
    ScriptureBlock(FormatReference(r), FetchScriptureText(r, translation))
  }

  /** The references a request uses: the explicit list when given (even an empty one,
      which JavaScript treats as truthy), otherwise the topic defaults. */
  function ChosenRefs(input: MinistryInput): seq<ScriptureRef> {
    if input.references.Some? then input.references.value else GetDefaultRefs(input.topic)
  }

  /** `buildMinistryContent`: one scripture block per chosen reference, in order. */
  function BuildMinistryContent(input: MinistryInput): (c: MinistryContent)
    ensures |c.scriptures| == |ChosenRefs(input)|
    ensures forall i :: 0 <= i < |c.scriptures| ==>
      c.scriptures[i] == Block(ChosenRefs(input)[i], input.translation)
    ensures c.intro == GenerateMinistryIntro(input.topic, input.translation)
    ensures c.reflection == GenerateReflectionPrompt(input.topic)
  {
    var refs := ChosenRefs(input);
    MinistryContent(
      GenerateMinistryIntro(input.topic, input.translation),
      seq(|refs|, i requires 0 <= i < |refs| => Block(refs[i], input.translation)),
      GenerateReflectionPrompt(input.topic))
  }

  /** Each block's text is the placeholder `[translation] reference — Scripture text loaded
      from approved source.`, built around that block's own reference. */
  lemma BlockTexts(input: MinistryInput)
    ensures var c := BuildMinistryContent(input);
      forall k :: 0 <= k < |c.scriptures| ==>
        c.scriptures[k].text == "[" + input.translation + "] " + c.scriptures[k].reference + " " + EmDash + PlaceholderTail
  {
  }

  /** Explicit references replace the defaults entirely, whatever the topic. */
  lemma ExplicitRefsReplaceDefaults(translation: string, t1: string, t2: string, refs: seq<ScriptureRef>)
    ensures BuildMinistryContent(MinistryInput(translation, t1, Some(refs))).scriptures
         == BuildMinistryContent(MinistryInput(translation, t2, Some(refs))).scriptures
  {
  }

  /** Topic "leadership" (in any case) gives Proverbs 11:14, then 1 Timothy 3:1–2. */
  lemma LeadershipScriptures(topic: string, translation: string)
    requires ToLower(topic) == "leadership"
    ensures var c := BuildMinistryContent(MinistryInput(translation, topic, None));
      |c.scriptures| == 2
      && c.scriptures[0].reference == "Proverbs 11:14"
      && c.scriptures[1].reference == "1 Timothy 3:1" + EnDash + "2"
  {
    var input := MinistryInput(translation, topic, None);
    assert ChosenRefs(input) == LeadershipRefs;
    var c := BuildMinistryContent(input);
    assert c.scriptures[0].reference == FormatReference(LeadershipRefs[0]);
    assert c.scriptures[1].reference == FormatReference(LeadershipRefs[1]);
    LeadershipReferences();
  }

  lemma LeadershipReferences()
    ensures FormatReference(LeadershipRefs[0]) == "Proverbs 11:14"
    ensures FormatReference(LeadershipRefs[1]) == "1 Timothy 3:1" + EnDash + "2"
  {
    assert DigitChar(1) == '1' && DigitChar(2) == '2' && DigitChar(3) == '3' && DigitChar(4) == '4';
    assert NatToString(11) == NatToString(1) + [DigitChar(1)];
    assert NatToString(14) == NatToString(1) + [DigitChar(4)];
  }

  /** An unknown topic falls back to Psalm 119:105 alone. */
  lemma FallbackScripture(topic: string, translation: string)
    requires ToLower(topic) !in {"leadership", "faith", "discipleship"}
    ensures var c := BuildMinistryContent(MinistryInput(translation, topic, None));
      |c.scriptures| == 1 && c.scriptures[0].reference == "Psalm 119:105"
      && c.scriptures[0].text == "[" + translation + "] Psalm 119:105 " + EmDash + PlaceholderTail
  {
    var input := MinistryInput(translation, topic, None);
    assert ChosenRefs(input) == FallbackRefs;
    var c := BuildMinistryContent(input);
    assert c.scriptures[0].reference == FormatReference(FallbackRefs[0]);
    FallbackReference();
    BlockTexts(input);
    assert "[" + translation + "] " + "Psalm 119:105" + " " == "[" + translation + "] Psalm 119:105 ";
  }

  lemma FallbackReference()
    ensures FormatReference(FallbackRefs[0]) == "Psalm 119:105"
  {
    assert DigitChar(0) == '0' && DigitChar(1) == '1' && DigitChar(5) == '5' && DigitChar(9) == '9';
    assert NatToString(11) == NatToString(1) + [DigitChar(1)];
    assert NatToString(10) == NatToString(1) + [DigitChar(0)];
    assert NatToString(105) == NatToString(10) + [DigitChar(5)];
    assert NatToString(119) == NatToString(11) + [DigitChar(9)];
  }
}

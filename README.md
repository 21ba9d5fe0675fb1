# NextWave Training Forge: course generation core, in Dafny

This project models the course-generation core of NextWave Training Forge: the
`POST /api/generate` handler and the engines it drives.

- The security layer covers:
  - the recursive input sanitiser. It truncates, redacts ten case-insensitive
    injection patterns (first match only) and trims.
  - the validation assertion.
  - the in-memory per-key rate limiter.
- The tier gatekeeper covers:
  - seven subscription tiers;
  - a constant permission matrix;
  - the ordered hard access check;
  - the advisory feature query.
- The course builder turns a course request into modules, outcomes, lessons,
  activities and assessments.
- The ministry engine turns a topic and a translation into scripture references,
  placeholder verse text and framing sentences.
- The language engine covers:
  - the rule-based English-to-Tok-Pisin rewriter. It lower-cases, replaces
    dictionary words as whole words, then upper-cases the first letter;
  - the two translation paths;
  - the course-wide rewrite of every string.
- The route's decision logic runs in this order:
  1. sanitise the body;
  2. rate-limit the stub user;
  3. destructure the request;
  4. validate four fields;
  5. check PRO-tier access;
  6. build the course;
  7. insert the ministry intro;
  8. localise;
  9. answer 200 or 400.

## Layout

| file | module | models |
|---|---|---|
| `wrappers.dfy` | `Wrappers` | `Option`, `Result` and `Outcome` (`Pass` or `Fail`), which stand for the source's thrown errors |
| `json.dfy` | `Json` | JSON-like request values, JavaScript truthiness and property lookup |
| `js_string.dfy` | `JsString` | `toLowerCase` (ASCII only), `trim`, `\w` and `\s`, decimal rendering of integers, case-insensitive literal matching |
| `security.dfy` | `Security` | `lib/security.ts` without the audit log |
| `tier_gatekeeper.dfy` | `TierGatekeeper` | `engines/tierGatekeeper.ts` |
| `course_builder.dfy` | `CourseBuilder` | `engines/courseBuilder.ts` |
| `ministry_engine.dfy` | `MinistryEngine` | `engines/ministryEngine.ts` |
| `language_engine.dfy` | `LanguageEngine` | `engines/languageEngine.ts` |
| `generate_route.dfy` | `GenerateRoute` | the decision logic of `app/api/generate/route.ts` |

**Where the source mutates its own state or walks a loop, the model is imperative.** Each
such method is proved equal to a specification function, and the properties are proved
about that function:

- `sanitizeString` walks the pattern list, keeping `clean` in a local variable:
  `Security.SanitizeString`.
- `sanitizeObject` recurses and builds its output object entry by entry:
  `Security.SanitizeObject`.
- The rate limiter's module-level `Map` is the `requestCounts` field of
  `Security.RateLimiter`.
- `buildCourse` pushes modules in a loop: `CourseBuilder.BuildCourse`.
- `englishToTokPisin` rewrites its local with one dictionary entry at a time:
  `LanguageEngine.EnglishToTokPisin`.
- The route changes the limiter's state: `GenerateRoute.Generate`.

The pure helpers are functions. Two small in-place updates of freshly built arrays are
modelled as values; "## Left out" names them.

**Thrown errors are values.** Each throw becomes the `Fail` or `Failure` of an
`Outcome` or `Result`, and `GenerateRoute.Respond` turns it into the 400 response the
`catch` block sends. The model also covers the `TypeError`s the runtime raises on the
source's unchecked paths:

- a null body;
- a non-string course type reaching `toLowerCase`;
- a non-string title reaching `toLowerCase` as the ministry topic;
- `course.modules[0]` missing when no module was built.

**Values coerce as JavaScript coerces them:**

- `durationWeeks` goes through `Math.max`'s `ToNumber`.
- Template literals use `String(v)`.
- The route passes raw request values to engines typed for strings.
- The tier check compares a non-string language or translation by identity:
  - a truthy non-string language is rejected by any tier with a language list, PRO
    included;
  - a truthy non-string translation is rejected by every tier;
  - falsy values are not checked.

## Model

| member | source | states |
|---|---|---|
| `JsString.ToLower` | engines/languageEngine.ts:83 | Same length; each character is lower-cased; no ASCII upper-case letter remains |
| `JsString.Trim` | lib/security.ts:48 | The result is a slice of the input with only whitespace before and after it, and a non-empty result neither starts nor ends with whitespace: exactly the surrounding whitespace is removed |
| `JsString.InsideBothEnds` | lib/security.ts:48 | Removing a whitespace prefix and then a whitespace suffix leaves an inner slice surrounded only by whitespace |
| `JsString.TrimFixesTrimmed` | lib/security.ts:48 | Trimming an already trimmed string changes nothing |
| `Json.Get` | app/api/generate/route.ts:47-57 | A defined result is the value of a field of that key in an object; a key that no field has reads `undefined`; a key that some field has reads the value of the first such field |
| `Json.Lookup` | app/api/generate/route.ts:47-57 | The same three facts over a list of fields |
| `Security.BlockedPatternsWellFormed` | lib/security.ts:21-32 | Each of the ten patterns starts with a non-empty lower-case literal, and every whitespace run is followed by literal text that does not start with whitespace, which is what lets the greedy matcher take each run whole |
| `Security.LiteralWellFormed` | lib/security.ts:26-31 | A pattern of one non-empty lower-case literal is well formed |
| `Security.RunWellFormed` | lib/security.ts:22-30 | A literal, a whitespace run, then a literal that does not start with whitespace is well formed |
| `Security.MatchFrom` | lib/security.ts:21-32 | The hand-written matcher for the ten expressions: a match ends within the string, at or after the leading literal, which occurs (ignoring ASCII case) at the start position; what a pattern with a whitespace run matches is stated by `RunMatch` |
| `Security.RunMatch` | lib/security.ts:21-29 | `a\s*b` (or `a\s+b`) matches at `i` exactly when `a` occurs at `i` and some run of whitespace after it (non-empty for `\s+`) is followed by `b`, all ignoring ASCII case; when `b` does not start with whitespace, the greedy match then ends right after `b` |
| `Security.SystemRoleSpaced` | lib/security.ts:21 | `system\s*:` matches `"System  :"` in full, ignoring case and taking both spaces |
| `Security.IgnorePreviousNeedsSpace` | lib/security.ts:24 | `ignore\s+previous` does not match `"ignoreprevious"`: the run must be non-empty |
| `Security.FindFrom` | lib/security.ts:44-46 | A match is reported at the leftmost position where the pattern matches; none means the pattern matches nowhere |
| `Security.ReplaceFirst` | lib/security.ts:45 | Only the first match of a non-global pattern is replaced by `[redacted]`; no match leaves the string as it is |
| `Security.Truncate` | lib/security.ts:42 | The first 5000 characters (all of a shorter string) |
| `Security.SanitizeSpec` | lib/security.ts:39-49 | Empty input gives empty output; the result is always trimmed |
| `Security.SanitizeString` | lib/security.ts:39-49 | The loop over the patterns computes exactly `SanitizeSpec` |
| `Security.TruncationComesFirst` | lib/security.ts:42 | Over 5000 characters, only the first 5000 matter to the result |
| `Security.ApplyPatternsLength` | lib/security.ts:44-46 | Each pass grows the string by at most 9 characters (`[redacted]` replaces at least one character) |
| `Security.SanitizedLength` | lib/security.ts:39-49 | The output is at most 5000 + 90 characters long |
| `Security.ApplyNoMatch` | lib/security.ts:44-46 | Patterns that match nowhere change nothing |
| `Security.CleanInputOnlyTruncatedAndTrimmed` | lib/security.ts:39-49 | When no pattern matches the truncated input, the result is just truncate-then-trim |
| `Security.CleanTrimmedInputUnchanged` | lib/security.ts:39-49 | A short, trimmed input that no pattern matches comes back unchanged |
| `Security.ApplyPatternsConcat` | lib/security.ts:44-46 | Applying two lists of patterns in turn is applying their concatenation |
| `Security.SanitizeShort` | lib/security.ts:39-49 | A short input whose redacted form has no outer whitespace sanitises to that redacted form |
| `Security.NotIdempotent` | lib/security.ts:39-49 | `"bypass bypass"` sanitises to `"[redacted] bypass"` and then to `"[redacted] [redacted]"`: sanitising twice differs from sanitising once |
| `Security.SanitizeBypassPadded` | lib/security.ts:39-49 | `"bypass"` plus any run of `z`s up to the limit sanitises to `[redacted]` plus the run |
| `Security.OutputMayExceedLimit` | lib/security.ts:42-48 | An input of exactly 5000 characters can sanitise to 5004 characters: redaction happens after truncation |
| `Security.SanitizeTree` | lib/security.ts:56-78 | The recursive sanitiser as a function; its behaviour is stated by `SanitizeTreeShape` and `SanitizeTreeSanitizes` |
| `Security.SanitizeObject` | lib/security.ts:56-78 | The recursive method computes exactly `SanitizeTree` |
| `Security.SanitizeItems` | lib/security.ts:63-67 | The first 50 elements of an array, each sanitised, in index order |
| `Security.SanitizeEntries` | lib/security.ts:69-75 | Every field of an object, with its key, its value sanitised, in the order the fields were read (integer-like keys are not moved first; see "## Left out") |
| `Security.SanitizeTreeShape` | lib/security.ts:56-78 | Null, undefined, numbers and booleans are kept; strings are sanitised; arrays are cut to 50 and mapped; objects keep their keys in order and their values are sanitised |
| `Security.SanitizeTreeSanitizes` | lib/security.ts:56-78 | At every depth of the result: no array over 50 elements, no string with surrounding whitespace, no string over 5090 characters |
| `Security.AssertValidInput` | lib/security.ts:85-89 | Fails exactly when the value is falsy, with the message prefixed by `SECURITY_VALIDATION_FAILED: ` |
| `Security.RateStep` | lib/security.ts:99-110 | One rate-limit check on a table of counts; its behaviour is stated by `RateStepEffect`, `CallsUntilLimit` and `FreshKeyExhausted` |
| `Security.RateStepEffect` | lib/security.ts:99-110 | A call passes exactly when the key's count is below the limit. It then increments only that key; a rejected call changes nothing, and no other key is touched |
| `Security.CallsUntilLimit` | lib/security.ts:99-110 | From any count up to the limit, the remaining calls pass and the next one fails |
| `Security.FreshKeyExhausted` | lib/security.ts:97-110 | A key not seen before gets exactly `limit` passing calls, then a rejection |
| `Security.RateLimiter.constructor` | lib/security.ts:97 | The map starts empty |
| `Security.RateLimiter.CheckRateLimit` | lib/security.ts:99-110 | The new map is `RateStep` of the old one. A check fails, with `RATE_LIMIT_EXCEEDED`, exactly when the count has reached the limit, and then the map is unchanged; otherwise only that key is incremented |
| `TierGatekeeper.ParseTier` | engines/tierGatekeeper.ts:153-157 | Succeeds exactly for the seven tier labels, giving that tier |
| `TierGatekeeper.TierMatrix` | engines/tierGatekeeper.ts:41-136 | The permission record of each tier; its entries are stated by `TokPisinByTier`, `NoTranslationsForFreeOrGovernment`, `FeatureQueryAgreesWithCheck` and `GenerateRoute.StubTierAccess` |
| `TierGatekeeper.AssertTierAccess` | engines/tierGatekeeper.ts:143-193 | An unknown tier fails with `UnknownTier`, and only then. The check passes exactly when the tier is known and none of the five checks denies. A reported language or translation is the one requested |
| `TierGatekeeper.FirstDenialReported` | engines/tierGatekeeper.ts:159-190 | When several checks would fire, the one earliest in source order is reported |
| `TierGatekeeper.UnknownTierRejectedFirst` | engines/tierGatekeeper.ts:153-157 | An unknown tier is rejected whatever is requested |
| `TierGatekeeper.LanguageRule` | engines/tierGatekeeper.ts:159-167 | A language fails exactly when it is non-empty, the tier's list is not "all", and the language is not in it |
| `TierGatekeeper.TokPisinByTier` | engines/tierGatekeeper.ts:41-58 | FREE is refused Tok Pisin; PRO is allowed it |
| `TierGatekeeper.NoTranslationsForFreeOrGovernment` | engines/tierGatekeeper.ts:169-178 | FREE and GOVERNMENT refuse every non-empty Bible translation |
| `TierGatekeeper.CanUseFeature` | engines/tierGatekeeper.ts:198-214 | The matching flag of the tier's record; false for an unknown tier or feature |
| `TierGatekeeper.FeatureQueryAgreesWithCheck` | engines/tierGatekeeper.ts:180-214 | For every tier and each of the three features, the query is true exactly when requesting that feature alone passes `assertTierAccess` |
| `CourseBuilder.CalculateModuleCount` | engines/courseBuilder.ts:81-103 | `max(floor, weeks)` for a listed type, `NaN` when the weeks are `NaN`, and a flat 6 for an unlisted type. A finite result is at least 2 |
| `CourseBuilder.GenerateLearningOutcomes` | engines/courseBuilder.ts:113-135 | The three baseline items, then the two ministry items when in ministry mode, then the two academic items at ACADEMIC depth |
| `CourseBuilder.GenerateLessons` | engines/courseBuilder.ts:153-169 | Four lessons |
| `CourseBuilder.GenerateActivities` | engines/courseBuilder.ts:171-183 | Three activities |
| `CourseBuilder.GenerateAssessments` | engines/courseBuilder.ts:185-195 | BASIC gets its pair; ADVANCED and ACADEMIC get the three-item list; any other depth, or none, gets the default pair |
| `CourseBuilder.GenerateModule` | engines/courseBuilder.ts:137-151 | The module has the given number and is titled by the mode prefix and that number. Its description contains the course title; it has four lessons and three activities |
| `CourseBuilder.GenerateOverview` | engines/courseBuilder.ts:105-111 | The overview sentence; what it names is stated by `OverviewNamesContext` |
| `CourseBuilder.Course` | engines/courseBuilder.ts:55-75 | The course as a function of the request; its modules and outcomes are stated by `BuildCourse`, `ModulesNumberedFromOne`, `ModulesAlike`, `CourseOutcomes` and `CertificateScenario` |
| `CourseBuilder.BuildCourse` | engines/courseBuilder.ts:55-75 | The loop produces `Course(input)`: exactly `Iterations(count)` modules, the i-th being module i+1 |
| `CourseBuilder.CourseOfModules` | engines/courseBuilder.ts:63-74 | Modules 1..n, assembled in order, are the course's modules |
| `CourseBuilder.ModulesNumberedFromOne` | engines/courseBuilder.ts:58-67 | As many modules as the count (none when it is `NaN`), numbered 1, 2, … without gaps, each titled accordingly |
| `CourseBuilder.ModuleCountByType` | engines/courseBuilder.ts:81-103 | With a finite duration: `max(floor, weeks)` modules, or 6 for an unlisted type; never fewer than two |
| `CourseBuilder.ModulesAlike` | engines/courseBuilder.ts:137-151 | Any two modules of a course share description, lessons, activities and assessments. The description names the course title |
| `CourseBuilder.SelectorsDependOnOneField` | engines/courseBuilder.ts:153-195 | Lessons and activities depend on ministry mode alone, and differ between the two modes; assessments depend on depth alone |
| `CourseBuilder.CourseOutcomes` | engines/courseBuilder.ts:113-135 | Ministry mode at ACADEMIC depth keeps both extensions: baseline, then ministry, then academic |
| `CourseBuilder.OverviewNamesContext` | engines/courseBuilder.ts:105-111 | The ministry overview names the Bible translation; the other names the audience and the country |
| `CourseBuilder.CertificateScenario` | engines/courseBuilder.ts:58-67 | A 3-week CERTIFICATE outside ministry mode has 8 modules, "Core Module 1" to "Core Module 8" |
| `MinistryEngine.FormatReference` | engines/ministryEngine.ts:107-113 | `Book chapter:verse` for one verse; `Book chapter:first–last` for more |
| `MinistryEngine.FormatUsesEndsOnly` | engines/ministryEngine.ts:108-111 | The middle verses of a range do not affect the formatted reference |
| `MinistryEngine.GetDefaultRefs` | engines/ministryEngine.ts:70-88 | Never empty; any topic outside the table gets Psalm 119:105 alone |
| `MinistryEngine.DefaultRefsIgnoreCase` | engines/ministryEngine.ts:85 | Topics equal up to ASCII case get the same references |
| `MinistryEngine.FetchScriptureText` | engines/ministryEngine.ts:97-102 | The placeholder contains the translation and the formatted reference |
| `MinistryEngine.GenerateMinistryIntro` | engines/ministryEngine.ts:115-120 | The intro contains the topic and the translation |
| `MinistryEngine.GenerateReflectionPrompt` | engines/ministryEngine.ts:122-124 | The prompt contains the topic |
| `MinistryEngine.BuildMinistryContent` | engines/ministryEngine.ts:44-63 | One block per chosen reference, in order (the explicit list when given, else the topic's defaults), plus the intro and reflection built from the topic and translation |
| `MinistryEngine.BlockTexts` | engines/ministryEngine.ts:51-56 | Every block's text is `[translation] reference — Scripture text loaded from approved source.`, built around that block's own reference |
| `MinistryEngine.ExplicitRefsReplaceDefaults` | engines/ministryEngine.ts:51 | With explicit references, the topic does not affect the blocks |
| `MinistryEngine.LeadershipScriptures` | engines/ministryEngine.ts:72-75 | "leadership" in any case gives Proverbs 11:14, then 1 Timothy 3:1–2 |
| `MinistryEngine.LeadershipReferences` | engines/ministryEngine.ts:72-75 | The two leadership references format as `Proverbs 11:14` and `1 Timothy 3:1–2` |
| `MinistryEngine.FallbackReference` | engines/ministryEngine.ts:85-87 | The fallback reference formats as `Psalm 119:105` |
| `MinistryEngine.FallbackScripture` | engines/ministryEngine.ts:85-87 | An unknown topic gives one block, Psalm 119:105, whose text names the translation |
| `LanguageEngine.DictionaryValid` | engines/languageEngine.ts:67-81 | Every English word and every replacement is non-empty; replacements are lower case |
| `LanguageEngine.DictionaryWordKeys` | engines/languageEngine.ts:67-81 | Every English word consists of `\w` characters only |
| `LanguageEngine.Capitalize` | engines/languageEngine.ts:91-92 | Same length; the first character is the upper-case form of the input's first character (never a lower-case letter); the rest is copied |
| `LanguageEngine.EnglishToTokPisin` | engines/languageEngine.ts:66-95 | The loop over the dictionary computes exactly `TokPisin(text)` |
| `LanguageEngine.ReplaceWordFrom` | engines/languageEngine.ts:86-87 | The `/\bword\b/gi` replace of one dictionary entry; stated by `NoWordLeavesUnchanged`, `ReplaceKeepsLower`, `ReplaceSplit`, `WholeWord` and `CourseworkLeftAlone` |
| `LanguageEngine.NoWordLeavesUnchanged` | engines/languageEngine.ts:86-87 | A string in which the word never occurs whole is left alone |
| `LanguageEngine.ReplaceKeepsLower` | engines/languageEngine.ts:86-87 | A rewrite with a lower-case replacement introduces no upper-case letter |
| `LanguageEngine.ApplyUnchanged` | engines/languageEngine.ts:85-88 | A text in which no dictionary word occurs whole is left alone by all the rewrites |
| `LanguageEngine.TokPisinCase` | engines/languageEngine.ts:83-94 | In the output, only the first character can be upper case, and it is never a lower-case letter |
| `LanguageEngine.TokPisinEmpty` | engines/languageEngine.ts:66-95 | The output is empty exactly when the input is |
| `LanguageEngine.TokPisinIgnoresCase` | engines/languageEngine.ts:83 | Inputs equal up to ASCII case translate alike |
| `LanguageEngine.ApplySplit` | engines/languageEngine.ts:85-88 | Around a non-word character, rewriting the whole is rewriting each side |
| `LanguageEngine.TokPisinSplit` | engines/languageEngine.ts:83-94 | Around a non-word character, the output is the first part's translation, the lower-cased separator, and the rest's rewrite |
| `LanguageEngine.RewriteJoin` | engines/languageEngine.ts:85-88 | Rewriting space-separated words rewrites each word |
| `LanguageEngine.WholeWord` | engines/languageEngine.ts:86-87 | A word on its own becomes its replacement |
| `LanguageEngine.EntryWord` | engines/languageEngine.ts:85-88 | A dictionary word becomes its replacement, when no earlier entry occurs in the word and no later one in the replacement |
| `LanguageEngine.CourseworkLeftAlone` | engines/languageEngine.ts:86 | `coursework` becomes `Coursework`: `course` inside a longer word is not replaced |
| `LanguageEngine.SentenceExample` | engines/languageEngine.ts:66-95 | "This training course helps the student" becomes "This tren kos helps the sumatin" |
| `LanguageEngine.TranslateText` | engines/languageEngine.ts:36-58 | Succeeds exactly for equal codes (text kept) and for en to tok-pisin (text translated). A success keeps the original and names the target; the error text names both codes |
| `LanguageEngine.TranslateIgnoresCountry` | engines/languageEngine.ts:36-58 | The country field does not affect the result |
| `LanguageEngine.NoPathBack` | engines/languageEngine.ts:55-57 | tok-pisin to en is an unsupported path |
| `LanguageEngine.TranslatedEmpty` | engines/languageEngine.ts:47-53 | en to tok-pisin always succeeds, and the translation is empty exactly when the text is |
| `LanguageEngine.TranslateCourse` | engines/languageEngine.ts:102-117 | `en` returns the course itself; any other code rewrites every string |
| `LanguageEngine.TranslateTree` | engines/languageEngine.ts:109-116 | The stringify-with-replacer walk; stated by `TranslateTreeShape` and `TranslateKeepsSkeleton` |
| `LanguageEngine.TranslateTreeShape` | engines/languageEngine.ts:109-116 | Strings (the root included) are translated; arrays keep their length and objects their keys, in order; every other value is copied |
| `LanguageEngine.MapKeepsSkeleton` | engines/languageEngine.ts:109-116 | Rewriting the strings of a value, by any rewrite, keeps its shape, keys and non-string leaves |
| `LanguageEngine.TranslateKeepsSkeleton` | engines/languageEngine.ts:109-116 | The translation changes strings only |
| `LanguageEngine.TranslateCourseKeepsSkeleton` | engines/languageEngine.ts:102-117 | Whatever code is asked for, only the course's strings can change |
| `GenerateRoute.Display` | app/api/generate/route.ts:73-83 | `String(v)` of a request value, as the templates print it; stated through `OptionalText`, `CourseInputOf` and `NaNDurations`; integers are exact, so the exponent form and double rounding beyond 2^53 are not modelled (see "## Left out") |
| `GenerateRoute.ToNumber` | engines/courseBuilder.ts:87 | `Math.max`'s `ToNumber` of the raw `durationWeeks`; stated by `NumberOfDecimal`, `BlankIsZero`, `ZeroDurations` and `NaNDurations`; integers are exact, so the exponent form and double rounding beyond 2^53 are not modelled (see "## Left out") |
| `GenerateRoute.NumberOfDecimal` | engines/courseBuilder.ts:87 | A `durationWeeks` that is a decimal string counts as that number |
| `GenerateRoute.BlankIsZero` | engines/courseBuilder.ts:87 | A blank string counts as 0 weeks |
| `GenerateRoute.ZeroDurations` | engines/courseBuilder.ts:87 | `null`, `false` and `[]` count as 0 weeks |
| `GenerateRoute.NaNDurations` | engines/courseBuilder.ts:87 | A missing value or an object counts as `NaN` |
| `GenerateRoute.Destructure` | app/api/generate/route.ts:47-57 | Fails, with a `TypeError`, exactly for a null or undefined body; a body that is not an object reads `title` and `language` as `undefined` |
| `GenerateRoute.SanitizedGet` | app/api/generate/route.ts:36-57 | Reading a field of the sanitised body is sanitising the field that was sent |
| `GenerateRoute.Validate` | app/api/generate/route.ts:59-63 | Passes exactly when title, course type, language and country are all truthy; a failure carries a message |
| `GenerateRoute.ValidationOrder` | app/api/generate/route.ts:60-63 | The first falsy field, in the order title, type, language, country, names the failure |
| `GenerateRoute.RouteAccess` | app/api/generate/route.ts:66-70 | For string or falsy values, it is `assertTierAccess` on the request's language, translation and ministry mode. A rejected language or translation was truthy |
| `GenerateRoute.StubTierAccess` | app/api/generate/route.ts:40-70 | Under the stub PRO user, access passes exactly when the language is falsy, `en` or `tok-pisin`, and the translation is falsy, `NKJV` or `KJV` |
| `GenerateRoute.OptionalText` | app/api/generate/route.ts:73-83 | An optional field prints as the template literal prints the raw value |
| `GenerateRoute.CourseInputOf` | app/api/generate/route.ts:73-83 | Succeeds exactly for a string course type, carrying every field across: title, language and country as `String(v)` prints them, audience and translation as optional text, the weeks through `ToNumber`, ministry mode as its truthiness; otherwise a `TypeError` |
| `GenerateRoute.WithMinistry` | app/api/generate/route.ts:86-93 | Without ministry mode and a translation, the course is unchanged. Otherwise it fails, with a `TypeError`, exactly when the title is not a string or no module exists |
| `GenerateRoute.MinistryIntroOfBlock` | app/api/generate/route.ts:87-92 | The inserted text is the intro of `buildMinistryContent` for the title and translation |
| `GenerateRoute.IntroInFirstModuleOnly` | app/api/generate/route.ts:92 | The intro goes first in module 1's lessons and contains the title and the translation; every other module and field is unchanged |
| `GenerateRoute.Strings` | engines/courseBuilder.ts:40-42 | A list of strings as a JSON array of the same strings |
| `GenerateRoute.CourseJson` | engines/courseBuilder.ts:69-74 | The course document has the keys title, overview, learningOutcomes and modules, in that order. Its title is the request's raw title |
| `GenerateRoute.Admit` | app/api/generate/route.ts:47-83 | A failure carries a message; a success is the destructured request and its course input |
| `GenerateRoute.Finish` | app/api/generate/route.ts:73-110 | A failure carries a message |
| `GenerateRoute.Handle` | app/api/generate/route.ts:47-121 | A failure carries a message |
| `GenerateRoute.HandleStages` | app/api/generate/route.ts:47-98 | The first stage that throws decides the result: a destructuring error, then the validation error, then the tier denial, then the course-type `TypeError`; only a request that passes all four reaches `Finish` |
| `GenerateRoute.Localise` | app/api/generate/route.ts:95-98 | A string language gives `translateCourse` with that code, so `en` returns the document unchanged |
| `GenerateRoute.Respond` | app/api/generate/route.ts:107-121 | A success answers 200 with `success: true` and the course; a failure answers 400 with `success: false`, the error's message and no `course` field |
| `GenerateRoute.Post` | app/api/generate/route.ts:34-123 | The handler on a table of counts; its behaviour is stated by `Generate`, `RateLimitComesFirst` and `EveryAdmittedRequestCounts` |
| `GenerateRoute.Generate` | app/api/generate/route.ts:34-123 | The method's response and the limiter's new map are those of `Post` applied to the old map and the raw body |
| `GenerateRoute.HandleBody` | app/api/generate/route.ts:47-110 | The step-by-step method computes exactly `Handle` |
| `GenerateRoute.RateLimitComesFirst` | app/api/generate/route.ts:45 | Over the limit, the answer is 400 `RATE_LIMIT_EXCEEDED` and the counts are unchanged, whatever the body |
| `GenerateRoute.EveryAdmittedRequestCounts` | app/api/generate/route.ts:36-45 | Below the limit, every request, even an invalid one, counts, and the answer is that of the sanitised body |
| `GenerateRoute.NonObjectBody` | app/api/generate/route.ts:47-60 | A body that is a string, number, boolean or array fails with "Missing course title" |
| `GenerateRoute.FailuresHaveMessages` | app/api/generate/route.ts:112-121 | No failure falls back to "Unknown error": every one has a message |
| `GenerateRoute.AdmittedRequests` | app/api/generate/route.ts:59-83 | An admitted request has a string course type, language `en` or `tok-pisin`, and a translation that is falsy, `NKJV` or `KJV` |
| `GenerateRoute.FinishCarriesCourse` | app/api/generate/route.ts:95-110 | The answer is the course document as built, or its Tok Pisin rewrite; either way only its strings differ |
| `GenerateRoute.MissingWeeksNoModules` | app/api/generate/route.ts:86-93 | A request with a listed course type and no `durationWeeks` gets no modules (`Math.max(floor, undefined)` is `NaN`); with ministry mode and a translation, the course step then fails with a `TypeError`, which `HandleStages` makes the answer |

## Left out

- The audit log and `console.error` are output only. No decision depends on them.
- The async parts and `req.json()` are out of scope. The model starts from the parsed
  body, so a body that is not JSON is not modelled.
- `Request` and any real authentication are out of scope: the route's stub user
  (`temp-user`, PRO) is a constant, as in the source.
- Numbers are integers. Decimal fractions, negative zero, infinities and `NaN` as a JSON
  input are not modelled.
- JSON numbers are taken to be safe integers (at most 2^53 in magnitude). Beyond that
  range the model keeps every digit, where JavaScript rounds to the nearest double or
  prints in exponent form. The two lines below name the members this affects.
- Display (`GenerateRoute.Display`): prints every digit of an integer. `String(v)` prints
  integers of 10^21 or more in exponent form, for example `1e+21`, so a title that large
  reads differently in the module descriptions. Exponent form depends on the
  shortest-round-trip printing of doubles, which the model does not have.
- ToNumber (`GenerateRoute.ToNumber`): reads a digit string of any length as its exact
  value. `Number(s)` and `JSON.parse` round integers above 2^53 to the nearest double, so
  `"9007199254740993"` reads as 9007199254740992 there.
- Running out of memory or time is not modelled. `durationWeeks` has no upper bound, so a
  huge value makes the `buildCourse` loop effectively endless in the source, while
  `CourseBuilder.BuildCourse` returns a course with that many modules.
- `Number(string)` accepts only an optional blank and a run of decimal digits. Signs,
  decimal points, exponents and hexadecimal forms read as `NaN` here.
- Strings are sequences of Unicode scalar values, not UTF-16 code units. Case mapping
  and `\w` are ASCII only, which matches `\w` but not the non-ASCII letters that
  `toLowerCase` handles.
- Prototype properties are not modelled. Keys such as `constructor` or `__proto__` are
  read as ordinary keys in the request, the tier matrix and the topic table.
- Property order is not modelled. `Object.entries` lists integer-like keys first, in
  ascending order, but `Security.SanitizeEntries` keeps the fields in text order. No
  decision depends on it; only the key order inside an object-valued field of the
  response can differ.
- A JSON text with repeated keys is not modelled. `JSON.parse` keeps the last value, while
  a `Json` object here keeps every field and `Get` reads the first.
- `JSON.stringify` drops `undefined` values and turns non-finite numbers into `null`. The
  course document holds neither, so `translateCourse` maps the tree directly.
- The texts of Node.js runtime `TypeError`s are written out as fixed messages. Only their
  presence matters to the route.
- The Scripture blocks and reflection prompt that `buildMinistryContent` computes are
  discarded in the route. They are modelled in `MinistryEngine`; the route uses only the
  intro.
- The `canUseFeature` result and `maxCoursesPerMonth` are modelled as data. No code in the
  core enforces the monthly limit.
- In these places the code behaves in ways a reader may not expect, and the model follows
  the code:
  - learning outcomes keep the ministry items at ACADEMIC depth;
  - sanitising is not idempotent;
  - sanitised text may exceed 5000 characters;
  - an unlisted course type gives a flat 6 modules, not `max(6, weeks)`.
  - a request without `durationWeeks` gets `Math.max(floor, undefined)`, which is `NaN`,
    so a listed course type builds no modules; in ministry mode with a translation the
    request then fails with a `TypeError` (`GenerateRoute.MissingWeeksNoModules`).
- `GenerateRoute.Handle`, `GenerateRoute.Admit` and `GenerateRoute.Finish`: their own
  ensures state only that a failure carries a message. Which stage a failure comes from
  is stated by `GenerateRoute.HandleStages`. What an admitted request and a finished
  course look like is stated by `GenerateRoute.AdmittedRequests` and
  `GenerateRoute.FinishCarriesCourse`. `Finish`'s own failures, a `TypeError` from the
  ministry step, are stated by `GenerateRoute.WithMinistry`.
- Two in-place updates are modelled as values, so mutation itself is not captured:
  - `course.modules[0].lessons.unshift(...)`, the route's ministry intro, is
    `GenerateRoute.WithMinistry`, which returns the changed copy;
  - `baseOutcomes.push(...)`, the learning outcomes, is
    `CourseBuilder.GenerateLearningOutcomes`, which returns the list.

  Both arrays are freshly built for the request: each module gets its own lessons array
  from `generateLessons`, and nothing else holds a reference to them. So there is no
  aliasing for the value model to miss.

/**
 * The course generation endpoint, `POST /api/generate`: sanitise the parsed
 * body, charge the rate limit, destructure and validate the request, enforce
 * the tier, build the course, inject the ministry introduction, translate,
 * and answer with a success or a 400 error document. The request travels as
 * raw JSON values, so the JavaScript coercions the handler relies on (`${v}`,
 * `Number(v)`, truthiness) are stated here on those values.
 */
module GenerateRoute {
  import opened Wrappers
  import opened JsString
  import opened Json
  import opened Security
  import opened TierGatekeeper
  import opened CourseBuilder
  import opened MinistryEngine
  import opened LanguageEngine

  /** The authentication stub: every request comes from one PRO user. */
  const StubUserId := "temp-user"
  const StubTier := "PRO"

  // JavaScript coercions of parsed JSON values.

  const ObjectText := "[object Object]"

  /** `String(v)`, which is also what a template literal prints. */
  function Display(j: Json): string
    decreases j
  {
    match j
    case JNull => "null"
    case JUndefined => "undefined"
    case JNum(n) => IntToString(n)
    case JBool(b) => if b then "true" else "false"
    case JStr(s) => s
    case JArr(_) => DisplayItems(j, 0)
    case JObj(_) => ObjectText
  }

  /** `items.join(",")` from index `i` on: `null` and `undefined` elements print as nothing. */
  function DisplayItems(parent: Json, i: nat): string
    requires parent.JArr? && i <= |parent.items|
    decreases parent, |parent.items| - i
  {
    if i == |parent.items| then ""
    else
      var x := parent.items[i];
      var text := if x.JNull? || x.JUndefined? then "" else Display(x);
      (if i == 0 then "" else ",") + text + DisplayItems(parent, i + 1)
  }

  predicate IsDigit(c: char) { '0' <= c <= '9' }

  predicate AllDigits(t: string) {
    forall i :: 0 <= i < |t| ==> IsDigit(t[i])
  }

  /** The value of a run of decimal digits. */
  function DigitsValue(t: string): nat
    requires AllDigits(t)
    decreases |t|
  {
    if t == [] then 0 else DigitsValue(t[..|t| - 1]) * 10 + (t[|t| - 1] as int - '0' as int)
  }

  /** `Number(s)`: surrounding whitespace is ignored, nothing left is 0, a run of decimal
      digits is its value, and anything else is `NaN`. */
  function StringToNumber(s: string): Number {
    var t := Trim(s);
    if t == [] then Finite(0)
    else if AllDigits(t) then Finite(DigitsValue(t))
    else NaN
  }

  /** The `ToNumber` coercion `Math.max` applies to `durationWeeks`: `null` and `false` are 0,
      `true` is 1, `undefined` is `NaN`, and an array or object is converted through its
      string form. */
  function ToNumber(j: Json): Number {
    match j
    case JNum(n) => Finite(n)
    case JNull => Finite(0)
    case JUndefined => NaN
    case JBool(b) => Finite(if b then 1 else 0)
    case JStr(s) => StringToNumber(s)
    case _ => StringToNumber(Display(j))
  }

  lemma DigitCharValue(d: nat)
    requires d < 10
    ensures IsDigit(DigitChar(d)) && DigitChar(d) as int - '0' as int == d
  {
    if d == 0 {} else if d == 1 {} else if d == 2 {} else if d == 3 {} else if d == 4 {}
    else if d == 5 {} else if d == 6 {} else if d == 7 {} else if d == 8 {} else {}
  }

  lemma {:induction false} DigitsOfDecimal(n: nat)
    ensures AllDigits(NatToString(n)) && DigitsValue(NatToString(n)) == n
    decreases n
  {
    var t := NatToString(n);
    if n < 10 {
      DigitCharValue(n);
      assert t[..0] == [];
    } else {
      DigitCharValue(n % 10);
      DigitsOfDecimal(n / 10);
      assert t[..|t| - 1] == NatToString(n / 10);
    }
  }

  lemma DigitsRead(t: string)
    requires t != [] && AllDigits(t)
    ensures StringToNumber(t) == Finite(DigitsValue(t))
  {
    assert IsDigit(t[0]) && IsDigit(t[|t| - 1]);
    TrimFixesTrimmed(t);
  }

  /** A string holding the decimal form of a count is read back as that count. */
  lemma NumberOfDecimal(n: nat)
    ensures ToNumber(JStr(NatToString(n))) == Finite(n)
  {
    DigitsOfDecimal(n);
    DigitsRead(NatToString(n));
  }

  /** An empty or blank string counts as zero weeks. */
  lemma BlankIsZero(blank: string)
    requires forall i :: 0 <= i < |blank| ==> IsWhitespace(blank[i])
    ensures ToNumber(JStr(blank)) == Finite(0)
  {
  }

  /** `null`, `false` and the empty array count as zero weeks. */
  lemma ZeroDurations()
    ensures ToNumber(JNull) == Finite(0) && ToNumber(JBool(false)) == Finite(0)
    ensures ToNumber(JArr([])) == Finite(0)
  {
    assert Display(JArr([])) == "";
  }

  lemma ObjectTextTrimmed()
    ensures Trim(ObjectText) == ObjectText
  {
    var t := ObjectText;
    assert !IsWhitespace(t[0]) && !IsWhitespace(t[|t| - 1]);
    TrimFixesTrimmed(t);
  }

  lemma ObjectTextIsNaN()
    ensures StringToNumber(ObjectText) == NaN
  {
    ObjectTextTrimmed();
    assert !IsDigit(ObjectText[0]);
  }

  /** `undefined` and an object are `NaN`. */
  lemma NaNDurations(fs: seq<Field>)
    ensures ToNumber(JUndefined) == NaN && ToNumber(JObj(fs)) == NaN
  {
    ObjectTextIsNaN();
    assert Display(JObj(fs)) == ObjectText;
  }

  // The request.

  /** The nine properties the handler destructures from the body. */
  datatype Request = Request(
    title: Json,
    courseType: Json,
    audience: Json,
    durationWeeks: Json,
    depth: Json,
    language: Json,
    country: Json,
    ministryMode: Json,
    bibleTranslation: Json)

  /** Why a request fails: each becomes an `Error` whose message the response carries. */
  datatype RouteError =
    | RateLimited
    | Invalid(message: string)
    | Denied(reason: AccessError)
    | TypeError(message: string)

  /** `const { title, ... } = body`: destructuring `null` or `undefined` throws; any other
      value reads each property, missing ones as `undefined`. */
  function Destructure(body: Json): (r: Result<Request, RouteError>)
    ensures r.Failure? <==> body.JNull? || body.JUndefined?
    ensures r.Success? && !body.JObj? ==> r.value.title == JUndefined && r.value.language == JUndefined
    ensures r.Failure? ==> r.error.TypeError? && r.error.message != ""
  {
    if body.JNull? || body.JUndefined? then
      Failure(TypeError("Cannot destructure the request body: it is " + Display(body)))
    else
      Success(Request(
        Get(body, "title"), Get(body, "courseType"), Get(body, "audience"),
        Get(body, "durationWeeks"), Get(body, "depth"), Get(body, "language"),
        Get(body, "country"), Get(body, "ministryMode"), Get(body, "bibleTranslation")))
  }

  lemma {:induction false} LookupSanitized(fs: seq<Field>, gs: seq<Field>, key: string)
    requires |gs| == |fs|
    requires forall i :: 0 <= i < |fs| ==> gs[i] == Field(fs[i].key, SanitizeTree(fs[i].value))
    ensures Lookup(gs, key) == SanitizeTree(Lookup(fs, key))
    decreases |fs|
  {
    if fs != [] && fs[0].key != key {
      LookupSanitized(fs[1..], gs[1..], key);
    }
  }

  /** Reading a property of the sanitised body gives the sanitised property: the handler
      sees every request field after `sanitizeObject`, and a missing one stays `undefined`. */
  lemma SanitizedGet(raw: Json, key: string)
    ensures Get(SanitizeTree(raw), key) == SanitizeTree(Get(raw, key))
  {
    if raw.JObj? {
      var r := SanitizeTree(raw);
      forall i | 0 <= i < |raw.fields| ensures r.fields[i] == Field(raw.fields[i].key, SanitizeTree(raw.fields[i].value)) {
        assert r.fields[i] == SanitizeField(raw, raw.fields[i]);
      }
      LookupSanitized(raw.fields, r.fields, key);
    }
  }

  const MissingTitle := "Missing course title"
  const MissingType := "Missing course type"
  const MissingLanguage := "Missing language"
  const MissingCountry := "Missing country"

  /** The four `assertValidInput` calls, in order; the first falsy value is reported. */
  function Validate(q: Request): (r: Outcome<RouteError>)
    ensures r.Pass? <==> Truthy(q.title) && Truthy(q.courseType) && Truthy(q.language) && Truthy(q.country)
    ensures r.Fail? ==> r.error.Invalid? && r.error.message != ""
  {
    var t := AssertValidInput(q.title, MissingTitle);
    if t.Fail? then Fail(Invalid(t.error)) else
    var c := AssertValidInput(q.courseType, MissingType);
    if c.Fail? then Fail(Invalid(c.error)) else
    var l := AssertValidInput(q.language, MissingLanguage);
    if l.Fail? then Fail(Invalid(l.error)) else
    var n := AssertValidInput(q.country, MissingCountry);
    if n.Fail? then Fail(Invalid(n.error)) else Pass
  }

  /** The message `assertValidInput` throws for `message`. */
  function ValidationMessage(message: string): string {
    "SECURITY_VALIDATION_FAILED: " + message
  }

  /** The checks run in source order: title, course type, language, country. */
  lemma ValidationOrder(q: Request)
    ensures !Truthy(q.title) ==> Validate(q) == Fail(Invalid(ValidationMessage(MissingTitle)))
    ensures Truthy(q.title) && !Truthy(q.courseType) ==> Validate(q) == Fail(Invalid(ValidationMessage(MissingType)))
    ensures Truthy(q.title) && Truthy(q.courseType) && !Truthy(q.language)
      ==> Validate(q) == Fail(Invalid(ValidationMessage(MissingLanguage)))
    ensures Truthy(q.title) && Truthy(q.courseType) && Truthy(q.language) && !Truthy(q.country)
      ==> Validate(q) == Fail(Invalid(ValidationMessage(MissingCountry)))
  {
  }

  /** `assertTierAccess(tier, {requestedLanguage: language, requestedBibleTranslation,
      ministryMode})` on the raw values. A truthy value that is not a string is never in an
      allowed list, and the message prints it with `String(v)`. */
  function RouteAccess(tier: string, q: Request): (r: Outcome<AccessError>)
    ensures (q.language.JStr? || !Truthy(q.language)) && (q.bibleTranslation.JStr? || !Truthy(q.bibleTranslation))
      ==> r == AssertTierAccess(tier, AccessRequest(TextOf(q.language), TextOf(q.bibleTranslation), Truthy(q.ministryMode), false, false))
    ensures r.Fail? && r.error.LanguageNotAllowed? ==> Truthy(q.language)
    ensures r.Fail? && r.error.TranslationNotAllowed? ==> Truthy(q.bibleTranslation)
  {
    var typed := AssertTierAccess(tier, AccessRequest(TextOf(q.language), TextOf(q.bibleTranslation), Truthy(q.ministryMode), false, false));
    match ParseTier(tier)
    case None => typed
    case Some(t) =>
      var p := TierMatrix(t);
      if Truthy(q.language) && !q.language.JStr? && p.allowedLanguages.Only? then
        Fail(LanguageNotAllowed(tier, Display(q.language)))
      else if typed.Fail? && typed.error.LanguageNotAllowed? then typed
      else if Truthy(q.bibleTranslation) && !q.bibleTranslation.JStr? then
        Fail(TranslationNotAllowed(tier, Display(q.bibleTranslation)))
      else typed
  }

  /** For the PRO stub user the check passes exactly when the language, if given, is English
      or Tok Pisin and the translation, if given, is NKJV or KJV; ministry mode is allowed. */
  lemma StubTierAccess(q: Request)
    ensures RouteAccess(StubTier, q).Pass? <==>
      && (!Truthy(q.language) || q.language == JStr("en") || q.language == JStr("tok-pisin"))
      && (!Truthy(q.bibleTranslation) || q.bibleTranslation == JStr("NKJV") || q.bibleTranslation == JStr("KJV"))
  {
    assert ParseTier(StubTier) == Some(Pro);
  }

  /** `undefined` stays absent; any other value is used through its string form. */
  function OptionalText(j: Json): (r: Option<string>)
    ensures OrUndefined(r) == Display(j)
  {
    if j.JUndefined? then None else Some(Display(j))
  }

  /** The object handed to `buildCourse`. `courseType.toLowerCase()` in the overview throws
      unless the course type is a string; every other field is only compared with strings,
      checked for truthiness, printed, or coerced to a number. */
  function CourseInputOf(q: Request): (r: Result<CourseInput, RouteError>)
    ensures r.Success? <==> q.courseType.JStr?
    ensures r.Failure? ==> r.error.TypeError? && r.error.message != ""
    ensures r.Success? ==>
      && r.value.courseType == q.courseType.s && r.value.ministryMode == Truthy(q.ministryMode)
      && r.value.durationWeeks == ToNumber(q.durationWeeks) && r.value.depth == TextOf(q.depth)
    ensures r.Success? ==>
      && r.value.title == Display(q.title) && r.value.audience == OptionalText(q.audience)
      && r.value.language == Display(q.language) && r.value.country == Display(q.country)
      && r.value.bibleTranslation == OptionalText(q.bibleTranslation)
  {
    if !q.courseType.JStr? then
      Failure(TypeError("input.courseType.toLowerCase is not a function"))
    else
      Success(CourseInput(
        Display(q.title), q.courseType.s, OptionalText(q.audience), ToNumber(q.durationWeeks),
        TextOf(q.depth), Display(q.language), Display(q.country), Truthy(q.ministryMode),
        OptionalText(q.bibleTranslation)))
  }

  /** The ministry step: when ministry mode and a translation are both truthy, the intro of
      `buildMinistryContent({translation, topic: title})` is put in front of the first
      module's lessons. The default references lower-case the topic, so a title that is not
      a string throws, and so does a course without modules. */
  function WithMinistry(c: GeneratedCourse, q: Request): (r: Result<GeneratedCourse, RouteError>)
    ensures !(Truthy(q.ministryMode) && Truthy(q.bibleTranslation)) ==> r == Success(c)
    ensures r.Failure? <==> Truthy(q.ministryMode) && Truthy(q.bibleTranslation) && (!q.title.JStr? || c.modules == [])
    ensures r.Failure? ==> r.error.TypeError? && r.error.message != ""
  {
    if !(Truthy(q.ministryMode) && Truthy(q.bibleTranslation)) then Success(c)
    else if !q.title.JStr? then Failure(TypeError("topic.toLowerCase is not a function"))
    else if c.modules == [] then Failure(TypeError("Cannot read properties of undefined (reading 'lessons')"))
    else
      var first := c.modules[0];
      Success(c.(modules := [first.(lessons := [MinistryIntro(q)] + first.lessons)] + c.modules[1..]))
  }

  /** The only part of the ministry block the handler keeps. */
  function MinistryIntro(q: Request): string
    requires q.title.JStr?
  {
    GenerateMinistryIntro(q.title.s, Display(q.bibleTranslation))
  }

  /** It is the intro `buildMinistryContent` returns for the title and the translation. */
  lemma MinistryIntroOfBlock(q: Request)
    requires q.title.JStr?
    ensures MinistryIntro(q) == BuildMinistryContent(MinistryInput(Display(q.bibleTranslation), q.title.s, None)).intro
  {
  }

  /** The intro lands in module 1 only, ahead of its lessons; every other part of the course
      is untouched, and the intro names the title and the translation. */
  lemma IntroInFirstModuleOnly(c: GeneratedCourse, q: Request)
    requires Truthy(q.ministryMode) && Truthy(q.bibleTranslation)
    requires WithMinistry(c, q).Success?
    ensures var d := WithMinistry(c, q).value;
      && q.title.JStr? && |d.modules| == |c.modules| > 0
      && d.title == c.title && d.overview == c.overview && d.learningOutcomes == c.learningOutcomes
      && d.modules[0] == c.modules[0].(lessons := [GenerateMinistryIntro(q.title.s, Display(q.bibleTranslation))] + c.modules[0].lessons)
      && (forall i :: 1 <= i < |d.modules| ==> d.modules[i] == c.modules[i])
      && Contains(d.modules[0].lessons[0], q.title.s)
      && Contains(d.modules[0].lessons[0], Display(q.bibleTranslation))
  {
    var d := WithMinistry(c, q).value;
    forall i | 1 <= i < |d.modules| ensures d.modules[i] == c.modules[i] {
      assert d.modules[i] == c.modules[1..][i - 1];
    }
  }

  // The course document.

  function Strings(xs: seq<string>): (r: Json)
    ensures r.JArr? && |r.items| == |xs| && forall i :: 0 <= i < |xs| ==> r.items[i] == JStr(xs[i])
  {
    JArr(seq(|xs|, i requires 0 <= i < |xs| => JStr(xs[i])))
  }

  /** A module as a JSON object, with the properties in the order `generateModule` writes them. */
  function ModuleJson(m: CourseModule): Json {
    JObj([
      Field("moduleNumber", JNum(m.moduleNumber)),
      Field("title", JStr(m.title)),
      Field("description", JStr(m.description)),
      Field("lessons", Strings(m.lessons)),
      Field("activities", Strings(m.activities)),
      Field("assessments", Strings(m.assessments))])
  }

  /** The course as a JSON object. Its `title` is the request's own value: `buildCourse`
      copies `input.title` whatever it is, while the templates print it. */
  function CourseJson(c: GeneratedCourse, title: Json): (r: Json)
    ensures r.JObj? && Keys(r.fields) == ["title", "overview", "learningOutcomes", "modules"]
    ensures Get(r, "title") == title
  {
    var r := JObj([
      Field("title", title),
      Field("overview", JStr(c.overview)),
      Field("learningOutcomes", Strings(c.learningOutcomes)),
      Field("modules", JArr(seq(|c.modules|, i requires 0 <= i < |c.modules| => ModuleJson(c.modules[i]))))]);
    assert Keys(r.fields) == ["title", "overview", "learningOutcomes", "modules"];
    r
  }

  // The handler.

  function ErrorMessage(e: RouteError): string {
    match e
    case RateLimited => RateLimitMessage
    case Invalid(m) => m
    case Denied(a) => AccessMessage(a)
    case TypeError(m) => m
  }

  lemma AccessMessageNonEmpty(a: AccessError)
    ensures AccessMessage(a) != ""
  {
  }

  /** An error that has something to say: every error but a tier denial carries its own
      text, and a denial speaks through `AccessMessage`. */
  predicate Explained(e: RouteError) {
    (e.Invalid? || e.TypeError?) ==> e.message != ""
  }

  lemma ExplainedHasMessage(e: RouteError)
    requires Explained(e)
    ensures ErrorMessage(e) != ""
  {
    if e.Denied? {
      AccessMessageNonEmpty(e.reason);
    }
  }

  /** The steps before any course is built: destructuring, validation, the tier, and the
      course type that the overview lower-cases. */
  function Admit(body: Json): (r: Result<(Request, CourseInput), RouteError>)
    ensures r.Failure? ==> Explained(r.error)
    ensures r.Success? ==> Destructure(body) == Success(r.value.0) && CourseInputOf(r.value.0) == Success(r.value.1)
  {
    match Destructure(body)
    case Failure(e) => Failure(e)
    case Success(q) =>
      match Validate(q)
      case Fail(e) => Failure(e)
      case Pass =>
        match RouteAccess(StubTier, q)
        case Fail(e) => Failure(Denied(e))
        case Pass =>
          match CourseInputOf(q)
          case Failure(e) => Failure(e)
          case Success(input) => Success((q, input))
  }

  /** The steps after: build the course, inject the ministry intro, translate. */
  function Finish(q: Request, input: CourseInput): (r: Result<Json, RouteError>)
    ensures r.Failure? ==> Explained(r.error)
  {
    match WithMinistry(Course(input), q)
    case Failure(e) => Failure(e)
    case Success(c) => Success(Localise(CourseJson(c, q.title), q.language))
  }

  /** Everything after the rate limit, on the sanitised body: the course document or the
      first error thrown. */
  function Handle(body: Json): (r: Result<Json, RouteError>)
    ensures r.Failure? ==> Explained(r.error)
  {
    match Admit(body)
    case Failure(e) => Failure(e)
    case Success((q, input)) => Finish(q, input)
  }

  /** The first stage that throws decides the answer: destructuring, then validation
      (whose first missing field aborts), then the tier check, then the course type; only a
      request that passes all of them reaches the course builder. */
  lemma HandleStages(body: Json)
    ensures Destructure(body).Failure? ==> Handle(body) == Failure(Destructure(body).error)
    ensures Destructure(body).Success? ==> var q := Destructure(body).value;
      && (Validate(q).Fail? ==> Handle(body) == Failure(Validate(q).error))
      && (Validate(q).Pass? && RouteAccess(StubTier, q).Fail?
          ==> Handle(body) == Failure(Denied(RouteAccess(StubTier, q).error)))
      && (Validate(q).Pass? && RouteAccess(StubTier, q).Pass? && CourseInputOf(q).Failure?
          ==> Handle(body) == Failure(CourseInputOf(q).error))
      && (Validate(q).Pass? && RouteAccess(StubTier, q).Pass? && CourseInputOf(q).Success?
          ==> Handle(body) == Finish(q, CourseInputOf(q).value))
  {
  }

  /** `if (language !== "en") course = translateCourse(course, language)`. */
  function Localise(doc: Json, language: Json): (r: Json)
    ensures language.JStr? ==> r == TranslateCourse(doc, language.s)
    ensures language == JStr("en") ==> r == doc
  {
    if language != JStr("en") then TranslateTree(doc) else doc
  }

  datatype Response = Response(status: nat, body: Json)

  /** `NextResponse.json({success: true, course})`, or the 400 answer with
      `error.message || "Unknown error"`. */
  function Respond(r: Result<Json, RouteError>): (resp: Response)
    ensures r.Success? ==> resp.status == 200 && Get(resp.body, "success") == JBool(true) && Get(resp.body, "course") == r.value
    ensures r.Failure? ==> resp.status == 400 && Get(resp.body, "success") == JBool(false)
    ensures r.Failure? && ErrorMessage(r.error) != "" ==> Get(resp.body, "error") == JStr(ErrorMessage(r.error))
    ensures r.Failure? ==> Get(resp.body, "course") == JUndefined
  {
    match r
    case Success(course) =>
      var fs := [Field("success", JBool(true)), Field("course", course)];
      assert fs[1..] == [Field("course", course)] && "success" != "course";
      assert Lookup(fs[1..], "course") == course;
      Response(200, JObj(fs))
    case Failure(e) =>
      var m := ErrorMessage(e);
      var fs := [Field("success", JBool(false)), Field("error", JStr(if m == "" then "Unknown error" else m))];
      assert fs[1..] == [fs[1]] && "success" != "error";
      assert Lookup(fs[1..], "error") == fs[1].value;
      assert "success" != "course" && "error" != "course";
      Response(400, JObj(fs))
  }

  /** `POST` on the rate-limit table `counts`: the response and the table afterwards. */
  function Post(counts: map<string, nat>, raw: Json): (Response, map<string, nat>) {
    var body := SanitizeTree(raw);
    var (ok, next) := RateStep(counts, StubUserId, DefaultLimit);
    if !ok then (Respond(Failure(RateLimited)), next) else (Respond(Handle(body)), next)
  }

  /** The handler, step by step, on the limiter object that owns the request counts. */
  method Generate(limiter: RateLimiter, raw: Json) returns (response: Response)
    modifies limiter
    ensures (response, limiter.requestCounts) == Post(old(limiter.requestCounts), raw)
  {
    var body := SanitizeObject(raw);
    var result: Result<Json, RouteError>;
    var allowed := limiter.CheckRateLimit(StubUserId, DefaultLimit);
    if allowed.Fail? {
      result := Failure(RateLimited);
    } else {
      result := HandleBody(body);
    }
    response := Respond(result);
  }

  /** The steps after the rate limit, with the course built by its loop. */
  method HandleBody(body: Json) returns (result: Result<Json, RouteError>)
    ensures result == Handle(body)
  {
    var admitted := Admit(body);
    if admitted.Failure? {
      result := Failure(admitted.error);
    } else {
      var (q, input) := admitted.value;
      var course := BuildCourse(input);
      var withMinistry := WithMinistry(course, q);
      if withMinistry.Failure? {
        result := Failure(withMinistry.error);
      } else {
        result := Success(Localise(CourseJson(withMinistry.value, q.title), q.language));
      }
    }
  }

  // Properties of the whole handler.

  /** Once the stub user has made 25 counted requests, every request is refused with
      `RATE_LIMIT_EXCEEDED`, whatever its body, and the table stays as it is. */
  lemma RateLimitComesFirst(counts: map<string, nat>, raw: Json)
    requires CountOf(counts, StubUserId) >= DefaultLimit
    ensures Post(counts, raw).1 == counts
    ensures Post(counts, raw).0.status == 400
    ensures Get(Post(counts, raw).0.body, "error") == JStr("RATE_LIMIT_EXCEEDED")
  {
  }

  /** Below the limit every request is counted, including those that then fail
      validation or the tier check. */
  lemma EveryAdmittedRequestCounts(counts: map<string, nat>, raw: Json)
    requires CountOf(counts, StubUserId) < DefaultLimit
    ensures Post(counts, raw).1 == counts[StubUserId := CountOf(counts, StubUserId) + 1]
    ensures Post(counts, raw).0 == Respond(Handle(SanitizeTree(raw)))
  {
  }

  /** A body that is not an object has no properties, so it fails on the title. */
  lemma NonObjectBody(body: Json)
    requires !body.JObj? && !body.JNull? && !body.JUndefined?
    ensures Admit(body) == Failure(Invalid(ValidationMessage(MissingTitle)))
  {
  }

  /** Every failure carries a non-empty message, so "Unknown error" is never sent. */
  lemma FailuresHaveMessages(body: Json)
    requires Handle(body).Failure?
    ensures ErrorMessage(Handle(body).error) != ""
  {
    ExplainedHasMessage(Handle(body).error);
  }

  /** A course is built only for a string course type, English or Tok Pisin, and no
      Bible translation other than NKJV or KJV. */
  lemma AdmittedRequests(body: Json)
    requires Admit(body).Success?
    ensures var q := Admit(body).value.0;
      && q.courseType.JStr?
      && (q.language == JStr("en") || q.language == JStr("tok-pisin"))
      && (!Truthy(q.bibleTranslation) || q.bibleTranslation == JStr("NKJV") || q.bibleTranslation == JStr("KJV"))
  {
    StubTierAccess(Admit(body).value.0);
  }

  /** An English request gets the built course as it is; any other admitted request gets
      it translated to Tok Pisin, with the same shape, keys and non-string values. */
  lemma FinishCarriesCourse(q: Request, input: CourseInput)
    requires Finish(q, input).Success?
    ensures var doc := CourseJson(WithMinistry(Course(input), q).value, q.title);
      && (q.language == JStr("en") ==> Finish(q, input).value == doc)
      && (q.language != JStr("en") ==> Finish(q, input).value == TranslateTree(doc))
      && Skeleton(Finish(q, input).value) == Skeleton(doc)
  {
    TranslateKeepsSkeleton(CourseJson(WithMinistry(Course(input), q).value, q.title));
  }

  /** A request without `durationWeeks` gets `Math.max(floor, undefined)`, which is `NaN`, so a
      listed course type builds no modules; in ministry mode with a translation the intro then
      has no first module to go into, and the course step fails with a `TypeError`, which
      `HandleStages` makes the answer to an admitted request. */
  lemma MissingWeeksNoModules(q: Request)
    requires q.courseType.JStr? && ModuleFloor(q.courseType.s).Some? && q.durationWeeks == JUndefined
    ensures Course(CourseInputOf(q).value).modules == []
    ensures Truthy(q.ministryMode) && Truthy(q.bibleTranslation) ==>
      Finish(q, CourseInputOf(q).value).Failure? && Finish(q, CourseInputOf(q).value).error.TypeError?
  {
    ModulesNumberedFromOne(CourseInputOf(q).value);
  }
}

/**
 * The universal course builder: a validated course request becomes a course
 * document of an overview, learning outcomes and numbered modules, all drawn
 * from fixed templates.
 */
module CourseBuilder {
  import opened Wrappers
  import opened JsString
  import opened Json

  /** A JavaScript number as far as the builder uses one: an integer or `NaN`
      (which is what a missing `durationWeeks` turns `Math.max` into). */
  datatype Number = Finite(value: int) | NaN

  datatype CourseInput = CourseInput(
    title: string,
    courseType: string,
    audience: Option<string>,
    durationWeeks: Number,
    depth: Option<string>,
    language: string,
    country: string,
    ministryMode: bool,
    bibleTranslation: Option<string>)

  datatype CourseModule = CourseModule(
    moduleNumber: nat,
    title: string,
    description: string,
    lessons: seq<string>,
    activities: seq<string>,
    assessments: seq<string>)

  datatype GeneratedCourse = GeneratedCourse(
    title: string,
    overview: string,
    learningOutcomes: seq<string>,
    modules: seq<CourseModule>)

  /** The per-type minimum number of modules, or `None` for a type the switch does not list. */
  function ModuleFloor(courseType: string): Option<nat> {
    if courseType == "WORKSHOP" then Some(2)
    else if courseType == "SHORT_COURSE" then Some(4)
    else if courseType == "CERTIFICATE" then Some(8)
    else if courseType == "DIPLOMA" then Some(12)
    else if courseType == "DEGREE" then Some(24)
    else if courseType == "BIBLE_STUDY" then Some(6)
    else if courseType == "MINISTRY_PROGRAM" then Some(16)
    else None
  }

  /** `calculateModuleCount`: `Math.max(floor, durationWeeks)` for a listed type,
      a flat 6 otherwise. */
  function CalculateModuleCount(courseType: string, durationWeeks: Number): (r: Number)
    ensures ModuleFloor(courseType).None? ==> r == Finite(6)
    ensures ModuleFloor(courseType).Some? && durationWeeks.Finite? ==>
      var f, w := ModuleFloor(courseType).value, durationWeeks.value;
      r == Finite(if f < w then w else f)
    ensures ModuleFloor(courseType).Some? && durationWeeks.NaN? ==> r == NaN
    ensures r.Finite? ==> r.value >= 2
  {
    match ModuleFloor(courseType)
    case None => Finite(6)
    case Some(f) =>
      match durationWeeks
      case NaN => NaN
      case Finite(w) => Finite(if f < w then w else f)
  }

  /** How many times `for (let i = 1; i <= count; i++)` runs: never when the count is `NaN`. */
  function Iterations(count: Number): nat {
    if count.Finite? && count.value >= 1 then count.value else 0
  }

  /** `generateOverview`: one of two template sentences chosen by ministry mode. */
  function GenerateOverview(input: CourseInput): string {
    if input.ministryMode then
      "This " + ToLower(input.courseType) + MinistryOverviewMiddle
      + OrUndefined(input.bibleTranslation) + " translation."
    else
      "This " + ToLower(input.courseType) + TrainingOverviewMiddle
      + OrUndefined(input.audience) + " in " + input.country + "."
  }

  const MinistryOverviewMiddle := " is designed to equip learners with strong biblical foundations, practical ministry application, and spiritual development using the "
  const TrainingOverviewMiddle := " is designed to provide structured, practical, and outcome-focused training for "

  const BaseOutcomes: seq<string> := [
    "Demonstrate understanding of core concepts",
    "Apply knowledge in real-world scenarios",
    "Complete assessments to required standards"]

  const MinistryOutcomes: seq<string> := [
    "Interpret and apply Scripture faithfully",
    "Demonstrate spiritual maturity and ministry skills"]

  const AcademicOutcomes: seq<string> := [
    "Critically analyse subject matter",
    "Engage with advanced theory and application"]

  /** `generateLearningOutcomes`: the baseline, then the ministry items pushed onto it,
      then (under ACADEMIC depth) the academic items concatenated after both. */
  function GenerateLearningOutcomes(input: CourseInput): (r: seq<string>)
    ensures |r| == 3 + (if input.ministryMode then 2 else 0) + (if input.depth == Some("ACADEMIC") then 2 else 0)
    ensures r[..3] == BaseOutcomes
    ensures input.ministryMode ==> r[3..5] == MinistryOutcomes
    ensures input.depth == Some("ACADEMIC") ==> r[|r| - 2..] == AcademicOutcomes
  {
    var pushed := BaseOutcomes + (if input.ministryMode then MinistryOutcomes else []);
    if input.depth == Some("ACADEMIC") then pushed + AcademicOutcomes else pushed
  }

  const MinistryLessons: seq<string> := [
    "Scriptural foundations", "Theological overview", "Ministry application", "Reflection and prayer"]

  const CoreLessons: seq<string> := [
    "Core concepts", "Practical examples", "Industry or community application", "Review and summary"]

  function GenerateLessons(input: CourseInput): (r: seq<string>)
    ensures |r| == 4
  {
    if input.ministryMode then MinistryLessons else CoreLessons
  }

  const MinistryActivities: seq<string> := [
    "Bible reflection exercise", "Group discussion", "Personal journal activity"]

  const CoreActivities: seq<string> := ["Case study analysis", "Practical task", "Group discussion"]

  function GenerateActivities(input: CourseInput): (r: seq<string>)
    ensures |r| == 3
  {
    if input.ministryMode then MinistryActivities else CoreActivities
  }

  const BasicAssessments: seq<string> := ["Short quiz", "Participation task"]

  const AdvancedAssessments: seq<string> := ["Written assignment", "Applied project", "Final assessment"]

  const DefaultAssessments: seq<string> := ["Knowledge check quiz", "Practical assessment"]

  /** `generateAssessments`: chosen by depth alone; STANDARD, a missing or an unknown depth
      get the default pair. */
  function GenerateAssessments(input: CourseInput): (r: seq<string>)
    ensures input.depth == Some("BASIC") ==> r == BasicAssessments
    ensures input.depth == Some("ADVANCED") || input.depth == Some("ACADEMIC") ==> r == AdvancedAssessments
    ensures input.depth !in {Some("BASIC"), Some("ADVANCED"), Some("ACADEMIC")} ==> r == DefaultAssessments
    ensures |r| == if input.depth == Some("ADVANCED") || input.depth == Some("ACADEMIC") then 3 else 2
  {
    if input.depth == Some("BASIC") then BasicAssessments
    else if input.depth == Some("ADVANCED") || input.depth == Some("ACADEMIC") then AdvancedAssessments
    else DefaultAssessments
  }

  function ModulePrefix(ministryMode: bool): string {
    if ministryMode then "Biblical" else "Core"
  }

  /** `generateModule` for module number `n`. */
  function GenerateModule(input: CourseInput, n: nat): (m: CourseModule)
    ensures m.moduleNumber == n
    ensures m.title == ModulePrefix(input.ministryMode) + " Module " + NatToString(n)
    ensures Contains(m.description, input.title)
    ensures |m.lessons| == 4 && |m.activities| == 3
  {
    var head := "This module covers key concepts and skills related to ";
    var description := head + input.title + ".";
    assert description[|head|..|head| + |input.title|] == input.title;
    assert OccursAt(description, input.title, |head|);
    CourseModule(
      n,
      ModulePrefix(input.ministryMode) + " Module " + NatToString(n),
      description,
      GenerateLessons(input),
      GenerateActivities(input),
      GenerateAssessments(input))
  }

  /** The course `buildCourse` computes, as a value. */
  function Course(input: CourseInput): GeneratedCourse {
    var n := Iterations(CalculateModuleCount(input.courseType, input.durationWeeks));
    GeneratedCourse(
      input.title,
      GenerateOverview(input),
      GenerateLearningOutcomes(input),
      seq(n, i requires 0 <= i < n => GenerateModule(input, i + 1)))
  }

  /** `buildCourse`: the loop pushes modules 1..count in order. */
  method BuildCourse(input: CourseInput) returns (c: GeneratedCourse)
    ensures c == Course(input)
    ensures |c.modules| == Iterations(CalculateModuleCount(input.courseType, input.durationWeeks))
    ensures forall i :: 0 <= i < |c.modules| ==> c.modules[i] == GenerateModule(input, i + 1)
  {
    var moduleCount := CalculateModuleCount(input.courseType, input.durationWeeks);
    var total := Iterations(moduleCount);
    var modules: seq<CourseModule> := [];
    var i := 1;
    while moduleCount.Finite? && i <= moduleCount.value
      invariant 1 <= i <= total + 1
      invariant |modules| == i - 1
      invariant forall k :: 0 <= k < |modules| ==> modules[k] == GenerateModule(input, k + 1)
      decreases total + 1 - i
    {
      modules := modules + [GenerateModule(input, i)];
      i := i + 1;
    }
    c := GeneratedCourse(input.title, GenerateOverview(input), GenerateLearningOutcomes(input), modules);
    CourseOfModules(input, modules);
  }

  /** A course assembled from modules `1..n` in order is the course `Course` describes. */
  lemma CourseOfModules(input: CourseInput, modules: seq<CourseModule>)
    requires |modules| == Iterations(CalculateModuleCount(input.courseType, input.durationWeeks))
    requires forall k :: 0 <= k < |modules| ==> modules[k] == GenerateModule(input, k + 1)
    ensures GeneratedCourse(input.title, GenerateOverview(input), GenerateLearningOutcomes(input), modules)
         == Course(input)
  {
  }

  /** The course has exactly `calculateModuleCount` modules, numbered 1, 2, ... without gaps,
      each titled by the ministry-mode prefix and its number. */
  lemma ModulesNumberedFromOne(input: CourseInput)
    ensures var c, count := Course(input), CalculateModuleCount(input.courseType, input.durationWeeks);
      && (count.Finite? ==> |c.modules| == count.value)
      && (count.NaN? ==> c.modules == [])
      && forall i :: 0 <= i < |c.modules| ==>
           && c.modules[i].moduleNumber == i + 1
           && c.modules[i].title == ModulePrefix(input.ministryMode) + " Module " + NatToString(i + 1)
  {
  }

  /** With a finite duration the course has `max(floor, weeks)` modules, or 6 for an
      unlisted type, so never fewer than two. */
  lemma ModuleCountByType(input: CourseInput)
    requires input.durationWeeks.Finite?
    ensures var n, w := |Course(input).modules|, input.durationWeeks.value;
      && (ModuleFloor(input.courseType).None? ==> n == 6)
      && (ModuleFloor(input.courseType).Some? ==> n == if w > ModuleFloor(input.courseType).value then w else ModuleFloor(input.courseType).value)
      && n >= 2
  {
  }

  /** Any two modules of one course differ only in number and title; every module
      names the course title in its description and has 4 lessons and 3 activities. */
  lemma ModulesAlike(input: CourseInput, i: nat, j: nat)
    requires i < |Course(input).modules| && j < |Course(input).modules|
    ensures var a, b := Course(input).modules[i], Course(input).modules[j];
      && a.description == b.description && a.lessons == b.lessons
      && a.activities == b.activities && a.assessments == b.assessments
      && Contains(a.description, input.title)
      && |a.lessons| == 4 && |a.activities| == 3
  {
    var a, b := Course(input).modules[i], Course(input).modules[j];
    assert a == GenerateModule(input, i + 1);
    assert b == GenerateModule(input, j + 1);
  }

  /** Lessons and activities are chosen by ministry mode alone, assessments by depth alone. */
  lemma SelectorsDependOnOneField(a: CourseInput, b: CourseInput)
    ensures a.ministryMode == b.ministryMode ==>
      GenerateLessons(a) == GenerateLessons(b) && GenerateActivities(a) == GenerateActivities(b)
    ensures a.depth == b.depth ==> GenerateAssessments(a) == GenerateAssessments(b)
    ensures a.ministryMode != b.ministryMode ==>
      GenerateLessons(a) != GenerateLessons(b) && GenerateActivities(a) != GenerateActivities(b)
  {
    assert MinistryLessons[0] != CoreLessons[0];
    assert MinistryActivities[0] != CoreActivities[0];
  }

  /** The course keeps the request's title; its outcomes are the ministry and academic
      extensions of the baseline, both kept when both apply. */
  lemma CourseOutcomes(input: CourseInput)
    requires input.ministryMode && input.depth == Some("ACADEMIC")
    ensures Course(input).title == input.title
    ensures Course(input).learningOutcomes == BaseOutcomes + MinistryOutcomes + AcademicOutcomes
  {
  }

  /** In ministry mode the overview names the Bible translation; otherwise it names
      the audience and the country. */
  lemma OverviewNamesContext(input: CourseInput)
    ensures input.ministryMode ==> Contains(GenerateOverview(input), OrUndefined(input.bibleTranslation))
    ensures !input.ministryMode ==>
      Contains(GenerateOverview(input), OrUndefined(input.audience)) && Contains(GenerateOverview(input), input.country)
  {
    var t := ToLower(input.courseType);
    if input.ministryMode {
      var head := "This " + t + MinistryOverviewMiddle;
      var b := OrUndefined(input.bibleTranslation);
      assert GenerateOverview(input) == head + b + " translation.";
      assert OccursAt(GenerateOverview(input), b, |head|);
    } else {
      var head := "This " + t + TrainingOverviewMiddle;
      var a := OrUndefined(input.audience);
      assert GenerateOverview(input) == head + a + " in " + input.country + ".";
      assert OccursAt(GenerateOverview(input), a, |head|);
      assert OccursAt(GenerateOverview(input), input.country, |head| + |a| + 4);
    }
  }

  /** Scenario: a 3-week CERTIFICATE outside ministry mode gets 8 "Core Module N" modules. */
  lemma CertificateScenario(title: string, audience: Option<string>, country: string)
    ensures var c := Course(CourseInput(title, "CERTIFICATE", audience, Finite(3), Some("STANDARD"), "en", country, false, None));
      |c.modules| == 8 && c.modules[0].title == "Core Module 1" && c.modules[7].title == "Core Module 8"
  {
    var c := Course(CourseInput(title, "CERTIFICATE", audience, Finite(3), Some("STANDARD"), "en", country, false, None));
    assert c.modules[0] == GenerateModule(CourseInput(title, "CERTIFICATE", audience, Finite(3), Some("STANDARD"), "en", country, false, None), 1);
    assert NatToString(1) == "1" && NatToString(8) == "8";
  }
}

/**
 * The tier gatekeeper: a closed set of subscription tiers, one constant
 * permission record per tier, the hard access check run before a course is
 * built, and the advisory feature query.
 */
module TierGatekeeper {
  import opened Wrappers
  import opened Json

  datatype UserTier = Free | Pro | Elite | Ministry | Enterprise | Government | GlobalAcademy

  /** The label a tier has at run time. */
  function TierName(t: UserTier): string {
    match t
    case Free => "FREE"
    case Pro => "PRO"
    case Elite => "ELITE"
    case Ministry => "MINISTRY"
    case Enterprise => "ENTERPRISE"
    case Government => "GOVERNMENT"
    case GlobalAcademy => "GLOBAL_ACADEMY"
  }

  /** `TIER_MATRIX[tier]` succeeds exactly for the seven tier labels. */
  function ParseTier(s: string): (r: Option<UserTier>)
    ensures r.Some? ==> TierName(r.value) == s
    ensures (exists t :: TierName(t) == s) ==> r.Some?
  {
    if s == "FREE" then Some(Free)
    else if s == "PRO" then Some(Pro)
    else if s == "ELITE" then Some(Elite)
    else if s == "MINISTRY" then Some(Ministry)
    else if s == "ENTERPRISE" then Some(Enterprise)
    else if s == "GOVERNMENT" then Some(Government)
    else if s == "GLOBAL_ACADEMY" then Some(GlobalAcademy)
    else None
  }

  datatype MonthlyLimit = Courses(count: nat) | Unlimited

  datatype LanguageSet = AllLanguages | Only(codes: seq<string>)

  datatype TierPermissions = TierPermissions(
    maxCoursesPerMonth: MonthlyLimit,
    allowedLanguages: LanguageSet,
    allowedBibleTranslations: seq<string>,
    allowMinistryMode: bool,
    allowComplianceEngine: bool,
    allowMultiNation: bool)

  const AllTranslations: seq<string> := ["NKJV", "KJV", "ESV", "NIV", "NLT", "ASV", "AMP"]

  /** The permission matrix. A Dafny function of the tier: nothing can write to it. */
  function TierMatrix(t: UserTier): TierPermissions {
    match t
    case Free => TierPermissions(Courses(1), Only(["en"]), [], false, false, false)
    case Pro => TierPermissions(Unlimited, Only(["en", "tok-pisin"]), ["NKJV", "KJV"], true, false, false)
    case Elite => TierPermissions(Unlimited, AllLanguages, AllTranslations, true, true, true)
    case Ministry => TierPermissions(Unlimited, AllLanguages, AllTranslations, true, false, true)
    case Enterprise => TierPermissions(Unlimited, AllLanguages, AllTranslations, true, true, true)
    case Government => TierPermissions(Unlimited, AllLanguages, [], false, true, true)
    case GlobalAcademy => TierPermissions(Unlimited, AllLanguages, AllTranslations, true, true, true)
  }

  /** The options of `assertTierAccess`; an absent optional string is `None`. */
  datatype AccessRequest = AccessRequest(
    requestedLanguage: Option<string>,
    requestedBibleTranslation: Option<string>,
    ministryMode: bool,
    multiNation: bool,
    compliance: bool)

  datatype AccessError =
    | UnknownTier(tier: string)
    | LanguageNotAllowed(tier: string, language: string)
    | TranslationNotAllowed(tier: string, translation: string)
    | MinistryModeNotAllowed(tier: string)
    | MultiNationNotAllowed(tier: string)
    | ComplianceNotAllowed(tier: string)

  /** The text of the `Error` the source throws for each rejection. */
  function AccessMessage(e: AccessError): string {
    match e
    case UnknownTier(t) => "Invalid or unknown tier: " + t
    case LanguageNotAllowed(t, l) => "Tier " + t + " is not allowed to use language \"" + l + "\""
    case TranslationNotAllowed(t, b) => "Tier " + t + " is not allowed to use Bible translation \"" + b + "\""
    case MinistryModeNotAllowed(t) => "Tier " + t + " is not allowed to use Ministry Mode"
    case MultiNationNotAllowed(t) => "Tier " + t + " is not allowed multi-nation course generation"
    case ComplianceNotAllowed(t) => "Tier " + t + " is not allowed to use the Compliance Engine"
  }

  // The five capability checks, each stated on its own.

  predicate LanguageDenied(p: TierPermissions, o: AccessRequest) {
    Present(o.requestedLanguage) && p.allowedLanguages.Only?
    && o.requestedLanguage.value !in p.allowedLanguages.codes
  }

  predicate TranslationDenied(p: TierPermissions, o: AccessRequest) {
    Present(o.requestedBibleTranslation)
    && o.requestedBibleTranslation.value !in p.allowedBibleTranslations
  }

  predicate MinistryDenied(p: TierPermissions, o: AccessRequest) {
    o.ministryMode && !p.allowMinistryMode
  }

  predicate MultiNationDenied(p: TierPermissions, o: AccessRequest) {
    o.multiNation && !p.allowMultiNation
  }

  predicate ComplianceDenied(p: TierPermissions, o: AccessRequest) {
    o.compliance && !p.allowComplianceEngine
  }

  /** Some check rejects `o` under permissions `p`. */
  predicate AnyDenied(p: TierPermissions, o: AccessRequest) {
    LanguageDenied(p, o) || TranslationDenied(p, o) || MinistryDenied(p, o)
    || MultiNationDenied(p, o) || ComplianceDenied(p, o)
  }

  /** `assertTierAccess`: the checks in source order; the first that fires is reported. */
  function AssertTierAccess(tier: string, o: AccessRequest): (r: Outcome<AccessError>)
    ensures ParseTier(tier).None? <==> r == Fail(UnknownTier(tier))
    ensures r.Pass? <==> ParseTier(tier).Some? && !AnyDenied(TierMatrix(ParseTier(tier).value), o)
    ensures r.Fail? && r.error.LanguageNotAllowed? ==> o.requestedLanguage == Some(r.error.language)
    ensures r.Fail? && r.error.TranslationNotAllowed? ==> o.requestedBibleTranslation == Some(r.error.translation)
  {
    match ParseTier(tier)
    case None => Fail(UnknownTier(tier))
    case Some(t) =>
      var p := TierMatrix(t);
      if LanguageDenied(p, o) then Fail(LanguageNotAllowed(tier, o.requestedLanguage.value))
      else if TranslationDenied(p, o) then Fail(TranslationNotAllowed(tier, o.requestedBibleTranslation.value))
      else if MinistryDenied(p, o) then Fail(MinistryModeNotAllowed(tier))
      else if MultiNationDenied(p, o) then Fail(MultiNationNotAllowed(tier))
      else if ComplianceDenied(p, o) then Fail(ComplianceNotAllowed(tier))
      else Pass
  }

  /** When several checks would fire, the one earliest in source order is reported. */
  lemma FirstDenialReported(t: UserTier, o: AccessRequest)
    ensures var p, r := TierMatrix(t), AssertTierAccess(TierName(t), o);
      && (LanguageDenied(p, o) ==> r.Fail? && r.error.LanguageNotAllowed?)
      && (!LanguageDenied(p, o) && TranslationDenied(p, o) ==> r.Fail? && r.error.TranslationNotAllowed?)
      && (!LanguageDenied(p, o) && !TranslationDenied(p, o) && MinistryDenied(p, o)
          ==> r == Fail(MinistryModeNotAllowed(TierName(t))))
      && ((!LanguageDenied(p, o) && !TranslationDenied(p, o) && !MinistryDenied(p, o) && MultiNationDenied(p, o))
          ==> r == Fail(MultiNationNotAllowed(TierName(t))))
      && ((!LanguageDenied(p, o) && !TranslationDenied(p, o) && !MinistryDenied(p, o)
           && !MultiNationDenied(p, o) && ComplianceDenied(p, o))
          ==> r == Fail(ComplianceNotAllowed(TierName(t))))
  {
    assert ParseTier(TierName(t)) == Some(t);
  }

  /** An unknown tier is rejected whatever is requested, even nothing at all. */
  lemma UnknownTierRejectedFirst(tier: string, o: AccessRequest)
    requires forall t :: TierName(t) != tier
    ensures AssertTierAccess(tier, o) == Fail(UnknownTier(tier))
  {
  }

  /** A language is rejected only when it is non-empty, the tier's list is not
      `"all"`, and the language is not in the list. */
  lemma LanguageRule(t: UserTier, lang: string)
    ensures var r := AssertTierAccess(TierName(t), AccessRequest(Some(lang), None, false, false, false));
      r.Fail? <==> (lang != "" && TierMatrix(t).allowedLanguages.Only? && lang !in TierMatrix(t).allowedLanguages.codes)
  {
    assert ParseTier(TierName(t)) == Some(t);
  }

  /** FREE cannot request Tok Pisin; PRO can. */
  lemma TokPisinByTier()
    ensures AssertTierAccess("FREE", AccessRequest(Some("tok-pisin"), None, false, false, false))
      == Fail(LanguageNotAllowed("FREE", "tok-pisin"))
    ensures AssertTierAccess("PRO", AccessRequest(Some("tok-pisin"), None, false, false, false)) == Pass
  {
    assert "tok-pisin" != "en";
  }

  /** FREE and GOVERNMENT reject every Bible translation that is asked for. */
  lemma NoTranslationsForFreeOrGovernment(t: UserTier, translation: string)
    requires t == Free || t == Government
    requires translation != ""
    ensures AssertTierAccess(TierName(t), AccessRequest(None, Some(translation), false, false, false))
      == Fail(TranslationNotAllowed(TierName(t), translation))
  {
    assert ParseTier(TierName(t)) == Some(t);
  }

  /** `canUseFeature`: the matching flag of the tier's record; false for an unknown tier or feature. */
  function CanUseFeature(tier: string, feature: string): (r: bool)
    ensures ParseTier(tier).None? ==> !r
    ensures ParseTier(tier).Some? ==> var p := TierMatrix(ParseTier(tier).value);
      r == ((feature == "MINISTRY" && p.allowMinistryMode)
            || (feature == "COMPLIANCE" && p.allowComplianceEngine)
            || (feature == "MULTI_NATION" && p.allowMultiNation))
  {
    match ParseTier(tier)
    case None => false
    case Some(t) =>
      var p := TierMatrix(t);
      if feature == "MINISTRY" then p.allowMinistryMode
      else if feature == "COMPLIANCE" then p.allowComplianceEngine
      else if feature == "MULTI_NATION" then p.allowMultiNation
      else false
  }

  /** The advisory query agrees with the hard check: a feature is usable exactly
      when requesting it alone passes `assertTierAccess`. */
  lemma FeatureQueryAgreesWithCheck(t: UserTier)
    ensures CanUseFeature(TierName(t), "MINISTRY")
      <==> AssertTierAccess(TierName(t), AccessRequest(None, None, true, false, false)).Pass?
    ensures CanUseFeature(TierName(t), "MULTI_NATION")
      <==> AssertTierAccess(TierName(t), AccessRequest(None, None, false, true, false)).Pass?
    ensures CanUseFeature(TierName(t), "COMPLIANCE")
      <==> AssertTierAccess(TierName(t), AccessRequest(None, None, false, false, true)).Pass?
  {
    assert ParseTier(TierName(t)) == Some(t);
  }
}

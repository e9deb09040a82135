/**
 * The result of a product translation and the checks run on it: the language-code
 * normalisation (Czech is "cz" in the shop, not "cs"), the field validator that accepts a
 * target language only from a fixed list, and the two result validators that send the model
 * back to retry when the language is not allowed or a main field is blank.
 */
module Translation {
  import opened Wrappers
  import opened Text

  /** The translated product: nine main texts, the error text and the return code. */
  datatype TranslationResult = TranslationResult(
    targetLanguage: string, title: string, shortDescription: string, longDescription: string,
    seoDescription: string, seoTitle: string, seoKeywords: string, seoUrl: string, unit: string,
    error: string, returnCode: int)

  /** The languages a translation may target. */
  const ValidTargetLanguages: seq<string> := ["cz", "cs", "sk", "en"]

  /** How the tuple of valid languages prints in the error messages. */
  const ValidTargetLanguagesText: string := "('cz', 'cs', 'sk', 'en')"

  /** What the validators are given besides the result: the languages accepted. */
  datatype TranslationDeps = TranslationDeps(validTargetLanguages: seq<string>)

  const DefaultDeps: TranslationDeps := TranslationDeps(ValidTargetLanguages)

  /** The spelling the code normalises to: no whitespace at either end and no ASCII capital. */
  predicate Normalised(s: string) {
    && (s == [] || (!IsSpace(s[0]) && !IsSpace(s[|s| - 1])))
    && forall i | 0 <= i < |s| :: !('A' <= s[i] <= 'Z')
  }

  /** Lower-casing a stripped text keeps it stripped. */
  lemma LowerStripNormalised(s: string)
    ensures Normalised(Lower(Strip(s)))
  {
    LowerKeepsSpace(Strip(s));
  }

  /** A normalised text is its own stripped, lower-cased form. */
  lemma NormalisedFixed(s: string)
    requires Normalised(s)
    ensures Lower(Strip(s)) == s
  {
    StripOfStripped(s);
  }

  /**
   * migrate_language_code: the code stripped and lower-cased, with "cs" turned into "cz";
   * every other code is kept as it then reads.
   */
  function MigrateLanguageCode(value: string): (r: string)
    ensures Normalised(r)
    ensures r != "cs"
    ensures Lower(Strip(value)) == "cs" ==> r == "cz"
    ensures Lower(Strip(value)) != "cs" ==> r == Lower(Strip(value))
  {
    var v := Lower(Strip(value));
    LowerStripNormalised(value);
    if v == "cs" then "cz" else v
  }

  /** Migrating a migrated code changes nothing. */
  lemma MigrateLanguageCodeIdempotent(value: string)
    ensures MigrateLanguageCode(MigrateLanguageCode(value)) == MigrateLanguageCode(value)
  {
    NormalisedFixed(MigrateLanguageCode(value));
  }

  /** Stripping and lower-casing before the migration, as the validator does, changes nothing either. */
  lemma MigrateAfterNormalising(value: string)
    ensures MigrateLanguageCode(Lower(Strip(value))) == MigrateLanguageCode(value)
  {
    LowerStripNormalised(value);
    NormalisedFixed(Lower(Strip(value)));
  }

  /**
   * is_valid_target_language: the code is normalised and migrated and then must be one of the
   * valid languages; it is accepted exactly when it then reads "cz", "sk" or "en", and never
   * comes back as "cs".
   */
  function IsValidTargetLanguage(value: string): (r: Result<string>)
    ensures r.Ok? <==> MigrateLanguageCode(value) in ["cz", "sk", "en"]
    ensures r.Ok? ==> r.value == MigrateLanguageCode(value) && r.value != "cs"
    ensures r.Err? ==> r.error.ValueError?
  {
    var v := MigrateLanguageCode(Lower(Strip(value)));
    MigrateAfterNormalising(value);
    if v !in ValidTargetLanguages then
      Err(ValueError("\U{274C} " + v + " is not a valid target language. Expecting: " + ValidTargetLanguagesText))
    else Ok(v)
  }

  /** Building a result runs the target-language validator; its ValueError becomes a validation error of that field. */
  function MakeTranslationResult(raw: TranslationResult): (r: Result<TranslationResult>)
    ensures r.Ok? <==> IsValidTargetLanguage(raw.targetLanguage).Ok?
    ensures r.Ok? ==> r.value == raw.(targetLanguage := MigrateLanguageCode(raw.targetLanguage))
    ensures r.Err? ==> r.error == ValidationError("target_language")
  {
    match IsValidTargetLanguage(raw.targetLanguage)
    case Err(_) => Err(ValidationError("target_language"))
    case Ok(v) => Ok(raw.(targetLanguage := v))
  }

  /** validate_target_language: a retry unless the result's language is one the dependencies accept; the result is kept as it is. */
  function ValidateTargetLanguage(deps: TranslationDeps, result: TranslationResult): (r: Result<TranslationResult>)
    ensures r.Ok? <==> result.targetLanguage in deps.validTargetLanguages
    ensures r.Ok? ==> r.value == result
    ensures r.Err? ==> r.error.ModelRetry?
  {
    if result.targetLanguage !in deps.validTargetLanguages then
      Err(ModelRetry("Invalid Target Language: " + result.targetLanguage + ". Expected: " + ValidTargetLanguagesText))
    else Ok(result)
  }

  /** A result that was built passes the language validator with the default dependencies. */
  lemma BuiltResultHasValidLanguage(raw: TranslationResult)
    requires MakeTranslationResult(raw).Ok?
    ensures ValidateTargetLanguage(DefaultDeps, MakeTranslationResult(raw).value) == Ok(MakeTranslationResult(raw).value)
  {
  }

  /** The nine main texts, in the order they are checked. */
  function MainFields(result: TranslationResult): (r: seq<string>)
    ensures |r| == 9
  {
    [result.targetLanguage, result.title, result.shortDescription, result.longDescription,
     result.seoDescription, result.seoTitle, result.seoKeywords, result.seoUrl, result.unit]
  }

  /**
   * validate_fields_are_not_empty: a retry exactly when one of the nine main texts is blank,
   * that is, empty or made only of whitespace; the result is otherwise kept as it is.
   */
  function ValidateFieldsAreNotEmpty(result: TranslationResult): (r: Result<TranslationResult>)
    ensures r.Err? <==> exists i | 0 <= i < 9 :: AllSpace(MainFields(result)[i])
    ensures r.Ok? ==> r.value == result
    ensures r.Err? ==> r.error.ModelRetry?
  {
    var fields := MainFields(result);
    if exists i | 0 <= i < |fields| :: Strip(fields[i]) == "" then
      var i :| 0 <= i < |fields| && Strip(fields[i]) == "";
      StripEmptyIffAllSpace(fields[i]);
      Err(ModelRetry("No values should be empty!"))
    else
      assert forall i | 0 <= i < |fields| :: !AllSpace(fields[i]) by {
        forall i | 0 <= i < |fields| ensures !AllSpace(fields[i]) {
          StripEmptyIffAllSpace(fields[i]);
        }
      }
      Ok(result)
  }

  /** The error text and the return code are not checked: changing them never changes the verdict. */
  lemma ErrorAndCodeUnchecked(result: TranslationResult, error: string, code: int)
    ensures ValidateFieldsAreNotEmpty(result.(error := error, returnCode := code)).Err?
            == ValidateFieldsAreNotEmpty(result).Err?
  {
    assert MainFields(result.(error := error, returnCode := code)) == MainFields(result);
  }
}

/** The teacher profile form: its validation schema as a predicate over the form
    values, the mapping from language names to ids done before submitting, the
    test that decides between creating and updating a profile, and the
    teaching-mode menu. */
module ProfileForm {
  import opened Wrappers
  import opened Seqs
  import opened Text
  import opened JsValues

  // ------------------------------------------------------------ form values

  /** The experience field: the text typed into the number input, or a number
      loaded from the teacher record. */
  datatype NumberInput = Typed(text: string) | Loaded(value: real)

  datatype FormValues = FormValues(
    education: string,
    experienceYears: NumberInput,
    bio: string,
    teachingMode: string,
    languages: seq<string>)

  /** The form's default values. */
  const DefaultValues := FormValues("", Typed(""), "", "online", [])

  // ------------------------------------------------------------ number cast

  /** Yup removes every white-space character (`/\s/g`) before casting. */
  function NotBlank(): char -> bool
  {
    (c: char) => !IsJsWhiteSpace(c)
  }

  function Pow10(n: nat): (r: nat)
    ensures r >= 1
  {
    if n == 0 then 1 else 10 * Pow10(n - 1)
  }

  /** `+s` for a blank-free string of the plain decimal form: an optional sign, then
      digits with an optional fraction part, at least one digit in all. `None`
      stands for `NaN`, which includes the empty string. */
  function ParseNumber(s: string): Option<real>
  {
    if |s| > 0 && (s[0] == '-' || s[0] == '+') then
      match ParseUnsigned(s[1..])
      case None => None
      case Some(x) => Some(if s[0] == '-' then -x else x)
    else ParseUnsigned(s)
  }

  function ParseUnsigned(s: string): (r: Option<real>)
    ensures r.Some? ==> r.value >= 0.0
  {
    var whole := DigitPrefix(s);
    var rest := s[|whole|..];
    if |rest| == 0 then
      if |whole| == 0 then None else Some(DigitsValue(whole) as real)
    else if rest[0] != '.' then None
    else
      var fraction := DigitPrefix(rest[1..]);
      if |fraction| != |rest| - 1 || |whole| + |fraction| == 0 then None
      else Some(DigitsValue(whole) as real + DigitsValue(fraction) as real / Pow10(|fraction|) as real)
  }

  /** A non-empty string of digits reads as its decimal value. */
  lemma ParseDigitsNumber(d: string)
    requires |d| > 0 && forall i :: 0 <= i < |d| ==> IsDigit(d[i])
    ensures ParseNumber(d) == Some(DigitsValue(d) as real)
  {
    DigitPrefixOfDigits(d);
  }

  lemma {:induction false} DigitPrefixOfDigits(d: string)
    requires forall i :: 0 <= i < |d| ==> IsDigit(d[i])
    ensures DigitPrefix(d) == d
  {
    if |d| != 0 {
      DigitPrefixOfDigits(d[1..]);
    }
  }

  /** Only a leading minus sign gives a negative number. */
  lemma NegativeNeedsMinus(s: string)
    requires ParseNumber(s).Some? && ParseNumber(s).value < 0.0
    ensures s[0] == '-'
  {
  }

  /** The number Yup casts the experience field to: a loaded number as is, typed text
      with its blanks removed and then read as a number. `None` is `NaN`. */
  function NumberCast(v: NumberInput): Option<real>
  {
    match v
    case Loaded(x) => Some(x)
    case Typed(text) => ParseNumber(Filter(text, NotBlank()))
  }

  // ------------------------------------------------------------ schema

  const ExperienceRequired := "Experience years are required"
  const ExperienceMin := "Experience years must be 1 or more"
  const ExperienceMax := "Experience years must be realistic"
  const EducationRequired := "Education is required"
  const EducationTooLong := "Education details must not exceed 100 characters"
  const BioRequired := "Bio is required"
  const BioTooLong := "Bio must not exceed 500 characters"
  const TeachingModeOneOf := "Teaching mode must be online, physical, or hybrid"
  const LanguageRequired := "Language is required"
  const LanguagesMin := "At least one language must be selected"

  /** The teaching modes the schema accepts. */
  const TeachingModes: seq<string> := ["online", "physical", "hybrid"]

  /** `experience_years`: a number (not `NaN`) in the inclusive range 0 to 100. A
      failed cast and a missing value share one message. */
  function ExperienceYearsError(v: NumberInput): (r: Option<string>)
    ensures r.None? <==> NumberCast(v).Some? && 0.0 <= NumberCast(v).value <= 100.0
    ensures NumberCast(v).None? ==> r == Some(ExperienceRequired)
    ensures NumberCast(v).Some? && NumberCast(v).value < 0.0 ==> r == Some(ExperienceMin)
    ensures NumberCast(v).Some? && NumberCast(v).value > 100.0 ==> r == Some(ExperienceMax)
  {
    match NumberCast(v)
    case None => Some(ExperienceRequired)
    case Some(x) =>
      if x < 0.0 then Some(ExperienceMin)
      else if x > 100.0 then Some(ExperienceMax)
      else None
  }

  /** A required string with a maximum length: the empty string is missing, and the
      length is JavaScript's, counted in UTF-16 code units. */
  function TextError(value: string, maxLength: nat, required: string, tooLong: string): (r: Option<string>)
    ensures r.None? <==> 0 < |value| && Utf16Length(value) <= maxLength
    ensures value == "" ==> r == Some(required)
    ensures Utf16Length(value) > maxLength ==> r == Some(tooLong)
  {
    if value == "" then Some(required)
    else if Utf16Length(value) > maxLength then Some(tooLong)
    else None
  }

  /** A bio of 300 characters outside the Basic Multilingual Plane (emoji, say) is
      600 UTF-16 code units long and so too long, though it holds only 300 characters. */
  lemma AstralBioTooLong()
    ensures |seq(300, _ => '\U{1F600}')| <= 500
    ensures TextError(seq(300, _ => '\U{1F600}'), 500, BioRequired, BioTooLong) == Some(BioTooLong)
  {
    var bio := seq(300, _ => '\U{1F600}');
    assert forall i :: 0 <= i < |bio| ==> bio[i] as int >= 0x1_0000;
  }

  /** `teaching_mode`: one of the accepted modes; the empty string fails the
      membership rule first. */
  function TeachingModeError(mode: string): (r: Option<string>)
    ensures r.None? <==> mode in TeachingModes
    ensures r.Some? ==> r == Some(TeachingModeOneOf)
  {
    if mode in TeachingModes then None else Some(TeachingModeOneOf)
  }

  /** `languages`: at least one entry, and no entry empty. */
  function LanguagesError(names: seq<string>): (r: Option<string>)
    ensures r.None? <==> |names| >= 1 && forall i :: 0 <= i < |names| ==> names[i] != ""
    ensures |names| == 0 ==> r == Some(LanguagesMin)
    ensures |names| > 0 && r.Some? ==> r == Some(LanguageRequired)
  {
    if |names| == 0 then Some(LanguagesMin)
    else if "" in names then Some(LanguageRequired)
    else None
  }

  /** The first error of each field, in the schema's rule order. */
  datatype Errors = Errors(
    education: Option<string>,
    experienceYears: Option<string>,
    bio: Option<string>,
    teachingMode: Option<string>,
    languages: Option<string>)

  const NoErrors := Errors(None, None, None, None, None)

  /** `NewUserSchema` applied to the form values. */
  function Validate(v: FormValues): Errors
  {
    Errors(
      TextError(v.education, 100, EducationRequired, EducationTooLong),
      ExperienceYearsError(v.experienceYears),
      TextError(v.bio, 500, BioRequired, BioTooLong),
      TeachingModeError(v.teachingMode),
      LanguagesError(v.languages))
  }

  predicate Valid(v: FormValues)
  {
    Validate(v) == NoErrors
  }

  /** The schema accepts exactly the values whose every field is within its rule. */
  lemma ValidMeaning(v: FormValues)
    ensures Valid(v) <==>
      0 < |v.education| && Utf16Length(v.education) <= 100
      && NumberCast(v.experienceYears).Some? && 0.0 <= NumberCast(v.experienceYears).value <= 100.0
      && 0 < |v.bio| && Utf16Length(v.bio) <= 500
      && (v.teachingMode == "online" || v.teachingMode == "physical" || v.teachingMode == "hybrid")
      && |v.languages| >= 1 && forall i :: 0 <= i < |v.languages| ==> v.languages[i] != ""
  {
  }

  /** The untouched form fails on every field except the teaching mode. */
  lemma DefaultValuesRejected()
    ensures Validate(DefaultValues)
         == Errors(Some(EducationRequired), Some(ExperienceRequired), Some(BioRequired), None, Some(LanguagesMin))
  {
    assert Filter("", NotBlank()) == "";
  }

  /** Zero years are accepted although the lower-bound message speaks of "1 or more";
      blanks around typed digits are ignored, and an empty field counts as missing. */
  lemma ExperienceYearsBounds()
    ensures ExperienceYearsError(Loaded(0.0)) == None
    ensures ExperienceYearsError(Loaded(100.0)) == None
    ensures ExperienceYearsError(Loaded(-0.5)) == Some(ExperienceMin)
    ensures ExperienceYearsError(Loaded(100.5)) == Some(ExperienceMax)
    ensures ExperienceYearsError(Typed(" 7 ")) == None
    ensures ExperienceYearsError(Typed("")) == Some(ExperienceRequired)
  {
    assert Filter(" 7 ", NotBlank()) == "7";
    ParseDigitsNumber("7");
    assert Filter("", NotBlank()) == "";
  }

  // ------------------------------------------------------------ teaching-mode menu

  /** The values the teaching-mode menu offers, as written. */
  const MenuModes: seq<string> := ["online", "physical", "both"]

  /** The menu with its third entry carrying the value the schema accepts. */
  const CorrectedMenuModes: seq<string> := ["online", "physical", "hybrid"]

  /** Choosing menu entry `k` sets the form's teaching mode to that entry's value. */
  function ChooseMode(v: FormValues, menu: seq<string>, k: nat): (r: FormValues)
    requires k < |menu|
    ensures r.teachingMode == menu[k]
    ensures r.(teachingMode := v.teachingMode) == v
  {
    v.(teachingMode := menu[k])
  }

  /** As written, choosing "both" makes the form unsubmittable whatever else it holds,
      and no entry offers "hybrid". */
  lemma BothIsAlwaysRejected(v: FormValues)
    ensures MenuModes[2] == "both"
    ensures TeachingModeError(ChooseMode(v, MenuModes, 2).teachingMode) == Some(TeachingModeOneOf)
    ensures !Valid(ChooseMode(v, MenuModes, 2))
    ensures "hybrid" !in MenuModes
  {
  }

  /** With the corrected menu every entry is accepted, the entries are exactly the
      accepted modes, and choosing any entry keeps a valid form valid. */
  lemma CorrectedMenuAccepted(v: FormValues, k: nat)
    requires k < |CorrectedMenuModes|
    ensures TeachingModeError(CorrectedMenuModes[k]) == None
    ensures forall m :: m in CorrectedMenuModes <==> m in TeachingModes
    ensures Valid(v) ==> Valid(ChooseMode(v, CorrectedMenuModes, k))
  {
  }

  // ------------------------------------------------------------ submission

  /** An entry of the language catalogue fetched from the server. */
  datatype Language = Language(languageId: int, name: string)

  function NamedAs(name: string): Language -> bool
  {
    (l: Language) => l.name == name
  }

  /** The id of the first catalogue entry with that name; `None` is `undefined`. */
  function LanguageIdOf(catalogue: seq<Language>, name: string): (r: Option<int>)
    ensures r.None? <==> forall i :: 0 <= i < |catalogue| ==> catalogue[i].name != name
    ensures r.Some? ==>
      exists i :: 0 <= i < |catalogue| && catalogue[i].name == name && catalogue[i].languageId == r.value
                  && forall j :: 0 <= j < i ==> catalogue[j].name != name
  {
    match FirstIndex(catalogue, NamedAs(name))
    case None => None
    case Some(i) => Some(catalogue[i].languageId)
  }

  /** The names mapped to ids position by position. */
  function LanguageIds(catalogue: seq<Language>, names: seq<string>): (r: seq<Option<int>>)
    ensures |r| == |names|
    ensures forall i :: 0 <= i < |names| ==> r[i] == LanguageIdOf(catalogue, names[i])
  {
    if |names| == 0 then [] else [LanguageIdOf(catalogue, names[0])] + LanguageIds(catalogue, names[1..])
  }

  /** Names picked from the catalogue all resolve. */
  lemma OfferedNamesResolve(catalogue: seq<Language>, names: seq<string>)
    requires forall i :: 0 <= i < |names| ==> exists j :: 0 <= j < |catalogue| && catalogue[j].name == names[i]
    ensures forall i :: 0 <= i < |names| ==> LanguageIds(catalogue, names)[i].Some?
  {
  }

  /** With distinct names in the catalogue, an entry's name maps back to its own id. */
  lemma NameMapsBackToId(catalogue: seq<Language>, j: nat)
    requires j < |catalogue|
    requires forall a, b :: 0 <= a < b < |catalogue| ==> catalogue[a].name != catalogue[b].name
    ensures LanguageIdOf(catalogue, catalogue[j].name) == Some(catalogue[j].languageId)
  {
  }

  /** What the form hands to the save or update action: the cast values, with the
      language names replaced by their ids. */
  datatype Submission = Submission(
    education: string,
    experienceYears: real,
    bio: string,
    teachingMode: string,
    languages: seq<Option<int>>)

  /** Submitting the form: nothing is sent unless the schema accepts the values. */
  function Submit(v: FormValues, catalogue: seq<Language>): (r: Option<Submission>)
    ensures r.Some? <==> Valid(v)
    ensures r.Some? ==>
      r.value.education == v.education && r.value.bio == v.bio && r.value.teachingMode == v.teachingMode
      && Some(r.value.experienceYears) == NumberCast(v.experienceYears)
      && 0.0 <= r.value.experienceYears <= 100.0
      && |r.value.languages| == |v.languages|
      && forall i :: 0 <= i < |v.languages| ==> r.value.languages[i] == LanguageIdOf(catalogue, v.languages[i])
  {
    if Valid(v) then
      Some(Submission(v.education, NumberCast(v.experienceYears).value, v.bio, v.teachingMode,
                      LanguageIds(catalogue, v.languages)))
    else None
  }

  // ------------------------------------------------------------ create or update

  /** Whether some value is neither `''` nor `null`; `undefined` counts. */
  function SomeFilled(values: seq<JsValue>): (r: bool)
    ensures r <==> exists i :: 0 <= i < |values| && values[i] != Str("") && values[i] != Null
  {
    if |values| == 0 then false
    else (values[0] != Str("") && values[0] != Null) || SomeFilled(values[1..])
  }

  /** `isFormPopulated`: the loaded teacher record is present and one of its values is
      filled in. */
  function IsFormPopulated(teacherData: JsValue): (r: bool)
    ensures r <==>
      Truthy(teacherData)
      && exists i :: 0 <= i < |ObjectValues(teacherData)|
                     && ObjectValues(teacherData)[i] != Str("") && ObjectValues(teacherData)[i] != Null
  {
    Truthy(teacherData) && SomeFilled(ObjectValues(teacherData))
  }

  /** A record whose values are all `''` or `null` is not populated; one holding an
      `undefined` value is. */
  lemma PopulatedExamples()
    ensures !IsFormPopulated(Object([Str(""), Null, Str("")]))
    ensures IsFormPopulated(Object([Str(""), Undefined]))
    ensures !IsFormPopulated(Null)
  {
    assert Object([Str(""), Undefined]).values[1] == Undefined;
  }

  datatype SubmitAction = SaveProfile | UpdateProfile

  /** The submit button: "Update" and the update action for a populated form,
      "Next" and the create action otherwise. */
  function SubmitButton(teacherData: JsValue): (r: (string, SubmitAction))
    ensures r.1 == UpdateProfile <==> IsFormPopulated(teacherData)
    ensures r.0 == "Update" <==> r.1 == UpdateProfile
    ensures r.0 == "Next" <==> r.1 == SaveProfile
  {
    if IsFormPopulated(teacherData) then ("Update", UpdateProfile) else ("Next", SaveProfile)
  }
}

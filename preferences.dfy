/** Reading the voice preferences (`TTSMain.readVoicePreferences`): three
    input lines, for language, country and gender, fill in an initially
    empty preferences object through its setters; a line that does not
    qualify leaves its field unset. */
module Preferences {
  import opened Wrappers
  import opened Text

  datatype Gender = Male | Female

  /** The preferences object: each field is unset (`None`) until its setter
      is called. */
  class VoicePreferences {
    var language: Option<string>
    var country: Option<string>
    var gender: Option<Gender>

    constructor ()
      ensures language == None && country == None && gender == None
    {
      language, country, gender := None, None, None;
    }

    method SetLanguage(l: string)
      modifies this
      ensures language == Some(l)
      ensures country == old(country) && gender == old(gender)
    {
      language := Some(l);
    }

    method SetCountry(c: string)
      modifies this
      ensures country == Some(c)
      ensures language == old(language) && gender == old(gender)
    {
      country := Some(c);
    }

    method SetGender(g: Gender)
      modifies this
      ensures gender == Some(g)
      ensures language == old(language) && country == old(country)
    {
      gender := Some(g);
    }
  }

  /** The language a line asks for: unset when blank, else lower-cased. */
  function LanguagePreference(line: string): (r: Option<string>)
    ensures r.None? <==> line == ""
    ensures r.Some? ==> IsLowerCase(r.value) && EqualsIgnoreCase(r.value, line)
    ensures r == Some(line) <==> line != "" && IsLowerCase(line)
  {
    if |line| > 0 then Some(ToLower(line)) else None
  }

  /** The country a line asks for: unset when blank, else upper-cased. */
  function CountryPreference(line: string): (r: Option<string>)
    ensures r.None? <==> line == ""
    ensures r.Some? ==> IsUpperCase(r.value) && EqualsIgnoreCase(r.value, line)
    ensures r == Some(line) <==> line != "" && IsUpperCase(line)
  {
    if |line| > 0 then Some(ToUpper(line)) else None
  }

  /** The gender a line asks for: "female" or "male" in any case, otherwise
      unset. */
  function GenderPreference(line: string): (r: Option<Gender>)
    ensures r == Some(Female) <==> ToLower(line) == "female"
    ensures r == Some(Male) <==> ToLower(line) == "male"
  {
    EqualsIgnoreCaseIff(line, "female");
    EqualsIgnoreCaseIff(line, "male");
    assert ToLower("female") == "female";
    assert ToLower("male") == "male";
    if EqualsIgnoreCase(line, "female") then Some(Female)
    else if EqualsIgnoreCase(line, "male") then Some(Male)
    else None
  }

  /** `readVoicePreferences` with the three console lines as parameters. */
  method ReadVoicePreferences(languageLine: string, countryLine: string, genderLine: string)
    returns (p: VoicePreferences)
    ensures fresh(p)
    ensures p.language == LanguagePreference(languageLine)
    ensures p.country == CountryPreference(countryLine)
    ensures p.gender == GenderPreference(genderLine)
  {
    p := new VoicePreferences();
    if |languageLine| > 0 {
      p.SetLanguage(ToLower(languageLine));
    }
    if |countryLine| > 0 {
      p.SetCountry(ToUpper(countryLine));
    }
    if EqualsIgnoreCase(genderLine, "female") {
      p.SetGender(Female);
    } else if EqualsIgnoreCase(genderLine, "male") {
      p.SetGender(Male);
    }
  }

  /** Every line that is neither "female" nor "male" in some case, the
      empty one included, leaves the gender unset. */
  lemma GenderCases(line: string)
    ensures GenderPreference(line) == None <==> ToLower(line) != "female" && ToLower(line) != "male"
    ensures GenderPreference("") == None
  {
  }

  /** Normalising is idempotent: feeding a stored preference back in as the
      input line stores it unchanged. */
  lemma NormalisationIdempotent(l: string, c: string)
    ensures LanguagePreference(l).Some? ==> LanguagePreference(LanguagePreference(l).value) == LanguagePreference(l)
    ensures CountryPreference(c).Some? ==> CountryPreference(CountryPreference(c).value) == CountryPreference(c)
  {
  }
}

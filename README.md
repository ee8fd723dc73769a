# A verified model of the jAdapterForNativeTTS console front end

`TTSMain` is the text user interface of jAdapterForNativeTTS. Apart from
console I/O and calls into the native speech engine, it holds four pieces of
self-contained logic, and this project models each of them in Dafny and
proves what it computes:

- **Argument joining** (`concatenateArgs`, module `Arguments`): the
  command-line words are appended to a growing buffer, with a space after
  every word but the last. Modelled as a method with a loop over the
  argument array, proved equal to the specification function `Join`.
  `Join` is then shown to place every word at its offset with exactly one
  space between neighbours, to have the expected length, and to be undone by
  splitting at spaces.
- **Voice selection** (`selectVoice`, module `VoiceSelection`): the
  engine's voice list is filtered on "culture contains `vi-VN`" and any
  match, or `null`, is returned. The list is a parameter, a voice is a
  record of name and culture, and `null` is `None`.
- **Preference normalisation** (`readVoicePreferences`, module
  `Preferences`): three input lines set the language (lower-cased), the
  country (upper-cased) and the gender (`female`/`male` ignoring case) of
  a fresh `VoicePreferences` object through its setters; a blank line or an
  unrecognised gender leaves the field unset.
- **Rate parsing** (`readRateFromUser`, module `Rate`): the line is read
  with `Integer.parseInt` and a `NumberFormatException` gives 0.
  `Integer.parseInt` is modelled digit by digit, with the magnitude checked
  against the `int` limit at every step, so it rejects the same inputs as
  the JDK. It is proved to accept exactly an optional sign followed by one
  or more decimal digits whose value fits in 32 bits, and to give back every
  `int` from its decimal form.

Module `Text` models the `String` services used here: `contains`
(proved to decide whether the pattern occurs at some index), and case
mapping on ASCII. Module `Wrappers` holds `Option`.

Three points of the code's behaviour are easy to misread:
- The rate prompt shows `[-100..100]`, but no range is enforced (`Rate.ReadFiveHundred`).
- `selectVoice` uses `findAny`, so only some match is promised.
- Splitting the joined text at spaces returns the words only when no word contains a space.

As the program is written, only `selectVoice` is ever run. The `TTSMain`
constructor ignores its `args` and calls `sayText` with fixed values.
`concatenateArgs`, `readVoicePreferences` and `readRateFromUser` are private
and called nowhere in the file.

## Model

| member | source | states |
|---|---|---|
| Arguments.ConcatenateArgs | src/main/java/io/github/jonelo/jAdapterForNativeTTS/tui/TTSMain.java:109-119 | the text built by the loop is `Join` of the argument array: the words in order with one space after each but the last |
| Arguments.JoinBaseCases | src/main/java/io/github/jonelo/jAdapterForNativeTTS/tui/TTSMain.java:109-119 | no words give the empty text; a single word comes back unchanged, with no trailing space |
| Arguments.JoinSnoc | src/main/java/io/github/jonelo/jAdapterForNativeTTS/tui/TTSMain.java:112-117 | adding a word after at least one other adds exactly one space and then the word |
| Arguments.JoinLength | src/main/java/io/github/jonelo/jAdapterForNativeTTS/tui/TTSMain.java:112-117 | for n >= 1 words the text is the sum of the word lengths plus n - 1 long |
| Arguments.JoinLayout | src/main/java/io/github/jonelo/jAdapterForNativeTTS/tui/TTSMain.java:112-117 | word k sits at offset (length of the earlier words + k), is followed by one space unless it is the last, and the last word ends the text: no leading or trailing separator |
| Arguments.SplitJoin | src/main/java/io/github/jonelo/jAdapterForNativeTTS/tui/TTSMain.java:112-117 | splitting the joined text at spaces returns the original words when there is at least one word and none contains a space |
| Arguments.JoinSplit | src/main/java/io/github/jonelo/jAdapterForNativeTTS/tui/TTSMain.java:112-117 | joining the pieces of any text split at spaces restores the text, so the separator is exactly one space |
| Text.Contains | src/main/java/io/github/jonelo/jAdapterForNativeTTS/tui/TTSMain.java:104 | `String.contains` holds exactly when the pattern occurs at some index of the string |
| Text.ToLower | src/main/java/io/github/jonelo/jAdapterForNativeTTS/tui/TTSMain.java:77 | the lower-cased form has no upper-case letter, equals the input ignoring case, and leaves an already lower-case string unchanged |
| Text.ToUpper | src/main/java/io/github/jonelo/jAdapterForNativeTTS/tui/TTSMain.java:83 | the upper-cased form has no lower-case letter, equals the input ignoring case, and leaves an already upper-case string unchanged |
| Text.EqualsIgnoreCase | src/main/java/io/github/jonelo/jAdapterForNativeTTS/tui/TTSMain.java:88-90 | two strings are equal ignoring case exactly when they have the same length and their characters agree pairwise once lower-cased |
| Text.EqualsIgnoreCaseIff | src/main/java/io/github/jonelo/jAdapterForNativeTTS/tui/TTSMain.java:88-90 | two strings are equal ignoring case exactly when their lower-case forms are equal |
| VoiceSelection.SelectVoice | src/main/java/io/github/jonelo/jAdapterForNativeTTS/tui/TTSMain.java:101-106 | a returned voice is an element of the list and its culture contains `vi-VN`; nothing is returned exactly when no voice's culture contains `vi-VN` |
| VoiceSelection.SelectFromTwo | src/main/java/io/github/jonelo/jAdapterForNativeTTS/tui/TTSMain.java:104-105 | from an `en-US` and a `vi-VN` voice the `vi-VN` voice is selected |
| VoiceSelection.SelectNone | src/main/java/io/github/jonelo/jAdapterForNativeTTS/tui/TTSMain.java:104-105 | a list with only a `de-DE` voice selects nothing |
| Preferences.VoicePreferences.constructor | src/main/java/io/github/jonelo/jAdapterForNativeTTS/tui/TTSMain.java:72 | a new preferences object has language, country and gender unset |
| Preferences.VoicePreferences.SetLanguage | src/main/java/io/github/jonelo/jAdapterForNativeTTS/tui/TTSMain.java:77 | sets the language and leaves country and gender as they were |
| Preferences.VoicePreferences.SetCountry | src/main/java/io/github/jonelo/jAdapterForNativeTTS/tui/TTSMain.java:83 | sets the country and leaves language and gender as they were |
| Preferences.VoicePreferences.SetGender | src/main/java/io/github/jonelo/jAdapterForNativeTTS/tui/TTSMain.java:88-92 | sets the gender and leaves language and country as they were |
| Preferences.LanguagePreference | src/main/java/io/github/jonelo/jAdapterForNativeTTS/tui/TTSMain.java:74-78 | the language is unset exactly for an empty line; otherwise it is lower case and equal to the line ignoring case, and it is the line itself exactly when the line has no upper-case letter |
| Preferences.CountryPreference | src/main/java/io/github/jonelo/jAdapterForNativeTTS/tui/TTSMain.java:80-84 | the country is unset exactly for an empty line; otherwise it is upper case and equal to the line ignoring case, and it is the line itself exactly when the line has no lower-case letter |
| Preferences.GenderPreference | src/main/java/io/github/jonelo/jAdapterForNativeTTS/tui/TTSMain.java:86-92 | gender is FEMALE exactly when the line lower-cases to `female`, and MALE exactly when it lower-cases to `male` |
| Preferences.GenderCases | src/main/java/io/github/jonelo/jAdapterForNativeTTS/tui/TTSMain.java:86-92 | gender stays unset exactly when the line lower-cases to neither `female` nor `male`; the empty line leaves it unset |
| Preferences.ReadVoicePreferences | src/main/java/io/github/jonelo/jAdapterForNativeTTS/tui/TTSMain.java:70-98 | returns a fresh object whose language, country and gender are the normalised forms of the three lines |
| Preferences.NormalisationIdempotent | src/main/java/io/github/jonelo/jAdapterForNativeTTS/tui/TTSMain.java:74-84 | a stored language or country, read in again as a line, is stored unchanged |
| Rate.Accumulate | src/main/java/io/github/jonelo/jAdapterForNativeTTS/tui/TTSMain.java:63 | reading digits onto a magnitude succeeds exactly when the rest is all digits and the final magnitude stays within the limit, and then yields that magnitude |
| Rate.ParseInt | src/main/java/io/github/jonelo/jAdapterForNativeTTS/tui/TTSMain.java:63 | `Integer.parseInt` succeeds exactly on an optional sign followed by one or more decimal digits whose value is within the 32-bit range, and yields that value |
| Rate.ReadRate | src/main/java/io/github/jonelo/jAdapterForNativeTTS/tui/TTSMain.java:58-67 | a valid 32-bit decimal literal gives its value; every other line gives 0 |
| Rate.ParseFormat | src/main/java/io/github/jonelo/jAdapterForNativeTTS/tui/TTSMain.java:63 | every 32-bit integer is read back from its decimal form |
| Rate.ReadFifty | src/main/java/io/github/jonelo/jAdapterForNativeTTS/tui/TTSMain.java:58-67 | the line `50` gives rate 50 |
| Rate.ReadFiveHundred | src/main/java/io/github/jonelo/jAdapterForNativeTTS/tui/TTSMain.java:58-67 | the line `500` gives rate 500: no clamping to [-100, 100] |
| Rate.ReadMinusHundred | src/main/java/io/github/jonelo/jAdapterForNativeTTS/tui/TTSMain.java:58-67 | the line `-100` gives rate -100 |
| Rate.ReadPlusAndZeros | src/main/java/io/github/jonelo/jAdapterForNativeTTS/tui/TTSMain.java:58-67 | a leading `+` and leading zeros are accepted |
| Rate.ReadMalformed | src/main/java/io/github/jonelo/jAdapterForNativeTTS/tui/TTSMain.java:58-67 | the empty line, `abc`, a lone `-` and a line with a leading space give 0 |
| Rate.ReadAboveRange | src/main/java/io/github/jonelo/jAdapterForNativeTTS/tui/TTSMain.java:58-67 | `2147483648`, one above the largest `int`, gives 0 |
| Rate.ReadBelowRange | src/main/java/io/github/jonelo/jAdapterForNativeTTS/tui/TTSMain.java:58-67 | `-2147483649`, one below the smallest `int`, gives 0 |

## Left out

- Console I/O: the `Scanner` reads become parameters. The prompts, the echo of the preferences, the error message printed for a bad rate, `usage` and `printVoices` are only output.
- `sayText` and the speech engine (`SpeechEngineNative.getInstance`, `getAvailableVoices`, `setVoice`, `setRate`, `say`) are calls into a native library outside this repository. `sayText` picks `say(text, output)` when an output path is given and `say(text)` otherwise. When no voice matches, `voice.getName()` throws a `NullPointerException`, and the catch-all handler prints it. Neither path is modelled beyond this note.
- The `TTSMain` constructor and `main` only pass a fixed WAV path and a fixed sample text to `sayText`.
- `Voice` and `VoicePreferences` belong to the engine package, which is not part of this model. They are minimal here: a name and a culture for a voice, and three optional fields behind setters for preferences. Their `toString` output is not modelled.
- Text.ToLower: maps only ASCII letters, not the full Unicode case mapping of `toLowerCase(Locale.US)`.
- Text.ToUpper: maps only ASCII letters, not the full Unicode case mapping of `toUpperCase(Locale.US)`.
- Text.EqualsIgnoreCase: folds case of ASCII letters only. `equalsIgnoreCase` also folds non-ASCII letters.
- Text.EqualsIgnoreCaseIff: compares case on ASCII letters only. `equalsIgnoreCase` also folds non-ASCII letters.
- Rate.ParseInt: accepts only the ASCII digits `0`-`9`. `Integer.parseInt` also accepts other Unicode decimal digits through `Character.digit`.
- VoiceSelection.SelectVoice: returns the first match where `findAny` may return any match. Its contract promises only "some match", so nothing proved depends on which one.
- The `Scanner` behaviour at end of input (`NoSuchElementException`) is not modelled: every read is assumed to deliver a line.

/** Choosing the voice to speak with (`TTSMain.selectVoice`): the list the
    engine reports is filtered on the voice's culture tag. */
module VoiceSelection {
  import opened Wrappers
  import opened Text

  /** A voice as the engine reports it; only the two fields the front end
      reads are kept. */
  datatype Voice = Voice(name: string, culture: string)

  /** The culture tag the front end looks for. */
  const VietnameseCulture: string := "vi-VN"

  predicate IsVietnamese(v: Voice) {
    Contains(v.culture, VietnameseCulture)
  }

  /** `voices.stream().filter(culture contains "vi-VN").findAny().orElse(null)`,
      with `None` for `null`. The model takes the first match; the contract
      promises only some match, as `findAny` does. */
  function SelectVoice(voices: seq<Voice>): (r: Option<Voice>)
    ensures r.Some? ==> r.value in voices && IsVietnamese(r.value)
    ensures r.None? <==> forall v :: v in voices ==> !IsVietnamese(v)
    decreases |voices|
  {
    if voices == [] then None
    else if IsVietnamese(voices[0]) then Some(voices[0])
    else SelectVoice(voices[1..])
  }

  /** A voice list with an "en-US" and a "vi-VN" voice selects the second. */
  lemma SelectFromTwo()
    ensures SelectVoice([Voice("en", "en-US"), Voice("vi", "vi-VN")]) == Some(Voice("vi", "vi-VN"))
  {
    var en, vi := Voice("en", "en-US"), Voice("vi", "vi-VN");
    assert en.culture[0] != VietnameseCulture[0];
    assert OccursAt(vi.culture, VietnameseCulture, 0);
    assert [en, vi][1..] == [vi];
  }

  /** A list whose only culture is "de-DE" selects nothing. */
  lemma SelectNone()
    ensures SelectVoice([Voice("de", "de-DE")]) == None
  {
    var de := Voice("de", "de-DE");
    assert de.culture[0] != VietnameseCulture[0];
  }
}

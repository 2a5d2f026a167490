/** The three moods a user reports before studying: `'low' | 'moderate' | 'high'`. */
module Moods {
  import opened Js

  datatype Mood = Low | Moderate | High

  function MoodName(m: Mood): string {
    match m
    case Low => "low"
    case Moderate => "moderate"
    case High => "high"
  }

  /**
   * A body field read as a mood: `v && ['low', 'moderate', 'high'].includes(v)`
   * holds exactly of the three names.
   */
  function ParseMood(v: Value): (r: Option<Mood>)
    ensures r.Some? <==> v == Str("low") || v == Str("moderate") || v == Str("high")
    ensures r.Some? ==> v == Str(MoodName(r.value))
  {
    if v == Str("low") then Some(Low)
    else if v == Str("moderate") then Some(Moderate)
    else if v == Str("high") then Some(High)
    else None
  }

  lemma ParseMoodName(m: Mood)
    ensures ParseMood(Str(MoodName(m))) == Some(m)
  {
  }
}

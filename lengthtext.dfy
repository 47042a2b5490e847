/**
 * The two ends of a media length: the web layer prints it with `duration`
 * and the search result parser reads "M:SS" and "H:MM:SS" back.
 */
module LengthText {
  import opened Wrappers
  import opened Text
  import Web
  import YoutubeSearch

  /**
   * Every non-negative length printed by `duration` that time.ParseDuration can
   * hold is read back as the same number of seconds.
   */
  lemma DurationReadBack(seconds: int)
    requires 0 <= seconds <= YoutubeSearch.MaxLengthSeconds
    ensures YoutubeSearch.ParseLength(Web.Duration(seconds)) == Success(seconds)
  {
    Web.DurationFields(seconds);
    var h := Web.Hours(seconds);
    var m := Web.Minutes(seconds);
    var s := Web.Secs(seconds);
    Web.Pad2Digits(m);
    Web.Pad2Digits(s);
    if h > 0 {
      DigitsRoundTrip(h);
      assert IntToString(h) == NatToString(h);
      YoutubeSearch.ParseLengthHours(NatToString(h), Web.Pad2(m), Web.Pad2(s));
      assert YoutubeSearch.Seconds(h, m, s) == seconds;
    } else {
      DigitsRoundTrip(m);
      assert IntToString(m) == NatToString(m);
      YoutubeSearch.ParseLengthMinutes(NatToString(m), Web.Pad2(s));
      assert YoutubeSearch.Seconds(0, m, s) == seconds;
    }
  }
}

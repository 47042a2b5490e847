/**
 * Result extraction of the youtube package's Search: the renderers of the
 * first result section become videos, with the length text read as
 * "M:S" or "H:M:S". Fetching the page and finding the embedded JSON are
 * inputs (`ytd`).
 */
module YoutubeSearch {
  import opened Wrappers
  import opened GoInt
  import opened Text
  import opened Seqs
  import YoutubeVideo

  /** The three renderer fields Search reads. */
  datatype Renderer = Renderer(videoId: string, title: string, lengthText: string)

  /** The number of seconds in h hours, m minutes and s seconds. */
  function Seconds(h: nat, m: nat, s: nat): nat { h * 3600 + m * 60 + s }

  /** time.Duration units: a duration is an int64 count of nanoseconds. */
  const Millisecond: nat := 1_000_000
  const Second: nat := 1_000_000_000

  /** The largest number of whole seconds an int64 count of nanoseconds holds. */
  const MaxLengthSeconds: nat := 9_223_372_036

  /** A '-' in front of the first field, which time.ParseDuration reads as the sign of the whole text. */
  predicate Negative(field: string) { |field| > 0 && field[0] == '-' }

  /** The first field without the one leading sign time.ParseDuration accepts. */
  function Unsigned(field: string): (r: string)
    ensures |field| > 0 && field[0] != '+' && field[0] != '-' ==> r == field
  {
    if |field| > 0 && (field[0] == '+' || field[0] == '-') then field[1..] else field
  }

  /**
   * The nanoseconds the rewritten text "MmSs" or "HhMmSs" names, its sign
   * aside, or None when time.ParseDuration rejects it. An empty last field
   * leaves "Mms" or "HhMms": the minutes field read as milliseconds.
   */
  function UnsignedNanos(f: seq<string>): Option<nat>
    requires |f| == 2 || |f| == 3
  {
    var first := Unsigned(f[0]);
    var last := f[|f| - 1];
    if !IsDigits(first) || (|f| == 3 && !IsDigits(f[1])) then None
    else if |f| == 2 then
      if IsDigits(last) then Some(Seconds(0, DigitsValue(first), DigitsValue(last)) * Second)
      else if last == "" then Some(DigitsValue(first) * Millisecond)
      else None
    else
      if IsDigits(last) then Some(Seconds(DigitsValue(first), DigitsValue(f[1]), DigitsValue(last)) * Second)
      else if last == "" then Some(DigitsValue(first) * 3600 * Second + DigitsValue(f[1]) * Millisecond)
      else None
  }

  /**
   * The length closure: split on ':', rewrite as "MmSs" or "HhMmSs", read it
   * with time.ParseDuration, which fails when the nanoseconds overflow an
   * int64, and truncate the duration to whole seconds.
   */
  function ParseLength(text: string): (r: Result<int, string>)
    ensures r.Success? ==> -(MaxLengthSeconds as int) <= r.value <= MaxLengthSeconds
  {
    var f := Split(text, ':');
    if |f| != 2 && |f| != 3 then Failure("invalid length text in ytdata")
    else
      var neg := Negative(f[0]);
      match UnsignedNanos(f)
      case None => Failure("time: invalid duration")
      case Some(n) =>
        if n > (if neg then MaxInt64 + 1 else MaxInt64) then Failure("time: invalid duration")
        else Success(if neg then -(n / Second) else n / Second)
  }

  /** A whole number of seconds fits the int64 nanoseconds exactly up to MaxLengthSeconds. */
  lemma WholeSeconds(x: nat)
    ensures (x * Second) / Second == x
    ensures x * Second <= MaxInt64 <==> x <= MaxLengthSeconds
    ensures x * Second <= MaxInt64 + 1 <==> x <= MaxLengthSeconds
  {
  }

  /** Without a leading '-' the length read is never negative. */
  lemma ParseLengthNonNegative(text: string)
    requires |text| == 0 || text[0] != '-'
    ensures ParseLength(text).Success? ==> ParseLength(text).value >= 0
  {
    SplitHead(text, ':');
  }

  /** Field counts other than two or three are rejected, whatever the fields hold. */
  lemma ParseLengthFieldCount(text: string)
    requires Count(text, ':') != 1 && Count(text, ':') != 2
    ensures ParseLength(text) == Failure("invalid length text in ytdata")
  {
    SplitCount(text, ':');
  }

  lemma SplitTwo(a: string, b: string, c: char)
    requires c !in a && c !in b
    ensures Split(a + [c] + b, c) == [a, b]
  {
    SplitFree(b, c);
    SplitCons(a, b, c);
  }

  lemma SplitThree(a: string, b: string, d: string, c: char)
    requires c !in a && c !in b && c !in d
    ensures Split(a + [c] + (b + [c] + d), c) == [a, b, d]
  {
    SplitTwo(b, d, c);
    SplitCons(a, b + [c] + d, c);
  }

  /** "M:S" reads as M*60+S seconds, unless that overflows the int64 nanoseconds. */
  lemma ParseLengthMinutes(m: string, s: string)
    requires IsDigits(m) && IsDigits(s)
    ensures var secs := Seconds(0, DigitsValue(m), DigitsValue(s));
      ParseLength(m + ":" + s) == if secs <= MaxLengthSeconds then Success(secs) else Failure("time: invalid duration")
  {
    DigitsHaveNo(m, ':');
    DigitsHaveNo(s, ':');
    SplitTwo(m, s, ':');
    assert m + ":" + s == m + [':'] + s;
    ParseTwoFields(m + ":" + s, m, s);
  }

  lemma ParseTwoFields(text: string, m: string, s: string)
    requires IsDigits(m) && IsDigits(s)
    requires Split(text, ':') == [m, s]
    ensures var secs := Seconds(0, DigitsValue(m), DigitsValue(s));
      ParseLength(text) == if secs <= MaxLengthSeconds then Success(secs) else Failure("time: invalid duration")
  {
    NanosTwo(m, m, s);
    WholeSeconds(Seconds(0, DigitsValue(m), DigitsValue(s)));
  }

  /** The nanoseconds of two digit fields, the first possibly signed. */
  lemma NanosTwo(first: string, m: string, s: string)
    requires Unsigned(first) == m && IsDigits(m) && IsDigits(s)
    ensures UnsignedNanos([first, s]) == Some(Seconds(0, DigitsValue(m), DigitsValue(s)) * Second)
  {
  }

  /** "H:M:S" reads as H*3600+M*60+S seconds, unless that overflows the int64 nanoseconds. */
  lemma ParseLengthHours(h: string, m: string, s: string)
    requires IsDigits(h) && IsDigits(m) && IsDigits(s)
    ensures var secs := Seconds(DigitsValue(h), DigitsValue(m), DigitsValue(s));
      ParseLength(h + ":" + m + ":" + s) == if secs <= MaxLengthSeconds then Success(secs) else Failure("time: invalid duration")
  {
    DigitsHaveNo(h, ':');
    DigitsHaveNo(m, ':');
    DigitsHaveNo(s, ':');
    SplitHours(h, m, s);
    ParseThreeFields(h + ":" + m + ":" + s, h, m, s);
  }

  lemma SplitHours(h: string, m: string, s: string)
    requires ':' !in h && ':' !in m && ':' !in s
    ensures Split(h + ":" + m + ":" + s, ':') == [h, m, s]
  {
    JoinThree(h, m, s, ':');
    SplitThree(h, m, s, ':');
  }

  lemma ParseThreeFields(text: string, h: string, m: string, s: string)
    requires IsDigits(h) && IsDigits(m) && IsDigits(s)
    requires Split(text, ':') == [h, m, s]
    ensures var secs := Seconds(DigitsValue(h), DigitsValue(m), DigitsValue(s));
      ParseLength(text) == if secs <= MaxLengthSeconds then Success(secs) else Failure("time: invalid duration")
  {
    NanosThree(h, m, s);
    WholeSeconds(Seconds(DigitsValue(h), DigitsValue(m), DigitsValue(s)));
  }

  lemma NanosThree(h: string, m: string, s: string)
    requires IsDigits(h) && IsDigits(m) && IsDigits(s)
    ensures !Negative(h)
    ensures UnsignedNanos([h, m, s]) == Some(Seconds(DigitsValue(h), DigitsValue(m), DigitsValue(s)) * Second)
  {
    assert Unsigned(h) == h;
  }

  /** A leading sign is the sign of the length: "-M:S" reads as -(M*60+S) seconds. */
  lemma ParseLengthSigned(sign: char, m: string, s: string)
    requires sign == '+' || sign == '-'
    requires IsDigits(m) && IsDigits(s)
    requires Seconds(0, DigitsValue(m), DigitsValue(s)) <= MaxLengthSeconds
    ensures var secs := Seconds(0, DigitsValue(m), DigitsValue(s)) as int;
      ParseLength([sign] + m + ":" + s) == Success(if sign == '-' then -secs else secs)
  {
    SplitSigned(sign, m, s);
    ParseSignedFields([sign] + m + ":" + s, sign, m, s);
  }

  lemma SplitSigned(sign: char, m: string, s: string)
    requires sign == '+' || sign == '-'
    requires IsDigits(m) && IsDigits(s)
    ensures Split([sign] + m + ":" + s, ':') == [[sign] + m, s]
  {
    var first := [sign] + m;
    DigitsHaveNo(m, ':');
    DigitsHaveNo(s, ':');
    assert ':' !in first by {
      assert forall i :: 1 <= i < |first| ==> first[i] == m[i - 1];
    }
    SplitTwo(first, s, ':');
    assert [sign] + m + ":" + s == first + [':'] + s;
  }

  lemma ParseSignedFields(text: string, sign: char, m: string, s: string)
    requires sign == '+' || sign == '-'
    requires IsDigits(m) && IsDigits(s)
    requires Seconds(0, DigitsValue(m), DigitsValue(s)) <= MaxLengthSeconds
    requires Split(text, ':') == [[sign] + m, s]
    ensures var secs := Seconds(0, DigitsValue(m), DigitsValue(s)) as int;
      ParseLength(text) == Success(if sign == '-' then -secs else secs)
  {
    var first := [sign] + m;
    assert first[1..] == m;
    assert Unsigned(first) == m && (Negative(first) <==> sign == '-');
    NanosTwo(first, m, s);
    WholeSeconds(Seconds(0, DigitsValue(m), DigitsValue(s)));
  }

  /** An empty seconds field leaves "Mms": the minutes are read as milliseconds and truncate to whole seconds. */
  lemma ParseLengthMillis(m: string)
    requires IsDigits(m)
    requires DigitsValue(m) * Millisecond <= MaxInt64
    ensures ParseLength(m + ":") == Success(DigitsValue(m) / 1000)
  {
    DigitsHaveNo(m, ':');
    SplitCons(m, "", ':');
    SplitFree("", ':');
    assert m + ":" == m + [':'] + "";
    assert Unsigned(m) == m && !Negative(m);
    assert (DigitsValue(m) * Millisecond) / Second == DigitsValue(m) / 1000;
  }

  function Thumbnail(id: string): string { "https://i.ytimg.com/vi/" + id + "/hqdefault.jpg" }

  /**
   * The videos extracted from one section, in order: a renderer without an id
   * is skipped, one with an id but no title fails the whole search, and one
   * whose length does not parse is skipped.
   */
  function Extract(contents: seq<Renderer>): Result<seq<YoutubeVideo.Video>, string>
  {
    if |contents| == 0 then Success([])
    else
      var rest := Extract(contents[..|contents| - 1]);
      var c := contents[|contents| - 1];
      if rest.Failure? then rest
      else if c.videoId == "" then rest
      else if c.title == "" then Failure("failed to find Title in ytdata")
      else
        var length := ParseLength(c.lengthText);
        if length.Failure? then rest
        else Success(rest.value + [Found(c, length.value)])
  }

  /** The video a renderer with an id, a title and a parsed length becomes. */
  function Found(c: Renderer, length: int): YoutubeVideo.Video
  {
    YoutubeVideo.Video(c.videoId, c.title, "", Thumbnail(c.videoId), 0, length, [])
  }

  /** A video that Search returns. */
  predicate WellFormed(v: YoutubeVideo.Video)
  {
    v.id != "" && v.title != "" && v.thumbnail == Thumbnail(v.id) &&
    -(MaxLengthSeconds as int) <= v.length <= MaxLengthSeconds
  }

  /** Every extracted video has an id, a title, its hq thumbnail URL and a parsed length. */
  lemma {:induction false} ExtractWellFormed(contents: seq<Renderer>)
    ensures Extract(contents).Success? ==>
      forall i :: 0 <= i < |Extract(contents).value| ==> WellFormed(Extract(contents).value[i])
  {
    if |contents| > 0 {
      var init := contents[..|contents| - 1];
      ExtractWellFormed(init);
      var r := Extract(contents);
      var ri := Extract(init);
      if r.Success? {
        assert ri.Success?;
        forall i | 0 <= i < |r.value| ensures WellFormed(r.value[i]) {
          if i < |ri.value| {
            assert r.value[i] == ri.value[i];
          }
        }
      }
    }
  }

  /** When no length text carries a '-', every extracted length is non-negative. */
  lemma {:induction false} ExtractNonNegative(contents: seq<Renderer>)
    requires forall i :: 0 <= i < |contents| ==> |contents[i].lengthText| == 0 || contents[i].lengthText[0] != '-'
    ensures Extract(contents).Success? ==>
      forall i :: 0 <= i < |Extract(contents).value| ==> Extract(contents).value[i].length >= 0
  {
    if |contents| > 0 {
      var init := contents[..|contents| - 1];
      var c := contents[|contents| - 1];
      ExtractNonNegative(init);
      ParseLengthNonNegative(c.lengthText);
      ExtractSnoc(contents);
    }
  }

  /** The last renderer adds at most one video, built from itself, to what the others give. */
  lemma ExtractSnoc(contents: seq<Renderer>)
    requires |contents| > 0
    ensures var init := contents[..|contents| - 1];
      var c := contents[|contents| - 1];
      Extract(contents).Success? ==>
        && Extract(init).Success?
        && (|| Extract(contents).value == Extract(init).value
            || (&& ParseLength(c.lengthText).Success?
                && Extract(contents).value == Extract(init).value + [Found(c, ParseLength(c.lengthText).value)]))
  {
  }

  /** Extraction runs renderer by renderer: it distributes over concatenation and a failure is final. */
  lemma {:induction false} ExtractAppend(a: seq<Renderer>, b: seq<Renderer>)
    ensures Extract(a).Failure? ==> Extract(a + b) == Extract(a)
    ensures Extract(a).Success? && Extract(b).Success? ==>
      Extract(a + b) == Success(Extract(a).value + Extract(b).value)
    ensures Extract(a).Success? && Extract(b).Failure? ==> Extract(a + b).Failure?
    decreases |b|
  {
    if |b| == 0 {
      assert a + b == a;
      if Extract(a).Success? {
        assert Extract(a).value + [] == Extract(a).value;
      }
    } else {
      var b' := b[..|b| - 1];
      var c := b[|b| - 1];
      ExtractAppend(a, b');
      assert (a + b)[..|a + b| - 1] == a + b';
      assert (a + b)[|a + b| - 1] == c;
      if Extract(a).Success? && Extract(b').Success? {
        var ea := Extract(a).value;
        var eb' := Extract(b').value;
        if c.videoId != "" && c.title != "" && ParseLength(c.lengthText).Success? {
          var v := Found(c, ParseLength(c.lengthText).value);
          assert ea + eb' + [v] == ea + (eb' + [v]);
        }
      }
    }
  }

  /** A renderer with an id and an empty title anywhere fails the whole search. */
  lemma EmptyTitleFails(contents: seq<Renderer>, i: int)
    requires 0 <= i < |contents|
    requires contents[i].videoId != "" && contents[i].title == ""
    ensures Extract(contents).Failure?
  {
    var pre := contents[..i + 1];
    assert pre[|pre| - 1] == contents[i];
    LastTitleEmpty(pre);
    FailureIsFinal(contents, i + 1);
  }

  /** Once a prefix fails, the whole extraction fails. */
  lemma {:induction false} FailureIsFinal(contents: seq<Renderer>, k: int)
    requires 0 <= k <= |contents| && Extract(contents[..k]).Failure?
    ensures Extract(contents).Failure?
    decreases |contents|
  {
    if k == |contents| {
      assert contents[..k] == contents;
    } else {
      var init := contents[..|contents| - 1];
      assert init[..k] == contents[..k];
      FailureIsFinal(init, k);
    }
  }

  /** A prefix ending in a renderer with an id and no title fails. */
  lemma LastTitleEmpty(contents: seq<Renderer>)
    requires |contents| > 0
    requires contents[|contents| - 1].videoId != "" && contents[|contents| - 1].title == ""
    ensures Extract(contents).Failure?
  {
  }

  /**
   * Search after the page has been fetched and its data decoded (`ytd` holds
   * the section list, or the error met on the way): an empty section list is an
   * error, and only the first section is scanned.
   */
  method Search(ytd: Result<seq<seq<Renderer>>, string>) returns (r: Result<seq<YoutubeVideo.Video>, string>)
    ensures ytd.Failure? ==> r == Failure(ytd.error)
    ensures ytd.Success? && |ytd.value| == 0 ==> r == Failure("failed to find contents containter in ytdata")
    ensures ytd.Success? && |ytd.value| > 0 ==> r == Extract(ytd.value[0])
  {
    if ytd.Failure? {
      return Failure(ytd.error);
    }
    var container := ytd.value;
    if |container| == 0 {
      return Failure("failed to find contents containter in ytdata");
    }
    var contents := container[0];
    var videos: seq<YoutubeVideo.Video> := [];
    for i := 0 to |contents|
      invariant Extract(contents[..i]) == Success(videos)
    {
      assert contents[..i + 1][..i] == contents[..i];
      var vr := contents[i];
      var id := vr.videoId;
      if id == "" {
        continue;
      }
      var title := vr.title;
      if title == "" {
        ExtractAppend(contents[..i + 1], contents[i + 1..]);
        assert contents[..i + 1] + contents[i + 1..] == contents;
        return Failure("failed to find Title in ytdata");
      }
      var length := ParseLength(vr.lengthText);
      if length.Failure? {
        continue;
      }
      videos := videos + [Found(vr, length.value)];
    }
    assert contents[..|contents|] == contents;
    return Success(videos);
  }
}

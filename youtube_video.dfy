/**
 * The youtube package's video record: where a video's files go, how a user
 * supplied id or URL becomes a video id, and how the stream list is assembled
 * from the decoded `url_encoded_fmt_stream_map`.
 */
module YoutubeVideo {
  import opened Wrappers
  import opened Text
  import opened GoInt
  import opened Seqs
  import Archive

  /** newStream is not part of this model: a stream is the pair it was built from. */
  datatype Stream = Stream(itag: int, url: string)

  /** A video; rating and timestamp are not modelled. */
  datatype Video = Video(id: string, title: string, author: string, thumbnail: string,
                         views: int, length: int, streams: seq<Stream>)

  function Filename(dir: string, v: Video): string { PathJoin(dir, v.id + ".mp4") }
  function ThumbnailFilename(dir: string, v: Video): string { PathJoin(dir, v.id + ".jpg") }
  function JsonFilename(dir: string, v: Video): string { PathJoin(dir, v.id + ".json") }

  lemma LastCharsDiffer(b: string, x: string, y: string)
    requires |x| > 0 && |y| > 0 && x[|x| - 1] != y[|y| - 1]
    ensures b + x != b + y
  {
    assert (b + x)[|b + x| - 1] == x[|x| - 1];
    assert (b + y)[|b + y| - 1] == y[|y| - 1];
  }

  /**
   * The video, thumbnail and JSON files of a video are three different files,
   * and the first two are the names the archiver gives a job for the same id.
   */
  lemma VideoFilesDistinct(dir: string, v: Video)
    ensures Filename(dir, v) != ThumbnailFilename(dir, v)
    ensures Filename(dir, v) != JsonFilename(dir, v)
    ensures ThumbnailFilename(dir, v) != JsonFilename(dir, v)
    ensures Filename(dir, v) == Archive.VideoPath(dir, v.id)
    ensures ThumbnailFilename(dir, v) == Archive.ImagePath(dir, v.id)
  {
    var b := PathJoin(dir, v.id);
    PathJoinSuffix(dir, v.id, ".mp4");
    PathJoinSuffix(dir, v.id, ".jpg");
    PathJoinSuffix(dir, v.id, ".json");
    LastCharsDiffer(b, ".mp4", ".jpg");
    LastCharsDiffer(b, ".mp4", ".json");
    LastCharsDiffer(b, ".jpg", ".json");
  }

  /** Video.Download refuses a video without streams before any network or file action. */
  function DownloadGuard(v: Video): (err: Option<string>)
    ensures err.Some? <==> |v.streams| == 0
    ensures err.Some? ==> err.value == "no streams"
  {
    if |v.streams| == 0 then Some("no streams") else None
  }

  // ------------------------------------------------------------ video ids

  /** The parts of a parsed URL that GetVideo looks at: host, path and the `v` query value. */
  datatype Url = Url(host: string, path: string, queryV: string)

  /**
   * The id GetVideo requests. A raw id that does not start with "http" is used
   * as it is; otherwise the parsed URL decides: youtube.com (with or without
   * "www.") takes `v`, or the path without a leading "/v/"; youtu.be takes the
   * path as it is; any other host keeps the raw string. `parsed` is url.Parse's
   * answer for the raw string.
   */
  function VideoId(raw: string, parsed: Result<Url, string>): (r: Result<string, string>)
    ensures r.Success? ==> r.value != ""
  {
    if !HasPrefix(raw, "http") then
      if raw == "" then Failure("invalid video ID " + Quote(raw)) else Success(raw)
    else if parsed.Failure? then Failure(parsed.error)
    else
      var u := parsed.value;
      var host := TrimPrefix(u.host, "www.");
      var id :=
        if host == "youtube.com" then (if u.queryV != "" then u.queryV else TrimPrefix(u.path, "/v/"))
        else if host == "youtu.be" then u.path
        else raw;
      if id == "" then Failure("invalid video ID " + Quote(raw)) else Success(id)
  }

  /** The id extraction case by case, for well-formed URLs. */
  lemma VideoIdCases(raw: string, u: Url)
    ensures !HasPrefix(raw, "http") && raw != "" ==> VideoId(raw, Success(u)) == Success(raw)
    ensures HasPrefix(raw, "http") && u.host in {"youtube.com", "www.youtube.com"} && u.queryV != "" ==>
      VideoId(raw, Success(u)) == Success(u.queryV)
    ensures HasPrefix(raw, "http") && u.host in {"youtube.com", "www.youtube.com"} && u.queryV == "" ==>
      VideoId(raw, Success(u)) == (if TrimPrefix(u.path, "/v/") == "" then Failure("invalid video ID " + Quote(raw))
                                  else Success(TrimPrefix(u.path, "/v/")))
    ensures HasPrefix(raw, "http") && u.host in {"youtu.be", "www.youtu.be"} && u.path != "" ==>
      VideoId(raw, Success(u)) == Success(u.path)
    ensures HasPrefix(raw, "http") && TrimPrefix(u.host, "www.") !in {"youtube.com", "youtu.be"} ==>
      VideoId(raw, Success(u)) == Success(raw)
    ensures raw == "" ==> VideoId(raw, Success(u)).Failure?
  {
    if HasPrefix(raw, "http") {
      assert raw != "";
      var w := "www.";
      if u.host == "www.youtube.com" {
        assert HasPrefix(u.host, w) && u.host == w + "youtube.com";
      }
      if u.host == "www.youtu.be" {
        assert HasPrefix(u.host, w) && u.host == w + "youtu.be";
      }
      if u.host == "youtube.com" || u.host == "youtu.be" {
        assert !HasPrefix(u.host, w) by { assert u.host[..4][0] == 'y'; }
      }
    }
  }

  /** The raw text is quoted as `%q` does: a double quote in it is escaped. */
  lemma VideoIdQuoted(p: string, u: Url)
    requires HasPrefix(p, "http") && forall i :: 0 <= i < |p| ==> Plain(p[i])
    requires u.host == "youtube.com" && u.queryV == "" && TrimPrefix(u.path, "/v/") == ""
    ensures VideoId(p + "\"", Success(u)) == Failure("invalid video ID \"" + p + "\\\"\"")
  {
    var raw := p + "\"";
    assert HasPrefix(raw, "http") by { assert raw[..4] == p[..4]; }
    VideoIdCases(raw, u);
    QuoteTrailingQuote(p);
    assert "invalid video ID " + ("\"" + p + "\\\"\"") == ("invalid video ID " + "\"") + p + "\\\"\"";
    assert "invalid video ID " + "\"" == "invalid video ID \"";
  }

  // ------------------------------------------------------------ streams

  /**
   * strconv.Atoi on a 64-bit platform, with GetVideo's wrapping of its error
   * (`*strconv.NumError` prints `strconv.Atoi: parsing <quoted input>: <reason>`).
   * Atoi's short-input path and ParseInt agree on every outcome, and both name
   * the whole input in the error.
   */
  function Atoi(s: string): (r: Result<int, string>)
    ensures r.Success? <==> ParseInt64(s).Parsed?
    ensures r.Success? ==> r.value == ParseInt64(s).value
    ensures r.Failure? ==>
              r.error == "parsing itag failed: strconv.Atoi: parsing " + Quote(s) +
                         (if ParseInt64(s).RangeError? then ": value out of range" else ": invalid syntax")
  {
    var p := ParseInt64(s);
    if p.Parsed? then Success(p.value)
    else
      Failure("parsing itag failed: strconv.Atoi: parsing " + Quote(s) +
        (if p.RangeError? then ": value out of range" else ": invalid syntax"))
  }

  lemma AtoiOutcome(s: string)
    ensures Atoi(s).Success? <==> ParseInt64(s).Parsed?
    ensures Atoi(s).Success? ==> Atoi(s).value == ParseInt64(s).value
  {
  }

  /** A non-numeric itag is reported with strconv's syntax error, the input in double quotes. */
  lemma AtoiSyntaxError(s: string)
    requires ParseInt64(s).SyntaxError?
    requires forall i :: 0 <= i < |s| ==> Plain(s[i])
    ensures Atoi(s) == Failure("parsing itag failed: strconv.Atoi: parsing \"" + s + "\": invalid syntax")
  {
    QuotePlain(s);
    Bracketed("parsing itag failed: strconv.Atoi: parsing ", '\"', s, ": invalid syntax");
    assert "parsing itag failed: strconv.Atoi: parsing " + "\"" == "parsing itag failed: strconv.Atoi: parsing \"";
    assert "\"" + ": invalid syntax" == "\": invalid syntax";
  }

  /** "4x" is not a number: Atoi stops at the 'x'. */
  lemma FourXIsSyntaxError()
    ensures ParseInt64("4x") == SyntaxError
  {
    assert DigitRun("4x") == 1;
    assert "4x"[..1] == "4";
    assert DigitsValue("4") == 4;
  }

  /** An itag whose digits pass 2^64-1 is out of range, whatever follows. */
  lemma AtoiOutOfRange(d: string, rest: string)
    requires IsDigits(d) && DigitsValue(d) > MaxUint64
    ensures Atoi(d + rest) == Failure("parsing itag failed: strconv.Atoi: parsing " + Quote(d + rest) + ": value out of range")
  {
    var s := d + rest;
    assert "" + s == s && s[0] == d[0];
    ParseIntSign("", s);
    RunOverflows(d, rest);
  }

  /** Every value passed through the URL fix-up (a regular expression, an input here). */
  function FixAll(vs: seq<string>, fix: string -> string): seq<string>
  {
    seq(|vs|, i requires 0 <= i < |vs| => fix(vs[i]))
  }

  /** Parse every value in order with `parse`; the first failure wins. */
  function ParseEach(vs: seq<string>, parse: string -> Result<int, string>): Result<seq<int>, string>
  {
    if |vs| == 0 then Success([])
    else
      var rest := ParseEach(vs[..|vs| - 1], parse);
      if rest.Failure? then rest
      else
        var last := parse(vs[|vs| - 1]);
        if last.Failure? then Failure(last.error) else Success(rest.value + [last.value])
  }

  /** Parse every itag value with Atoi. */
  function ParseItags(vs: seq<string>): Result<seq<int>, string>
  {
    ParseEach(vs, Atoi)
  }

  /** On success, one result per value, each the value's own parse. */
  lemma {:induction false} ParseEachValues(vs: seq<string>, parse: string -> Result<int, string>)
    ensures ParseEach(vs, parse).Success? <==> forall i :: 0 <= i < |vs| ==> parse(vs[i]).Success?
    ensures ParseEach(vs, parse).Success? ==>
      |ParseEach(vs, parse).value| == |vs| &&
      forall i :: 0 <= i < |vs| ==> ParseEach(vs, parse).value[i] == parse(vs[i]).value
  {
    if |vs| > 0 {
      var init := vs[..|vs| - 1];
      ParseEachValues(init, parse);
      assert forall i :: 0 <= i < |init| ==> init[i] == vs[i];
    }
  }

  /** On success, one itag per value, each the value's decimal reading. */
  lemma ParseItagsValues(vs: seq<string>)
    ensures ParseItags(vs).Success? <==> forall i :: 0 <= i < |vs| ==> ParseInt64(vs[i]).Parsed?
    ensures ParseItags(vs).Success? ==>
      |ParseItags(vs).value| == |vs| &&
      forall i :: 0 <= i < |vs| ==> ParseItags(vs).value[i] == ParseInt64(vs[i]).value
  {
    ParseEachValues(vs, Atoi);
    forall i | 0 <= i < |vs|
      ensures Atoi(vs[i]).Success? <==> ParseInt64(vs[i]).Parsed?
      ensures Atoi(vs[i]).Success? ==> Atoi(vs[i]).value == ParseInt64(vs[i]).value
    {
      AtoiOutcome(vs[i]);
    }
  }

  /** Pair the first `n` itags and urls through newStream; the first failure wins. */
  function BuildStreams(itags: seq<int>, urls: seq<string>, n: nat, newStream: (int, string) -> Result<Stream, string>): Result<seq<Stream>, string>
    requires n <= |itags| && n <= |urls|
  {
    if n == 0 then Success([])
    else
      var rest := BuildStreams(itags, urls, n - 1, newStream);
      if rest.Failure? then rest
      else
        var s := newStream(itags[n - 1], urls[n - 1]);
        if s.Failure? then Failure(s.error) else Success(rest.value + [s.value])
  }

  /** On success there are exactly `n` streams, the i-th built from the i-th itag and url. */
  lemma {:induction false} BuildStreamsValues(itags: seq<int>, urls: seq<string>, n: nat, newStream: (int, string) -> Result<Stream, string>)
    requires n <= |itags| && n <= |urls|
    ensures BuildStreams(itags, urls, n, newStream).Success? <==>
      forall i :: 0 <= i < n ==> newStream(itags[i], urls[i]).Success?
    ensures BuildStreams(itags, urls, n, newStream).Success? ==>
      |BuildStreams(itags, urls, n, newStream).value| == n &&
      forall i :: 0 <= i < n ==> BuildStreams(itags, urls, n, newStream).value[i] == newStream(itags[i], urls[i]).value
  {
    if n > 0 {
      BuildStreamsValues(itags, urls, n - 1, newStream);
    }
  }

  /**
   * The streams GetVideo ends with: the fixed-up "url" values and the parsed
   * "itag" values (an absent key gives none), paired up to the shorter list.
   */
  function StreamsOf(streamMap: map<string, seq<string>>, fix: string -> string,
                     newStream: (int, string) -> Result<Stream, string>): Result<seq<Stream>, string>
  {
    var urls := if "url" in streamMap then FixAll(streamMap["url"], fix) else [];
    var itags := if "itag" in streamMap then ParseItags(FixAll(streamMap["itag"], fix)) else Success([]);
    if itags.Failure? then Failure(itags.error)
    else
      var n := if |itags.value| < |urls| then |itags.value| else |urls|;
      BuildStreams(itags.value, urls, n, newStream)
  }

  /**
   * The stream loop of GetVideo. Keys come in map order, which Go leaves
   * unspecified; whatever the order, the result is StreamsOf. Each value is
   * inserted at its own index, which is always the current length.
   */
  method AssembleStreams(streamMap: map<string, seq<string>>, fix: string -> string,
                         newStream: (int, string) -> Result<Stream, string>) returns (r: Result<seq<Stream>, string>)
    ensures r == StreamsOf(streamMap, fix, newStream)
  {
    var urls: seq<string> := [];
    var itags: seq<int> := [];
    var keys := streamMap.Keys;
    while keys != {}
      invariant keys <= streamMap.Keys
      invariant urls == if "url" in streamMap && "url" !in keys then FixAll(streamMap["url"], fix) else []
      invariant "itag" in streamMap && "itag" !in keys ==> ParseItags(FixAll(streamMap["itag"], fix)) == Success(itags)
      invariant !("itag" in streamMap && "itag" !in keys) ==> itags == []
      decreases |keys|
    {
      var key :| key in keys;
      var values := streamMap[key];
      if key == "url" {
        urls := ReadUrls(values, fix);
      } else if key == "itag" {
        var parsed := ReadItags(values, fix);
        if parsed.Failure? {
          return Failure(parsed.error);
        }
        itags := parsed.value;
      }
      keys := keys - {key};
    }
    var count := |urls|;
    if |itags| < count {
      count := |itags|;
    }
    r := PairStreams(itags, urls, count, newStream);
  }

  /** The "url" branch of the stream loop: each fixed-up value inserted at its own index. */
  method ReadUrls(values: seq<string>, fix: string -> string) returns (urls: seq<string>)
    ensures urls == FixAll(values, fix)
  {
    urls := [];
    for i := 0 to |values|
      invariant urls == FixAll(values[..i], fix)
    {
      var v := fix(values[i]);
      assert |urls| == i;
      InsertAtEnd(urls, i, v);
      urls := urls[..i] + [v] + urls[i..];
      assert FixAll(values[..i + 1], fix) == FixAll(values[..i], fix) + [v];
    }
    assert values[..|values|] == values;
  }

  /** The "itag" branch of the stream loop: each value parsed and inserted at its own index; a bad one ends GetVideo. */
  method ReadItags(values: seq<string>, fix: string -> string) returns (r: Result<seq<int>, string>)
    ensures r == ParseItags(FixAll(values, fix))
  {
    var itags: seq<int> := [];
    ghost var fixed := FixAll(values, fix);
    for i := 0 to |values|
      invariant ParseItags(fixed[..i]) == Success(itags)
    {
      var v := fix(values[i]);
      assert v == fixed[i];
      ItagStep(fixed, i);
      var itag := Atoi(v);
      if itag.Failure? {
        ParseItagsPrefixFails(fixed, i + 1);
        return Failure(itag.error);
      }
      assert |itags| == i by {
        ParseItagsValues(fixed[..i]);
      }
      InsertAtEnd(itags, i, itag.value);
      itags := itags[..i] + [itag.value] + itags[i..];
    }
    assert fixed[..|values|] == fixed;
    return Success(itags);
  }

  /** Parsing one more itag value. */
  lemma ItagStep(vs: seq<string>, i: int)
    requires 0 <= i < |vs|
    ensures var prev := ParseItags(vs[..i]);
      var last := Atoi(vs[i]);
      ParseItags(vs[..i + 1]) ==
        if prev.Failure? then prev
        else if last.Failure? then Failure(last.error)
        else Success(prev.value + [last.value])
  {
    assert vs[..i + 1][..i] == vs[..i];
  }

  /** The final loop of GetVideo: the first `count` itag/url pairs through newStream. */
  method PairStreams(itags: seq<int>, urls: seq<string>, count: nat,
                     newStream: (int, string) -> Result<Stream, string>) returns (r: Result<seq<Stream>, string>)
    requires count <= |itags| && count <= |urls|
    ensures r == BuildStreams(itags, urls, count, newStream)
  {
    var streams: seq<Stream> := [];
    for i := 0 to count
      invariant BuildStreams(itags, urls, i, newStream) == Success(streams)
    {
      var s := newStream(itags[i], urls[i]);
      if s.Failure? {
        BuildStreamsPrefixFails(itags, urls, i + 1, count, newStream);
        return Failure(s.error);
      }
      streams := streams + [s.value];
    }
    return Success(streams);
  }

  /** A failure among the first `k` itag values is the failure of the whole list. */
  lemma {:induction false} ParseItagsPrefixFails(vs: seq<string>, k: nat)
    requires k <= |vs|
    requires ParseItags(vs[..k]).Failure?
    ensures ParseItags(vs) == ParseItags(vs[..k])
    decreases |vs| - k
  {
    if k < |vs| {
      assert vs[..k + 1][..k] == vs[..k];
      ParseItagsPrefixFails(vs, k + 1);
    } else {
      assert vs[..k] == vs;
    }
  }

  /** A failure among the first `k` pairs is the failure of the first `n`. */
  lemma {:induction false} BuildStreamsPrefixFails(itags: seq<int>, urls: seq<string>, k: nat, n: nat,
                                                   newStream: (int, string) -> Result<Stream, string>)
    requires k <= n <= |itags| && n <= |urls|
    requires BuildStreams(itags, urls, k, newStream).Failure?
    ensures BuildStreams(itags, urls, n, newStream) == BuildStreams(itags, urls, k, newStream)
    decreases n - k
  {
    if k < n {
      BuildStreamsPrefixFails(itags, urls, k, n - 1, newStream);
    }
  }

  /** The stream count is the smaller of the url and itag counts. */
  lemma StreamCount(streamMap: map<string, seq<string>>, fix: string -> string,
                    newStream: (int, string) -> Result<Stream, string>)
    requires "url" in streamMap && "itag" in streamMap
    requires forall i :: 0 <= i < |streamMap["itag"]| ==> ParseInt64(fix(streamMap["itag"][i])).Parsed?
    requires forall it, u :: newStream(it, u).Success?
    ensures StreamsOf(streamMap, fix, newStream).Success?
    ensures |StreamsOf(streamMap, fix, newStream).value| ==
      if |streamMap["url"]| < |streamMap["itag"]| then |streamMap["url"]| else |streamMap["itag"]|
    ensures forall i :: 0 <= i < |StreamsOf(streamMap, fix, newStream).value| ==>
      StreamsOf(streamMap, fix, newStream).value[i] ==
        newStream(ParseInt64(fix(streamMap["itag"][i])).value, fix(streamMap["url"][i])).value
  {
    var tags := FixAll(streamMap["itag"], fix);
    ParseItagsValues(tags);
    var itags := ParseItags(tags).value;
    var urls := FixAll(streamMap["url"], fix);
    var n := if |itags| < |urls| then |itags| else |urls|;
    BuildStreamsValues(itags, urls, n, newStream);
  }
}

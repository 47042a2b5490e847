/**
 * The decisions the HTTP handlers make on top of the library: the library
 * page's search filter and pager, the import page's result filter, the
 * extended-M3U playlist text, and the local status endpoint.
 */
module Handlers {
  import opened Wrappers
  import opened GoInt
  import opened Text
  import opened Seqs
  import opened Playlist
  import YoutubeVideo

  /** stringInSlice: a linear search for `a`. */
  method StringInSlice(a: string, list: seq<string>) returns (b: bool)
    ensures b <==> a in list
  {
    for i := 0 to |list|
      invariant a !in list[..i]
    {
      if list[i] == a {
        return true;
      }
    }
    assert list[..|list|] == list;
    return false;
  }

  // -------------------------------------------------------------- library search

  /** The text a library query is matched against. */
  function Content(m: Media): string { m.title + m.description + m.author + m.source }

  /** A media matches a query when its lowercased text contains the lowercased query. */
  predicate Matches(m: Media, query: string)
  {
    Contains(ToLower(Content(m)), ToLower(query))
  }

  /** The library page's list: everything for an empty query, else the matches in order. */
  function KeepMatching(medias: seq<Media>, query: string): seq<Media>
  {
    if query == "" then medias else Filter(medias, (m: Media) => Matches(m, query))
  }

  /** The filter loop of the library page. */
  method FilterLibrary(medias: seq<Media>, query: string) returns (filtered: seq<Media>)
    ensures filtered == KeepMatching(medias, query)
  {
    if query == "" {
      return medias;
    }
    var keep := (m: Media) => Matches(m, query);
    filtered := [];
    for i := 0 to |medias|
      invariant filtered == Filter(medias[..i], keep)
    {
      FilterStep(medias, i, keep);
      if !Matches(medias[i], query) {
        continue;
      }
      filtered := filtered + [medias[i]];
    }
    assert medias[..|medias|] == medias;
  }

  /** A media is listed exactly when it is in the library and matches a non-empty query. */
  lemma KeepMatchingMembers(medias: seq<Media>, query: string)
    ensures forall m :: m in KeepMatching(medias, query) <==> m in medias && (query == "" || Matches(m, query))
  {
    FilterMembers(medias, (m: Media) => Matches(m, query));
  }

  /** Filtering keeps the library order: it distributes over concatenation. */
  lemma KeepMatchingOrder(a: seq<Media>, b: seq<Media>, query: string)
    ensures KeepMatching(a + b, query) == KeepMatching(a, query) + KeepMatching(b, query)
  {
    FilterAppend(a, b, (m: Media) => Matches(m, query));
  }

  /** The empty string occurs in every string. */
  lemma ContainsEmpty(s: string)
    ensures Contains(s, "")
  {
    assert OccursAt(s, "", 0);
  }

  /** Skipping the filter for an empty query changes nothing: every media matches "". */
  lemma EmptyQueryKeepsAll(medias: seq<Media>)
    ensures KeepMatching(medias, "") == Filter(medias, (m: Media) => Matches(m, ""))
  {
    forall i | 0 <= i < |medias| ensures Matches(medias[i], "") {
      ContainsEmpty(ToLower(Content(medias[i])));
    }
    FilterAll(medias, (m: Media) => Matches(m, ""));
  }

  lemma {:induction false} ToLowerIdempotent(s: string)
    ensures ToLower(ToLower(s)) == ToLower(s)
  {
    if |s| > 0 {
      ToLowerIdempotent(s[1..]);
    }
  }

  /** Matching ignores the case of the query's ASCII letters. */
  lemma MatchesIgnoresCase(m: Media, query: string)
    ensures Matches(m, query) <==> Matches(m, ToLower(query))
  {
    ToLowerIdempotent(query);
  }

  // ------------------------------------------------------------------- pagination

  /** The `p` form value as strconv.ParseInt leaves it: 0 on a syntax error, the bound on overflow. */
  function ParsePage(p: string): (r: int)
    ensures IsInt64(r)
    ensures ParseInt64(p).Parsed? ==> r == ParseInt64(p).value
    ensures ParseInt64(p).SyntaxError? ==> r == 0
    ensures ParseInt64(p).RangeError? ==> r == ParseInt64(p).clamped
    ensures ParseInt64(p).RangeError? ==> r == MaxInt64 || r == MinInt64
  {
    match ParseInt64(p)
    case Parsed(v) => v
    case SyntaxError => 0
    case RangeError(c) => c
  }

  /** A page number printed with `%d` reads back as itself. */
  lemma ParsePageReadBack(i: int)
    requires IsInt64(i)
    ensures ParsePage(IntToString(i)) == i
  {
    ParseIntToString(i);
  }

  /**
   * Digits worth more than 2^64-1 saturate the page whatever text follows them,
   * so such a request is shown the last page.
   */
  lemma ParsePageOverflow(d: string, rest: string, total: nat)
    requires IsDigits(d) && DigitsValue(d) > MaxUint64
    requires total <= MaxInt64
    ensures ParsePage(d + rest) == MaxInt64
    ensures ParsePage("-" + d + rest) == MinInt64
    ensures ClampPage(ParsePage(d + rest), LastPage(total)) == LastPage(total)
  {
    var s := d + rest;
    assert "" + s == s && s[0] == d[0];
    ParseIntSign("", s);
    RunOverflows(d, rest);
    ParseIntOverflow("-", d, rest);
    LastPageBelowMax(total);
  }

  lemma LastPageBelowMax(total: nat)
    requires total <= MaxInt64
    ensures 1 <= LastPage(total) < MaxInt64
  {
    assert total / PageLimit(total) <= total / 10;
  }

  /** The page size switch, tested in the order written. */
  function PageLimit(total: int): (limit: int)
    ensures limit == if total > 100 then 20 else 10
  {
    if total > 100 then 20
    else if total > 500 then 50
    else if total > 1000 then 100
    else 10
  }

  function LastPage(total: nat): int { total / PageLimit(total) + 1 }

  /** The requested page raised to 1 and then lowered to the last page. */
  function ClampPage(requested: int, lastpage: int): (page: int)
    requires lastpage >= 1
    ensures 1 <= page <= lastpage
    ensures 1 <= requested <= lastpage ==> page == requested
    ensures requested < 1 ==> page == 1
    ensures requested > lastpage ==> page == lastpage
  {
    var p := if requested < 1 then 1 else requested;
    if p > lastpage then lastpage else p
  }

  /** The first index shown on a page. */
  function WindowBegin(total: nat, page: int): int { (page - 1) * PageLimit(total) }

  /** One past the last index shown on a page. */
  function WindowEnd(total: nat, page: int): int
  {
    var e := WindowBegin(total, page) + PageLimit(total);
    if e > total then total else e
  }

  /** What the library page shows and links to. */
  datatype Pager = Pager(page: int, limit: int, lastpage: int, pages: seq<int>, begin: int, end: int)

  /** The pagination arithmetic of the library page, for `total` medias and the `p` form value. */
  method Paginate(total: nat, p: string) returns (pg: Pager)
    ensures pg.limit == PageLimit(total) && pg.lastpage == LastPage(total)
    ensures |pg.pages| == pg.lastpage && forall i :: 0 <= i < |pg.pages| ==> pg.pages[i] == i + 1
    ensures pg.page == ClampPage(ParsePage(p), pg.lastpage)
    ensures pg.begin == WindowBegin(total, pg.page) && pg.end == WindowEnd(total, pg.page)
    ensures 0 <= pg.begin <= pg.end <= total
  {
    var limit := 10;
    var page := ParsePage(p);
    if page < 1 {
      page := 1;
    }
    if total > 100 {
      limit := 20;
    } else if total > 500 {
      limit := 50;
    } else if total > 1000 {
      limit := 100;
    }
    var pages: seq<int> := [];
    var lastpage := total / limit + 1;
    var i := 1;
    while i <= lastpage
      invariant 1 <= i <= lastpage + 1
      invariant |pages| == i - 1 && forall j :: 0 <= j < |pages| ==> pages[j] == j + 1
    {
      pages := pages + [i];
      i := i + 1;
    }
    if page > lastpage {
      page := lastpage;
    }
    var begin := (page - 1) * limit;
    var end := begin + limit;
    if end > total {
      end := total;
    }
    WindowInRange(total, page);
    pg := Pager(page, limit, lastpage, pages, begin, end);
  }

  /** Every page up to the last has its window inside the media list. */
  lemma WindowInRange(total: nat, page: int)
    requires 1 <= page <= LastPage(total)
    ensures 0 <= WindowBegin(total, page) <= WindowEnd(total, page) <= total
  {
    var limit := PageLimit(total);
    assert (page - 1) * limit <= (total / limit) * limit by {
      assert page - 1 <= total / limit;
    }
  }

  /** Consecutive pages tile the list: each page ends where the next begins, and all but the last are non-empty. */
  lemma WindowsTile(total: nat, page: int)
    requires 1 <= page < LastPage(total)
    ensures WindowEnd(total, page) == WindowBegin(total, page + 1)
    ensures WindowBegin(total, page) < WindowEnd(total, page)
  {
    var limit := PageLimit(total);
    assert page <= total / limit;
    assert page * limit <= (total / limit) * limit;
    assert WindowBegin(total, page + 1) == page * limit;
  }

  /** Every media of the list is shown on some page. */
  lemma WindowsCover(total: nat, k: int)
    requires 0 <= k < total
    ensures var page := k / PageLimit(total) + 1;
      1 <= page <= LastPage(total) && WindowBegin(total, page) <= k < WindowEnd(total, page)
  {
    var limit := PageLimit(total);
    var q := k / limit;
    assert q <= total / limit;
    assert q * limit <= k < q * limit + limit;
    assert WindowBegin(total, q + 1) == q * limit;
  }

  /** The last page listed is empty exactly when the total is a multiple of the page size. */
  lemma LastPageEmpty(total: nat)
    ensures WindowBegin(total, LastPage(total)) == WindowEnd(total, LastPage(total)) <==> total % PageLimit(total) == 0
  {
    var limit := PageLimit(total);
    assert WindowBegin(total, LastPage(total)) == (total / limit) * limit;
    assert total == (total / limit) * limit + total % limit;
  }

  // --------------------------------------------------------------- import results

  /** A search result already in the library: its record loads and it has audio or is being archived. */
  predicate Known(v: YoutubeVideo.Video, load: string -> Result<Media, string>,
                  hasAudio: Media -> bool, inProgress: string -> bool)
  {
    load(v.id).Success? && (hasAudio(load(v.id).value) || inProgress(load(v.id).value.id))
  }

  /**
   * The import page's list: the search results (none when the `q` form value
   * is blank after TrimSpace, or the search failed) without the ones already
   * known, in search order.
   */
  function ImportResults(q: string, found: Result<seq<YoutubeVideo.Video>, string>,
                         load: string -> Result<Media, string>, hasAudio: Media -> bool,
                         inProgress: string -> bool): seq<YoutubeVideo.Video>
  {
    var query := TrimSpace(q);
    var youtubes := if query != "" && found.Success? then found.value else [];
    Filter(youtubes, (v: YoutubeVideo.Video) => !Known(v, load, hasAudio, inProgress))
  }

  /** The result loop of the import page. */
  method FilterImports(q: string, found: Result<seq<YoutubeVideo.Video>, string>,
                       load: string -> Result<Media, string>, hasAudio: Media -> bool,
                       inProgress: string -> bool) returns (filtered: seq<YoutubeVideo.Video>)
    ensures filtered == ImportResults(q, found, load, hasAudio, inProgress)
  {
    var query := TrimSpace(q);
    var youtubes: seq<YoutubeVideo.Video> := [];
    if query != "" && found.Success? {
      youtubes := youtubes + found.value;
    }
    assert youtubes == if query != "" && found.Success? then found.value else [];
    var keep := (v: YoutubeVideo.Video) => !Known(v, load, hasAudio, inProgress);
    filtered := [];
    for i := 0 to |youtubes|
      invariant filtered == Filter(youtubes[..i], keep)
    {
      FilterStep(youtubes, i, keep);
      var v := youtubes[i];
      var m := load(v.id);
      if m.Success? {
        if hasAudio(m.value) || inProgress(m.value.id) {
          continue;
        }
      }
      filtered := filtered + [v];
    }
    assert youtubes[..|youtubes|] == youtubes;
  }

  /** A search result is dropped exactly when it is already known. */
  lemma ImportResultsMembers(found: seq<YoutubeVideo.Video>, q: string,
                             load: string -> Result<Media, string>, hasAudio: Media -> bool,
                             inProgress: string -> bool)
    requires TrimSpace(q) != ""
    ensures forall v :: v in ImportResults(q, Success(found), load, hasAudio, inProgress) <==>
      v in found && !Known(v, load, hasAudio, inProgress)
  {
    FilterMembers(found, (v: YoutubeVideo.Video) => !Known(v, load, hasAudio, inProgress));
  }

  /** A query of nothing but white space searches nothing, so the page lists no results. */
  lemma ImportBlankQuery(q: string, found: Result<seq<YoutubeVideo.Video>, string>,
                         load: string -> Result<Media, string>, hasAudio: Media -> bool,
                         inProgress: string -> bool)
    requires forall i :: 0 <= i < |q| ==> IsSpace(q[i])
    ensures ImportResults(q, found, load, hasAudio, inProgress) == []
  {
    TrimSpaceBlank(q);
  }

  // ---------------------------------------------------------------------- M3U

  /** The scheme of the stream URLs: the forwarded protocol, https by default. */
  function Proto(forwardedProto: string): (r: string)
    ensures r != ""
  {
    if forwardedProto == "" then "https" else forwardedProto
  }

  /** The #EXTINF line of a media: its length in seconds and its title. */
  function ExtInf(m: Media): string { "#EXTINF:" + IntToString(m.length) + "," + m.title }

  /** The stream URL line of a media of the list. */
  function StreamUrl(proto: string, host: string, prefix: string, listId: string, m: Media): string
  {
    proto + "://" + host + prefix + "/stream/" + listId + "/" + m.id + ".m4a"
  }

  /** Two lines per element, in order: `first` of it, then `second` of it. */
  function Pairs<T>(xs: seq<T>, first: T -> string, second: T -> string): (lines: seq<string>)
    ensures |lines| == 2 * |xs|
  {
    if |xs| == 0 then []
    else Pairs(xs[..|xs| - 1], first, second) + [first(xs[|xs| - 1]), second(xs[|xs| - 1])]
  }

  /** The two lines of each media, in list order: its #EXTINF line and its stream URL. */
  function MediaLines(medias: seq<Media>, proto: string, host: string, prefix: string, listId: string): seq<string>
  {
    Pairs(medias, ExtInf, (m: Media) => StreamUrl(proto, host, prefix, listId, m))
  }

  /** Lines written one after the other, each ended by a newline. */
  function Render(lines: seq<string>): string
  {
    if |lines| == 0 then "" else lines[0] + "\n" + Render(lines[1..])
  }

  /** The playlist text of the m3u handler. */
  function M3U(medias: seq<Media>, forwardedProto: string, host: string, prefix: string, listId: string): string
  {
    Render(["#EXTM3U"] + MediaLines(medias, Proto(forwardedProto), host, prefix, listId))
  }

  /** The m3u handler's output loop. */
  method WriteM3U(medias: seq<Media>, forwardedProto: string, host: string, prefix: string, listId: string)
    returns (out: string)
    ensures out == M3U(medias, forwardedProto, host, prefix, listId)
  {
    out := "#EXTM3U\n";
    assert out == Render(["#EXTM3U"]);
    for i := 0 to |medias|
      invariant out == Render(["#EXTM3U"] + MediaLines(medias[..i], Proto(forwardedProto), host, prefix, listId))
    {
      var media := medias[i];
      out := out + ExtInf(media) + "\n";
      var proto := forwardedProto;
      if proto == "" {
        proto := "https";
      }
      out := out + StreamUrl(proto, host, prefix, listId, media) + "\n";
      M3UStep(medias, i, Proto(forwardedProto), host, prefix, listId);
    }
    assert medias[..|medias|] == medias;
  }

  /** One more media appends its two lines to the text written so far. */
  lemma M3UStep(medias: seq<Media>, i: int, proto: string, host: string, prefix: string, listId: string)
    requires 0 <= i < |medias|
    ensures Render(["#EXTM3U"] + MediaLines(medias[..i + 1], proto, host, prefix, listId)) ==
      Render(["#EXTM3U"] + MediaLines(medias[..i], proto, host, prefix, listId))
        + ExtInf(medias[i]) + "\n" + StreamUrl(proto, host, prefix, listId, medias[i]) + "\n"
  {
    var url := (m: Media) => StreamUrl(proto, host, prefix, listId, m);
    var lines := MediaLines(medias[..i], proto, host, prefix, listId);
    var e := ExtInf(medias[i]);
    var u := StreamUrl(proto, host, prefix, listId, medias[i]);
    PairsSnoc(medias, i, ExtInf, url);
    AppendAssoc(["#EXTM3U"], lines, [e, u]);
    RenderSnocPair(["#EXTM3U"] + lines, e, u);
  }

  /** Pairs of a prefix one longer: the pair of the new element comes last. */
  lemma PairsSnoc<T>(xs: seq<T>, i: int, first: T -> string, second: T -> string)
    requires 0 <= i < |xs|
    ensures Pairs(xs[..i + 1], first, second) == Pairs(xs[..i], first, second) + [first(xs[i]), second(xs[i])]
  {
    assert xs[..i + 1][..i] == xs[..i];
  }

  /** Rendering two more lines appends each with its newline. */
  lemma RenderSnocPair(before: seq<string>, e: string, u: string)
    ensures Render(before + [e, u]) == Render(before) + e + "\n" + u + "\n"
  {
    RenderAppend(before, [e, u]);
    RenderPair(e, u);
  }

  lemma RenderPair(e: string, u: string)
    ensures Render([e, u]) == e + "\n" + (u + "\n")
  {
    assert [e, u][1..] == [u];
    assert [u][1..] == [];
    assert Render([u]) == u + "\n" + Render([]);
    assert u + "\n" + "" == u + "\n";
  }

  lemma {:induction false} RenderAppend(a: seq<string>, b: seq<string>)
    ensures Render(a + b) == Render(a) + Render(b)
  {
    if |a| > 0 {
      RenderAppend(a[1..], b);
      assert (a + b)[1..] == a[1..] + b;
    } else {
      assert a + b == b;
    }
  }

  /** Splitting rendered lines at newlines gives the lines back, plus the empty tail after the last newline. */
  lemma {:induction false} SplitRender(lines: seq<string>)
    requires forall i :: 0 <= i < |lines| ==> '\n' !in lines[i]
    ensures Split(Render(lines), '\n') == lines + [""]
  {
    if |lines| == 0 {
      SplitFree("", '\n');
    } else {
      var rest := lines[1..];
      assert forall i :: 0 <= i < |rest| ==> rest[i] == lines[i + 1];
      SplitRender(rest);
      var tail := Render(rest);
      assert Render(lines) == lines[0] + ['\n'] + tail;
      SplitCons(lines[0], tail, '\n');
      AppendUncons(lines, "");
    }
  }

  /** Element k owns lines 2k and 2k+1. */
  lemma {:induction false} PairsAt<T>(xs: seq<T>, first: T -> string, second: T -> string, k: int)
    requires 0 <= k < |xs|
    ensures Pairs(xs, first, second)[2 * k] == first(xs[k])
    ensures Pairs(xs, first, second)[2 * k + 1] == second(xs[k])
    decreases |xs|
  {
    var n := |xs| - 1;
    var init := xs[..n];
    var pi := Pairs(init, first, second);
    var p := Pairs(xs, first, second);
    assert p == pi + [first(xs[n]), second(xs[n])];
    if k < n {
      PairsAt(init, first, second, k);
      assert xs[k] == init[k];
      assert p[2 * k] == pi[2 * k];
      assert p[2 * k + 1] == pi[2 * k + 1];
    }
  }

  /** Media k of the list owns lines 2k and 2k+1: its #EXTINF line and then its stream URL. */
  lemma MediaLinesAt(medias: seq<Media>, proto: string, host: string, prefix: string, listId: string)
    ensures forall k :: 0 <= k < |medias| ==>
      MediaLines(medias, proto, host, prefix, listId)[2 * k] == ExtInf(medias[k]) &&
      MediaLines(medias, proto, host, prefix, listId)[2 * k + 1] == StreamUrl(proto, host, prefix, listId, medias[k])
  {
    var url := (m: Media) => StreamUrl(proto, host, prefix, listId, m);
    forall k | 0 <= k < |medias|
      ensures MediaLines(medias, proto, host, prefix, listId)[2 * k] == ExtInf(medias[k])
      ensures MediaLines(medias, proto, host, prefix, listId)[2 * k + 1] == StreamUrl(proto, host, prefix, listId, medias[k])
    {
      PairsAt(medias, ExtInf, url, k);
    }
  }

  lemma IntToStringOneLine(n: int)
    ensures '\n' !in IntToString(n)
  {
    if n < 0 {
      DigitsHaveNo(NatToString(-n), '\n');
    } else {
      DigitsHaveNo(NatToString(n), '\n');
    }
  }

  /**
   * Read back line by line, the playlist is the #EXTM3U header and then, for
   * each media in list order, its #EXTINF line and its stream URL, as long as
   * no field holds a newline.
   */
  lemma M3UReadBack(medias: seq<Media>, forwardedProto: string, host: string, prefix: string, listId: string)
    requires forall i :: 0 <= i < |medias| ==> '\n' !in medias[i].title && '\n' !in medias[i].id
    requires '\n' !in forwardedProto && '\n' !in host && '\n' !in prefix && '\n' !in listId
    ensures var lines := Split(M3U(medias, forwardedProto, host, prefix, listId), '\n');
      |lines| == 2 * |medias| + 2 && lines[0] == "#EXTM3U" && lines[|lines| - 1] == "" &&
      forall k :: 0 <= k < |medias| ==>
        lines[2 * k + 1] == ExtInf(medias[k]) &&
        lines[2 * k + 2] == StreamUrl(Proto(forwardedProto), host, prefix, listId, medias[k])
  {
    var proto := Proto(forwardedProto);
    var ml := MediaLines(medias, proto, host, prefix, listId);
    MediaLinesAt(medias, proto, host, prefix, listId);
    MediaLinesOneLine(medias, proto, host, prefix, listId);
    HeaderOneLine(ml);
    SplitRender(["#EXTM3U"] + ml);
    Framed("#EXTM3U", ml, "");
  }

  /** The header line holds no newline, so the header and one-line lines render one per line. */
  lemma HeaderOneLine(ml: seq<string>)
    requires forall i :: 0 <= i < |ml| ==> '\n' !in ml[i]
    ensures forall i :: 0 <= i < |["#EXTM3U"] + ml| ==> '\n' !in (["#EXTM3U"] + ml)[i]
  {
    var all := ["#EXTM3U"] + ml;
    forall i | 0 <= i < |all| ensures '\n' !in all[i] {
      if i > 0 {
        assert all[i] == ml[i - 1];
      }
    }
  }

  lemma ExtInfOneLine(m: Media)
    requires '\n' !in m.title
    ensures '\n' !in ExtInf(m)
  {
    IntToStringOneLine(m.length);
  }

  lemma StreamUrlOneLine(proto: string, host: string, prefix: string, listId: string, m: Media)
    requires '\n' !in proto && '\n' !in host && '\n' !in prefix && '\n' !in listId && '\n' !in m.id
    ensures '\n' !in StreamUrl(proto, host, prefix, listId, m)
  {
  }

  /** No line holds a newline when no line of any element does. */
  lemma {:induction false} PairsOneLine<T>(xs: seq<T>, first: T -> string, second: T -> string)
    requires forall i :: 0 <= i < |xs| ==> '\n' !in first(xs[i]) && '\n' !in second(xs[i])
    ensures forall i :: 0 <= i < 2 * |xs| ==> '\n' !in Pairs(xs, first, second)[i]
    decreases |xs|
  {
    if |xs| > 0 {
      var n := |xs| - 1;
      var init := xs[..n];
      assert forall i :: 0 <= i < |init| ==> init[i] == xs[i];
      PairsOneLine(init, first, second);
      var pi := Pairs(init, first, second);
      var p := Pairs(xs, first, second);
      assert p == pi + [first(xs[n]), second(xs[n])];
      forall i | 0 <= i < 2 * |xs| ensures '\n' !in p[i] {
        if i < 2 * n {
          assert p[i] == pi[i];
        }
      }
    }
  }

  /** No line of the media entries holds a newline when no field does. */
  lemma MediaLinesOneLine(medias: seq<Media>, proto: string, host: string, prefix: string, listId: string)
    requires forall i :: 0 <= i < |medias| ==> '\n' !in medias[i].title && '\n' !in medias[i].id
    requires '\n' !in proto && '\n' !in host && '\n' !in prefix && '\n' !in listId
    ensures forall i :: 0 <= i < 2 * |medias| ==> '\n' !in MediaLines(medias, proto, host, prefix, listId)[i]
  {
    var url := (m: Media) => StreamUrl(proto, host, prefix, listId, m);
    forall i | 0 <= i < |medias| ensures '\n' !in ExtInf(medias[i]) && '\n' !in url(medias[i]) {
      ExtInfOneLine(medias[i]);
      StreamUrlOneLine(proto, host, prefix, listId, medias[i]);
    }
    PairsOneLine(medias, ExtInf, url);
  }

  // ----------------------------------------------------------------- v1 status

  /** The reply of the status endpoint. */
  datatype Reply = NotFoundReply | Plain(body: string)

  /** The two loopback addresses the status endpoint answers. */
  predicate Loopback(ip: string)
  {
    ip == "::1" || ip == "127.0.0.1"
  }

  /** Loopback clients learn whether any queued or active job has a media record; others get 404. */
  function V1Status(clientIP: Option<string>, queued: seq<Media>, active: seq<Media>): (r: Reply)
  {
    var ip := if clientIP.Some? then clientIP.value else "";
    if !Loopback(ip) then NotFoundReply
    else Plain(if |queued| > 0 || |active| > 0 then "busy\n" else "idle\n")
  }

  /**
   * Against the archiver's job ids: a client without a loopback address gets
   * 404, and a loopback client sees "busy" exactly when the media record of
   * some queued or active job loads, so jobs without a record read as idle.
   */
  lemma V1StatusJobs(clientIP: Option<string>, queuedIds: seq<string>, activeIds: seq<string>,
                     load: string -> Result<Media, string>)
    ensures !(clientIP.Some? && Loopback(clientIP.value)) ==>
      V1Status(clientIP, Loaded(queuedIds, load), Loaded(activeIds, load)) == NotFoundReply
    ensures clientIP.Some? && Loopback(clientIP.value) ==>
      V1Status(clientIP, Loaded(queuedIds, load), Loaded(activeIds, load)) ==
        Plain(if (exists i :: 0 <= i < |queuedIds| && load(queuedIds[i]).Success?) ||
                 (exists i :: 0 <= i < |activeIds| && load(activeIds[i]).Success?)
              then "busy\n" else "idle\n")
  {
    if clientIP.Some? && Loopback(clientIP.value) {
      LoadedAny(queuedIds, load);
      LoadedAny(activeIds, load);
    } else {
      EmptyNotLoopback();
    }
  }

  /** A request without a client address is never from the loopback interface. */
  lemma EmptyNotLoopback()
    ensures !Loopback("")
  {
    assert |""| != |"::1"| && |""| != |"127.0.0.1"|;
  }

  /** Some record loads exactly when the loaded list is non-empty. */
  lemma LoadedAny(ids: seq<string>, load: string -> Result<Media, string>)
    ensures |Loaded(ids, load)| > 0 <==> exists i :: 0 <= i < |ids| && load(ids[i]).Success?
  {
    LoadedEmpty(ids, load);
  }
}

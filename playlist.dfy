/**
 * Media records, playlists and their on-disk names (the main package; the
 * older streamlist package has the same logic under unexported names).
 *
 * A list's `Save` becomes a log of the media sequences written to its file,
 * with the outcome of the write as an input.
 */
module Playlist {
  import opened Wrappers
  import opened GoInt
  import opened Text
  import opened Seqs
  import Archive

  /** A library entry; `length` is in seconds. The timestamps are not modelled. */
  datatype Media = Media(id: string, author: string, title: string, description: string, length: int, source: string)

  const ErrMediaNotFound: string := "media not found"

  // ------------------------------------------------------------ file names

  /** mediaFile: panics on an empty id (a `Failure` here), else `datadir/id.media`. */
  function MediaFile(datadir: string, id: string): (r: Result<string, string>)
    ensures r.Failure? <==> id == ""
  {
    if id == "" then Failure("invalid media id") else Success(PathJoin(datadir, id + ".media"))
  }

  /** listFile: panics on an empty id, else `datadir/id.playlist`. */
  function ListFile(datadir: string, id: string): (r: Result<string, string>)
    ensures r.Failure? <==> id == ""
  {
    if id == "" then Failure("invalid list id") else Success(PathJoin(datadir, id + ".playlist"))
  }

  function ImageFile(datadir: string, m: Media): string { PathJoin(datadir, m.id + ".jpg") }
  function VideoFile(datadir: string, m: Media): string { PathJoin(datadir, m.id + ".mp4") }
  function AudioFile(datadir: string, m: Media): string { PathJoin(datadir, m.id + ".m4a") }

  /** A media's image, video and audio files are the very files the archiver job for its id writes. */
  lemma MediaFilesAreJobFiles(datadir: string, m: Media, job: Archive.Job)
    requires job.id == m.id
    requires job.imagefile == Archive.ImagePath(datadir, job.id)
    requires job.videofile == Archive.VideoPath(datadir, job.id)
    requires job.audiofile == Archive.AudioPath(datadir, job.id)
    ensures ImageFile(datadir, m) == job.imagefile
    ensures VideoFile(datadir, m) == job.videofile
    ensures AudioFile(datadir, m) == job.audiofile
  {
  }

  lemma SuffixCancel(a: string, b: string, suffix: string)
    ensures a + suffix == b + suffix ==> a == b
  {
    assert a == (a + suffix)[..|a|];
    assert b == (b + suffix)[..|b|];
  }

  lemma PathJoinInjective(dir: string, a: string, b: string)
    ensures PathJoin(dir, a) == PathJoin(dir, b) ==> a == b
  {
    if dir != "" {
      assert a == PathJoin(dir, a)[|dir| + 1..];
      assert b == PathJoin(dir, b)[|dir| + 1..];
    }
  }

  lemma RecordSuffixesDiffer(a: string, b: string)
    ensures a + ".media" != b + ".playlist"
  {
    var x := a + ".media";
    var y := b + ".playlist";
    assert x[|x| - 1] == 'a' && y[|y| - 1] == 't';
  }

  /** Different ids never share a media file or a list file, and a media file is never a list file. */
  lemma RecordFilesDistinct(datadir: string, a: string, b: string)
    ensures MediaFile(datadir, a).Success? && MediaFile(datadir, b).Success? && a != b ==>
      MediaFile(datadir, a).value != MediaFile(datadir, b).value
    ensures ListFile(datadir, a).Success? && ListFile(datadir, b).Success? && a != b ==>
      ListFile(datadir, a).value != ListFile(datadir, b).value
    ensures MediaFile(datadir, a).Success? && ListFile(datadir, b).Success? ==>
      MediaFile(datadir, a).value != ListFile(datadir, b).value
  {
    PathJoinInjective(datadir, a + ".media", b + ".media");
    PathJoinInjective(datadir, a + ".playlist", b + ".playlist");
    PathJoinInjective(datadir, a + ".media", b + ".playlist");
    SuffixCancel(a, b, ".media");
    SuffixCancel(a, b, ".playlist");
    RecordSuffixesDiffer(a, b);
  }

  /** NewList names a list by the decimal digits of a random number, so its file name never panics. */
  lemma NewListIdIsValid(datadir: string, n: nat)
    ensures ListFile(datadir, NatToString(n)).Success?
    ensures ListFile(datadir, NatToString(n)).value == PathJoin(datadir, NatToString(n) + ".playlist")
  {
  }

  // ------------------------------------------------------------ list contents

  function MediaIds(ms: seq<Media>): seq<string>
  {
    seq(|ms|, i requires 0 <= i < |ms| => ms[i].id)
  }

  /** The sum of the lengths, without any overflow. */
  function Sum(ms: seq<Media>): int
  {
    if |ms| == 0 then 0 else Sum(ms[..|ms| - 1]) + ms[|ms| - 1].length
  }

  /** Summing is additive over concatenation. */
  lemma {:induction false} SumAppend(a: seq<Media>, b: seq<Media>)
    ensures Sum(a + b) == Sum(a) + Sum(b)
    decreases |b|
  {
    if |b| > 0 {
      SumAppend(a, b[..|b| - 1]);
      assert (a + b)[..|a + b| - 1] == a + b[..|b| - 1];
    } else {
      assert a + b == a;
    }
  }

  /** The medias without any entry carrying `id`, in their original order. */
  function RemoveId(ms: seq<Media>, id: string): seq<Media>
  {
    Filter(ms, (m: Media) => m.id != id)
  }

  /** RemoveId keeps exactly the entries with another id, in their order. */
  lemma RemoveIdMembers(ms: seq<Media>, id: string)
    ensures forall m :: m in RemoveId(ms, id) <==> m in ms && m.id != id
    ensures id !in MediaIds(RemoveId(ms, id))
  {
    FilterMembers(ms, (m: Media) => m.id != id);
    var r := RemoveId(ms, id);
    forall i | 0 <= i < |r|
      ensures MediaIds(r)[i] != id
    {
      assert r[i] in r;
    }
  }

  /** Removing an id that is not listed changes nothing. */
  lemma RemoveIdAbsent(ms: seq<Media>, id: string)
    requires id !in MediaIds(ms)
    ensures RemoveId(ms, id) == ms
  {
    forall i | 0 <= i < |ms|
      ensures ms[i].id != id
    {
      assert MediaIds(ms)[i] == ms[i].id;
    }
    FilterAll(ms, (m: Media) => m.id != id);
  }

  /** rand.Perm(n): each of 0..n-1 exactly once. */
  predicate IsPermutation(p: seq<int>, n: int)
  {
    && |p| == n
    && (forall i :: 0 <= i < |p| ==> 0 <= p[i] < n)
    && (forall i, j :: 0 <= i < j < |p| ==> p[i] != p[j])
  }

  /** Picking `s` through distinct indices, one per element, yields the same multiset. */
  lemma {:induction false} PermutedMultiset<T>(s: seq<T>, p: seq<int>, t: seq<T>)
    requires IsPermutation(p, |s|)
    requires |t| == |s|
    requires forall i :: 0 <= i < |t| ==> t[i] == s[p[i]]
    ensures multiset(t) == multiset(s)
    decreases |s|
  {
    var n := |s|;
    if n > 0 {
      var k := p[n - 1];
      var p' := seq(n - 1, i requires 0 <= i < n - 1 => if p[i] < k then p[i] else p[i] - 1);
      PickedRest(s, p, t, p');
      PermutedMultiset(s[..k] + s[k + 1..], p', t[..n - 1]);
      SameAfterLast(s, t, k);
    }
  }

  /** When the last of `t` is `s[k]` and the rest have the same multisets, so have the wholes. */
  lemma SameAfterLast<T>(s: seq<T>, t: seq<T>, k: int)
    requires 0 <= k < |s| && |t| == |s| && t[|t| - 1] == s[k]
    requires multiset(t[..|t| - 1]) == multiset(s[..k] + s[k + 1..])
    ensures multiset(t) == multiset(s)
  {
    MultisetWithout(s, k);
    MultisetWithout(t, |t| - 1);
    assert t[..|t| - 1] + t[|t|..] == t[..|t| - 1];
  }

  /**
   * Without the last pick, the remaining picks, renumbered past the picked
   * index, are a permutation choosing the rest of `t` from the rest of `s`.
   */
  lemma PickedRest<T>(s: seq<T>, p: seq<int>, t: seq<T>, p': seq<int>)
    requires IsPermutation(p, |s|) && |t| == |s| && |s| > 0
    requires forall i :: 0 <= i < |t| ==> t[i] == s[p[i]]
    requires |p'| == |s| - 1
    requires forall i :: 0 <= i < |p'| ==> p'[i] == if p[i] < p[|s| - 1] then p[i] else p[i] - 1
    ensures IsPermutation(p', |s| - 1)
    ensures forall i :: 0 <= i < |s| - 1 ==> t[..|s| - 1][i] == (s[..p[|s| - 1]] + s[p[|s| - 1] + 1..])[p'[i]]
  {
    var n := |s|;
    var k := p[n - 1];
    var s' := s[..k] + s[k + 1..];
    forall i | 0 <= i < n - 1
      ensures 0 <= p'[i] < n - 1 && t[..n - 1][i] == s'[p'[i]]
    {
      assert p[i] != k;
    }
    forall i, j | 0 <= i < j < n - 1
      ensures p'[i] != p'[j]
    {
      assert p[i] != p[j] && p[i] != k && p[j] != k;
    }
  }

  /** Taking one element out of a sequence takes it out of its multiset. */
  lemma MultisetWithout<T>(s: seq<T>, k: int)
    requires 0 <= k < |s|
    ensures multiset(s) == multiset(s[..k] + s[k + 1..]) + multiset{s[k]}
  {
    assert s == s[..k] + [s[k]] + s[k + 1..];
  }

  /**
   * How List.Save ends: written (or, for RemoveMedia, nothing to write), the
   * write's error, or listFile's panic on an empty id.
   */
  datatype SaveResult = SaveOk | SaveFailed(error: string) | SavePanicked(message: string)

  /** A playlist. `saves` lists the contents written to its file by each successful Save, in order. */
  class List {
    const id: string
    const title: string
    var medias: seq<Media>
    var saves: seq<seq<Media>>

    constructor (id: string, title: string, medias: seq<Media>)
      ensures this.id == id && this.title == title && this.medias == medias && saves == []
    {
      this.id := id;
      this.title := title;
      this.medias := medias;
      saves := [];
    }

    /**
     * Save: Overwrite the list file; `writeFails` is the outcome of that write.
     * The file name comes from listFile, which panics on an empty id before
     * anything is written.
     */
    method Save(writeFails: bool) returns (r: SaveResult)
      modifies this
      ensures medias == old(medias)
      ensures r.SavePanicked? <==> id == ""
      ensures r.SavePanicked? ==> r.message == "invalid list id"
      ensures r.SaveFailed? <==> id != "" && writeFails
      ensures saves == if r.SaveOk? then old(saves) + [medias] else old(saves)
    {
      if id == "" {
        return SavePanicked("invalid list id");
      }
      if writeFails {
        return SaveFailed("write " + id + ".playlist failed");
      }
      saves := saves + [medias];
      return SaveOk;
    }

    /** HasMedia: some entry carries the media's id. */
    method HasMedia(media: Media) returns (b: bool)
      ensures b <==> media.id in MediaIds(medias)
    {
      for i := 0 to |medias|
        invariant media.id !in MediaIds(medias)[..i]
      {
        if medias[i].id == media.id {
          assert MediaIds(medias)[i] == media.id;
          return true;
        }
        assert MediaIds(medias)[..i + 1] == MediaIds(medias)[..i] + [medias[i].id];
      }
      assert MediaIds(medias)[..|medias|] == MediaIds(medias);
      return false;
    }

    /** TotalLength: the sum of the lengths in int64 arithmetic; exact whenever the sum fits. */
    method TotalLength() returns (total: int)
      ensures total == WrapInt64(Sum(medias))
      ensures IsInt64(Sum(medias)) ==> total == Sum(medias)
    {
      total := 0;
      for i := 0 to |medias|
        invariant total == WrapInt64(Sum(medias[..i]))
      {
        WrapInt64Add(Sum(medias[..i]), medias[i].length);
        assert medias[..i + 1][..i] == medias[..i];
        total := WrapInt64(total + medias[i].length);
      }
      assert medias[..|medias|] == medias;
    }

    /** AddMedia: append at the end, with no duplicate check, then save. */
    method AddMedia(media: Media, writeFails: bool) returns (r: SaveResult)
      modifies this
      ensures medias == old(medias) + [media]
      ensures r.SavePanicked? <==> id == ""
      ensures r.SaveFailed? <==> id != "" && writeFails
      ensures saves == if r.SaveOk? then old(saves) + [medias] else old(saves)
    {
      medias := medias + [media];
      r := Save(writeFails);
    }

    /**
     * RemoveMedia: when no entry has the media's id nothing changes and nothing
     * is saved; otherwise every such entry is dropped and the list is saved.
     */
    method RemoveMedia(media: Media, writeFails: bool) returns (r: SaveResult)
      modifies this
      ensures media.id !in MediaIds(old(medias)) ==> medias == old(medias) && saves == old(saves) && r == SaveOk
      ensures media.id in MediaIds(old(medias)) ==>
        && medias == RemoveId(old(medias), media.id)
        && (r.SavePanicked? <==> id == "")
        && (r.SaveFailed? <==> id != "" && writeFails)
        && saves == if r.SaveOk? then old(saves) + [medias] else old(saves)
    {
      var present := HasMedia(media);
      if !present {
        return SaveOk;
      }
      var all := medias;
      var keep := (m: Media) => m.id != media.id;
      var kept: seq<Media> := [];
      for i := 0 to |all|
        invariant kept == RemoveId(all[..i], media.id)
        invariant saves == old(saves)
      {
        FilterStep(all, i, keep);
        if all[i].id != media.id {
          kept := kept + [all[i]];
        }
      }
      assert all[..|all|] == all;
      medias := kept;
      r := Save(writeFails);
    }

    /** ShuffleMedia: reorder by the permutation rand.Perm returned, then save. */
    method ShuffleMedia(perm: seq<int>, writeFails: bool) returns (r: SaveResult)
      requires IsPermutation(perm, |medias|)
      modifies this
      ensures |medias| == |old(medias)|
      ensures forall i :: 0 <= i < |medias| ==> medias[i] == old(medias)[perm[i]]
      ensures multiset(medias) == multiset(old(medias))
      ensures r.SavePanicked? <==> id == ""
      ensures r.SaveFailed? <==> id != "" && writeFails
      ensures saves == if r.SaveOk? then old(saves) + [medias] else old(saves)
    {
      var shuffled: seq<Media> := [];
      for i := 0 to |perm|
        invariant |shuffled| == i
        invariant forall j :: 0 <= j < i ==> shuffled[j] == medias[perm[j]]
      {
        shuffled := shuffled + [medias[perm[i]]];
      }
      PermutedMultiset(medias, perm, shuffled);
      medias := shuffled;
      r := Save(writeFails);
    }
  }

  lemma WrapInt64Add(a: int, b: int)
    ensures WrapInt64(WrapInt64(a) + b) == WrapInt64(a + b)
  {
    WrapInt64Congruent(WrapInt64(a) + b, a + b);
  }

  /** Adding a media raises the exact total by its length. */
  lemma AddMediaTotal(ms: seq<Media>, m: Media)
    ensures Sum(ms + [m]) == Sum(ms) + m.length
  {
    SumAppend(ms, [m]);
  }

  // ------------------------------------------------------------ lookups

  /** Position of the first entry with this id, or -1. */
  function IndexOfId(ms: seq<Media>, id: string): (r: int)
    ensures -1 <= r < |ms|
    ensures r == -1 <==> id !in MediaIds(ms)
    ensures r >= 0 ==> ms[r].id == id && forall j :: 0 <= j < r ==> ms[j].id != id
  {
    if |ms| == 0 then -1
    else if ms[0].id == id then
      assert MediaIds(ms)[0] == id;
      0
    else
      var r := IndexOfId(ms[1..], id);
      assert MediaIds(ms) == [ms[0].id] + MediaIds(ms[1..]);
      if r == -1 then -1 else r + 1
  }

  /**
   * FindMedia over the library listing: a listing error is passed on, else the
   * first media with the id, else ErrMediaNotFound.
   */
  method FindMedia(listing: Result<seq<Media>, string>, id: string) returns (r: Result<Media, string>)
    ensures listing.Failure? ==> r == Failure(listing.error)
    ensures listing.Success? && id !in MediaIds(listing.value) ==> r == Failure(ErrMediaNotFound)
    ensures listing.Success? && id in MediaIds(listing.value) ==>
      r == Success(listing.value[IndexOfId(listing.value, id)])
  {
    if listing.Failure? {
      return Failure(listing.error);
    }
    var medias := listing.value;
    for i := 0 to |medias|
      invariant forall j :: 0 <= j < i ==> medias[j].id != id
    {
      if medias[i].id == id {
        assert MediaIds(medias)[i] == id;
        return Success(medias[i]);
      }
    }
    assert forall j :: 0 <= j < |medias| ==> MediaIds(medias)[j] != id;
    return Failure(ErrMediaNotFound);
  }

  /** The medias whose records load, in id order; ids that fail to load are skipped. */
  function Loaded(ids: seq<string>, load: string -> Result<Media, string>): seq<Media>
  {
    if |ids| == 0 then []
    else
      var rest := Loaded(ids[..|ids| - 1], load);
      var m := load(ids[|ids| - 1]);
      if m.Success? then rest + [m.value] else rest
  }

  /** Loaded is empty exactly when no id loads; with every id loading, one media per id. */
  lemma {:induction false} LoadedEmpty(ids: seq<string>, load: string -> Result<Media, string>)
    ensures |Loaded(ids, load)| <= |ids|
    ensures |Loaded(ids, load)| == 0 <==> forall i :: 0 <= i < |ids| ==> load(ids[i]).Failure?
    ensures (forall i :: 0 <= i < |ids| ==> load(ids[i]).Success?) ==> |Loaded(ids, load)| == |ids|
  {
    if |ids| > 0 {
      var init := ids[..|ids| - 1];
      LoadedEmpty(init, load);
      assert forall i :: 0 <= i < |init| ==> init[i] == ids[i];
    }
  }

  /** QueuedMedias and ActiveMedias: load each job id's media record, skipping failures. */
  method LoadMedias(ids: seq<string>, load: string -> Result<Media, string>) returns (medias: seq<Media>)
    ensures medias == Loaded(ids, load)
  {
    medias := [];
    for i := 0 to |ids|
      invariant medias == Loaded(ids[..i], load)
    {
      assert ids[..i + 1][..i] == ids[..i];
      var m := load(ids[i]);
      if m.Success? {
        medias := medias + [m.value];
      }
    }
    assert ids[..|ids|] == ids;
  }
}

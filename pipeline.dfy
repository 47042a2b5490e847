/**
 * The per-job archival pipeline of the archiver package: resolve metadata,
 * fetch a thumbnail with a fallback resolution, resolve the download URL,
 * download the video and transcode it to AAC audio in an MP4 container.
 *
 * The network, ytdl, ffprobe, ffmpeg and local I/O failures are oracle inputs
 * (`Tools`); the storage directory is a map from path to contents.
 */
module Pipeline {
  import opened Wrappers
  import opened Text

  // ------------------------------------------------------------ storage

  /** The storage directory shared by all jobs: each path maps to the file's contents. */
  class FileSystem {
    var files: map<string, string>

    constructor (initial: map<string, string>)
      ensures files == initial
    {
      files := initial;
    }

    /** Writes `data` as the whole contents of `path` (os.Create followed by writes). */
    method Write(path: string, data: string)
      modifies this
      ensures files == old(files)[path := data]
    {
      files := files[path := data];
    }

    /** os.Rename: the contents move to `to`, and `from` disappears. */
    method Rename(from: string, to: string)
      requires from in files
      modifies this
      ensures files == (old(files) - {from})[to := old(files)[from]]
    {
      files := (files - {from})[to := files[from]];
    }

    /** os.Remove with its error ignored: removing a missing file changes nothing. */
    method Remove(path: string)
      modifies this
      ensures files == old(files) - {path}
    {
      files := files - {path};
    }
  }

  /** Writing a file and then removing it leaves the directory as removing it alone would. */
  lemma WriteRemove(files: map<string, string>, path: string, data: string)
    ensures files[path := data] - {path} == files - {path}
  {
  }

  /** Removing a missing file changes nothing. */
  lemma RemoveAbsent(files: map<string, string>, path: string)
    requires path !in files
    ensures files - {path} == files
  {
  }

  // ------------------------------------------------------------ oracles

  /** Result of an HTTP GET: a transport error, or a response with its status and body. */
  datatype HttpResult = RequestFailed(reason: string) | Response(status: int, body: string)

  /** Which local I/O call fails while writing a downloaded body, if any. */
  datatype WriteFault = NoFault | CreateFails | CopyFails(partial: string) | SyncFails | CloseFails | RenameFails

  /** The two ffprobe fields the archiver looks at. */
  datatype ProbeStream = ProbeStream(codecType: string, codecName: string)

  /** An ffmpeg run: exit status 0 with the file it wrote, or a failure and what it left behind. */
  datatype ToolRun = Exited(output: string) | ExitFailed(partial: string, log: string)

  /** What ytdl resolves for a video id: its id and its format list. */
  datatype VideoInfo = VideoInfo(id: string, formats: seq<string>)

  /** Everything outside the process: the answers each external call gives. */
  datatype Tools = Tools(
    videoInfo: string -> Result<VideoInfo, string>,      // ytdl.GetVideoInfoFromID
    downloadUrl: string -> Result<string, string>,       // vinfo.GetDownloadURL(format)
    http: string -> HttpResult,                          // GET with the browser User-Agent
    fault: (string, string) -> WriteFault,               // local failure writing url into a file
    hasFfmpeg: bool,                                     // exec.LookPath("ffmpeg")
    hasFfprobe: bool,                                    // exec.LookPath("ffprobe")
    ffprobe: string -> Result<seq<ProbeStream>, string>, // ffprobe run and JSON decoding
    ffmpeg: seq<string> -> ToolRun,                      // ffmpeg run with these arguments
    renameFails: string -> bool                          // os.Rename of this file fails
  )

  // ------------------------------------------------------------ download

  function DownloadingName(filename: string): string { filename + ".downloading" }

  /** download(ctx, url, filename) succeeds: not cancelled, status 200 and no local I/O failure. */
  predicate Fetches(t: Tools, cancelled: bool, url: string, filename: string)
  {
    !cancelled && t.http(url).Response? && t.http(url).status == 200 && t.fault(url, filename) == NoFault
  }

  /**
   * The directory after download(ctx, url, filename). A transport error or a
   * non-200 status returns before the temporary file is created; any later
   * failure leaves the temporary file removed by the deferred os.Remove.
   */
  function AfterDownload(files: map<string, string>, t: Tools, cancelled: bool, url: string, filename: string): map<string, string>
  {
    var res := t.http(url);
    var tmp := DownloadingName(filename);
    if cancelled || res.RequestFailed? || res.status != 200 then files
    else if t.fault(url, filename) == NoFault then (files - {tmp})[filename := res.body]
    else files - {tmp}
  }

  /** Only a successful download reaches `filename`; the temporary file never survives a download that created it. */
  lemma DownloadIsAtomic(files: map<string, string>, t: Tools, cancelled: bool, url: string, filename: string)
    ensures var after := AfterDownload(files, t, cancelled, url, filename);
      && (filename in after <==> Fetches(t, cancelled, url, filename) || filename in files)
      && (Fetches(t, cancelled, url, filename) ==> after[filename] == t.http(url).body)
      && (!Fetches(t, cancelled, url, filename) && filename in files ==> after[filename] == files[filename])
      && (DownloadingName(filename) !in files ==> DownloadingName(filename) !in after)
      && (forall p :: p != filename && p != DownloadingName(filename) ==>
            (p in after <==> p in files) && (p in files ==> after[p] == files[p]))
  {
    assert filename != DownloadingName(filename) by {
      assert |DownloadingName(filename)| == |filename| + 12;
    }
  }

  /**
   * download: GET the URL, reject a non-200 status, write the body to
   * `filename.downloading`, flush and close it, then rename it into place.
   */
  method Download(fs: FileSystem, t: Tools, cancelled: bool, url: string, filename: string) returns (err: Option<string>)
    modifies fs
    ensures err.None? <==> Fetches(t, cancelled, url, filename)
    ensures fs.files == AfterDownload(old(fs.files), t, cancelled, url, filename)
  {
    assert filename != DownloadingName(filename) by {
      assert |DownloadingName(filename)| == |filename| + 12;
    }
    if cancelled {
      return Some("context canceled");
    }
    var res := t.http(url);
    if res.RequestFailed? {
      return Some(res.reason);
    }
    if res.status != 200 {
      return Some("download " + url + " failed: status " + IntToString(res.status));
    }
    var tmp := DownloadingName(filename);
    var fault := t.fault(url, filename);
    ghost var files0 := fs.files;
    if fault == CreateFails {
      fs.Remove(tmp);
      return Some("create " + tmp + " failed");
    }
    fs.Write(tmp, "");
    WriteRemove(files0, tmp, "");
    if fault.CopyFails? {
      fs.Write(tmp, fault.partial);
      fs.Remove(tmp);
      WriteRemove(files0[tmp := ""], tmp, fault.partial);
      return Some("copy to " + tmp + " failed");
    }
    ghost var files1 := fs.files;
    fs.Write(tmp, res.body);
    WriteRemove(files1, tmp, res.body);
    if fault == SyncFails || fault == CloseFails {
      fs.Remove(tmp);
      return Some("sync or close of " + tmp + " failed");
    }
    if fault == RenameFails {
      fs.Remove(tmp);
      return Some("rename " + tmp + " failed");
    }
    fs.Rename(tmp, filename);
    RemoveAbsent(fs.files, tmp);
    fs.Remove(tmp);
    return None;
  }

  // ------------------------------------------------------------ transcode

  function TranscodingName(videoFile: string): string { videoFile + ".transcoding" }

  /** Some probed stream is an audio stream already encoded as AAC. */
  predicate HasAacAudio(streams: seq<ProbeStream>)
  {
    exists i :: 0 <= i < |streams| && IsAacAudio(streams[i])
  }

  predicate IsAacAudio(s: ProbeStream)
  {
    s.codecType == "audio" && s.codecName == "aac"
  }

  /** The `-c:a` value: stream copy when AAC audio is present, otherwise re-encode to AAC. */
  function CodecFor(streams: seq<ProbeStream>): string
  {
    if HasAacAudio(streams) then "copy" else "aac"
  }

  /** The scan over the probed streams that picks the audio codec parameter. */
  method AudioCodec(streams: seq<ProbeStream>) returns (codec: string)
    ensures codec == "copy" <==> HasAacAudio(streams)
    ensures codec == "aac" <==> !HasAacAudio(streams)
  {
    codec := "aac";
    for i := 0 to |streams|
      invariant codec == "copy" <==> HasAacAudio(streams[..i])
      invariant codec == "copy" || codec == "aac"
    {
      var typ := streams[i].codecType;
      var name := streams[i].codecName;
      if typ == "audio" && name == "aac" {
        codec := "copy";
      }
      assert streams[..i + 1] == streams[..i] + [streams[i]];
    }
    assert streams[..|streams|] == streams;
  }

  /** The ffmpeg command line: drop video, set the audio codec, fast start, MP4 output to `tmp`. */
  function FfmpegArgs(videoFile: string, codec: string, tmp: string): seq<string>
  {
    ["-y", "-i", videoFile, "-vn", "-c:a", codec, "-strict", "experimental",
     "-movflags", "faststart", "-f", "mp4", tmp]
  }

  /** ffprobe and ffmpeg are found and ffprobe succeeds: ffmpeg gets to run. */
  predicate ProbeOk(t: Tools, cancelled: bool, videoFile: string)
  {
    t.hasFfmpeg && t.hasFfprobe && !cancelled && t.ffprobe(videoFile).Success?
  }

  /** What ffmpeg does when it runs. */
  function FfmpegRun(t: Tools, videoFile: string): ToolRun
    requires t.ffprobe(videoFile).Success?
  {
    var tmp := TranscodingName(videoFile);
    t.ffmpeg(FfmpegArgs(videoFile, CodecFor(t.ffprobe(videoFile).value), tmp))
  }

  /** transcode(ctx, videoFile, audioFile) succeeds. */
  predicate Transcodes(t: Tools, cancelled: bool, videoFile: string)
  {
    ProbeOk(t, cancelled, videoFile) && FfmpegRun(t, videoFile).Exited? &&
    !t.renameFails(TranscodingName(videoFile))
  }

  /** The directory after transcode: the audio file appears only by renaming a finished ffmpeg output. */
  function AfterTranscode(files: map<string, string>, t: Tools, cancelled: bool, videoFile: string, audioFile: string): map<string, string>
  {
    var tmp := TranscodingName(videoFile);
    if !ProbeOk(t, cancelled, videoFile) then files
    else if Transcodes(t, cancelled, videoFile) then (files - {tmp})[audioFile := FfmpegRun(t, videoFile).output] - {tmp}
    else files - {tmp}
  }

  /**
   * transcode: look up ffmpeg, probe the streams, choose the audio codec, run
   * ffmpeg into `videoFile.transcoding` and rename the result to `audioFile`.
   */
  method RunTranscode(fs: FileSystem, t: Tools, cancelled: bool, videoFile: string, audioFile: string)
    returns (err: Option<string>)
    modifies fs
    ensures err.None? <==> Transcodes(t, cancelled, videoFile)
    ensures fs.files == AfterTranscode(old(fs.files), t, cancelled, videoFile, audioFile)
  {
    if !t.hasFfmpeg {
      return Some("exec: \"ffmpeg\": executable file not found in $PATH");
    }
    if !t.hasFfprobe {
      return Some("exec: \"ffprobe\": executable file not found in $PATH");
    }
    if cancelled {
      return Some("context canceled");
    }
    var probe := t.ffprobe(videoFile);
    if probe.Failure? {
      return Some(probe.error);
    }
    var codec := AudioCodec(probe.value);
    var tmp := TranscodingName(videoFile);
    var run := t.ffmpeg(FfmpegArgs(videoFile, codec, tmp));
    assert run == FfmpegRun(t, videoFile);
    ghost var files0 := fs.files;
    if run.ExitFailed? {
      fs.Write(tmp, run.partial);
      fs.Remove(tmp);
      WriteRemove(files0, tmp, run.partial);
      return Some("transcoding " + videoFile + " to " + tmp + " failed: " + run.log);
    }
    fs.Write(tmp, run.output);
    WriteRemove(files0, tmp, run.output);
    if t.renameFails(tmp) {
      fs.Remove(tmp);
      return Some("rename " + tmp + " failed");
    }
    fs.Rename(tmp, audioFile);
    fs.Remove(tmp);
    return None;
  }

  /** Only a finished, renamed ffmpeg output reaches `audioFile`; the temporary file never survives a run that created it. */
  lemma TranscodeIsAtomic(files: map<string, string>, t: Tools, cancelled: bool, videoFile: string, audioFile: string)
    requires audioFile != TranscodingName(videoFile)
    ensures var after := AfterTranscode(files, t, cancelled, videoFile, audioFile);
      && (audioFile in after <==> Transcodes(t, cancelled, videoFile) || audioFile in files)
      && (Transcodes(t, cancelled, videoFile) ==> after[audioFile] == FfmpegRun(t, videoFile).output)
      && (!Transcodes(t, cancelled, videoFile) && audioFile in files ==> after[audioFile] == files[audioFile])
      && (TranscodingName(videoFile) !in files ==> TranscodingName(videoFile) !in after)
      && (forall p :: p != audioFile && p != TranscodingName(videoFile) ==>
            (p in after <==> p in files) && (p in files ==> after[p] == files[p]))
  {
  }

  // ------------------------------------------------------------ the job pipeline

  /** The pipeline steps, in the order archive runs them. */
  datatype Step = Metadata | Thumbnail | DownloadUrl | VideoDownload | Transcode

  /**
   * How one archive run ends. `Panicked` is the index of an empty format list:
   * the goroutine panics, its deferred clean-up still runs, and the process dies.
   */
  datatype Outcome = Succeeded | Failed(step: Step) | Panicked

  function MaxresUrl(id: string): string { "https://img.youtube.com/vi/" + id + "/maxresdefault.jpg" }

  function HqUrl(id: string): string { "https://img.youtube.com/vi/" + id + "/hqdefault.jpg" }

  /** The thumbnail step fails only when both the maxres and the hq image fail. */
  predicate ThumbnailOk(t: Tools, cancelled: bool, info: VideoInfo, imagefile: string)
  {
    Fetches(t, cancelled, MaxresUrl(info.id), imagefile) || Fetches(t, cancelled, HqUrl(info.id), imagefile)
  }

  /** The outcome of archive: the first step that fails, in pipeline order. */
  function PipelineOutcome(t: Tools, cancelled: bool, id: string, imagefile: string, videofile: string): Outcome
  {
    var meta := t.videoInfo(id);
    if meta.Failure? then Failed(Metadata)
    else if !ThumbnailOk(t, cancelled, meta.value, imagefile) then Failed(Thumbnail)
    else if |meta.value.formats| == 0 then Panicked
    else
      var url := t.downloadUrl(meta.value.formats[0]);
      if url.Failure? then Failed(DownloadUrl)
      else if !Fetches(t, cancelled, url.value, videofile) then Failed(VideoDownload)
      else if !Transcodes(t, cancelled, videofile) then Failed(Transcode)
      else Succeeded
  }

  /** The image file after the thumbnail step: the maxres attempt, then the hq attempt if it failed. */
  function AfterThumbnail(files: map<string, string>, t: Tools, cancelled: bool, info: VideoInfo, imagefile: string): map<string, string>
  {
    var f := AfterDownload(files, t, cancelled, MaxresUrl(info.id), imagefile);
    if Fetches(t, cancelled, MaxresUrl(info.id), imagefile) then f
    else AfterDownload(f, t, cancelled, HqUrl(info.id), imagefile)
  }

  /**
   * The directory after archive. Once the download URL is known, the deferred
   * os.Remove of the raw video runs on every exit.
   */
  function AfterPipeline(files: map<string, string>, t: Tools, cancelled: bool,
                         id: string, imagefile: string, videofile: string, audiofile: string): map<string, string>
  {
    var meta := t.videoInfo(id);
    if meta.Failure? then files
    else
      var f := AfterThumbnail(files, t, cancelled, meta.value, imagefile);
      if !ThumbnailOk(t, cancelled, meta.value, imagefile) || |meta.value.formats| == 0 then f
      else
        var url := t.downloadUrl(meta.value.formats[0]);
        if url.Failure? then f
        else
          var g := AfterDownload(f, t, cancelled, url.value, videofile);
          var h := if Fetches(t, cancelled, url.value, videofile) then AfterTranscode(g, t, cancelled, videofile, audiofile) else g;
          h - {videofile}
  }

  /** The body of archive, up to (not including) its deferred completion. */
  method RunPipeline(fs: FileSystem, t: Tools, cancelled: bool,
                     id: string, imagefile: string, videofile: string, audiofile: string)
    returns (outcome: Outcome, reason: string)
    modifies fs
    ensures outcome == PipelineOutcome(t, cancelled, id, imagefile, videofile)
    ensures fs.files == AfterPipeline(old(fs.files), t, cancelled, id, imagefile, videofile, audiofile)
  {
    var meta := t.videoInfo(id);
    if meta.Failure? {
      return Failed(Metadata), meta.error;
    }
    var info := meta.value;

    var imgmax := MaxresUrl(info.id);
    var imgsd := HqUrl(info.id);
    var maxerr := Download(fs, t, cancelled, imgmax, imagefile);
    if maxerr.Some? {
      var sderr := Download(fs, t, cancelled, imgsd, imagefile);
      if sderr.Some? {
        return Failed(Thumbnail), "max: " + maxerr.value + " sd: " + sderr.value;
      }
    }

    if |info.formats| == 0 {
      return Panicked, "index out of range [0] with length 0";
    }
    var url := t.downloadUrl(info.formats[0]);
    if url.Failure? {
      return Failed(DownloadUrl), url.error;
    }

    var err := Download(fs, t, cancelled, url.value, videofile);
    if err.Some? {
      fs.Remove(videofile);
      return Failed(VideoDownload), err.value;
    }
    err := RunTranscode(fs, t, cancelled, videofile, audiofile);
    fs.Remove(videofile);
    if err.Some? {
      return Failed(Transcode), err.value;
    }
    return Succeeded, "";
  }

  // ------------------------------------------------------------ pipeline properties

  /** The six paths one job touches are pairwise different. */
  predicate DistinctPaths(imagefile: string, videofile: string, audiofile: string)
  {
    && imagefile != DownloadingName(imagefile) && imagefile != videofile
    && imagefile != DownloadingName(videofile) && imagefile != TranscodingName(videofile)
    && imagefile != audiofile
    && DownloadingName(imagefile) != videofile && DownloadingName(imagefile) != DownloadingName(videofile)
    && DownloadingName(imagefile) != TranscodingName(videofile) && DownloadingName(imagefile) != audiofile
    && videofile != DownloadingName(videofile) && videofile != TranscodingName(videofile)
    && videofile != audiofile
    && DownloadingName(videofile) != TranscodingName(videofile) && DownloadingName(videofile) != audiofile
    && TranscodingName(videofile) != audiofile
  }

  /** Path `p` is present in both directories or in neither, with the same contents. */
  predicate SameAt(a: map<string, string>, b: map<string, string>, p: string)
  {
    (p in a <==> p in b) && (p in a ==> a[p] == b[p])
  }

  /** A download touches only its target and its temporary file. */
  lemma DownloadFrame(files: map<string, string>, t: Tools, cancelled: bool, url: string, filename: string, p: string)
    requires p != filename && p != DownloadingName(filename)
    ensures SameAt(AfterDownload(files, t, cancelled, url, filename), files, p)
  {
  }

  /** The target and the temporary file of one download. */
  lemma DownloadTarget(files: map<string, string>, t: Tools, cancelled: bool, url: string, filename: string)
    ensures var after := AfterDownload(files, t, cancelled, url, filename);
      && (Fetches(t, cancelled, url, filename) ==> filename in after && after[filename] == t.http(url).body)
      && (!Fetches(t, cancelled, url, filename) ==> SameAt(after, files, filename))
      && (DownloadingName(filename) !in files ==> DownloadingName(filename) !in after)
  {
    assert filename != DownloadingName(filename) by {
      assert |DownloadingName(filename)| == |filename| + 12;
    }
  }

  /** A transcode touches only the audio file and its temporary file. */
  lemma TranscodeFrame(files: map<string, string>, t: Tools, cancelled: bool, videoFile: string, audioFile: string, p: string)
    requires p != audioFile && p != TranscodingName(videoFile)
    ensures SameAt(AfterTranscode(files, t, cancelled, videoFile, audioFile), files, p)
  {
  }

  /** The audio file and the temporary file of one transcode. */
  lemma TranscodeTarget(files: map<string, string>, t: Tools, cancelled: bool, videoFile: string, audioFile: string)
    requires audioFile != TranscodingName(videoFile)
    ensures var after := AfterTranscode(files, t, cancelled, videoFile, audioFile);
      && (Transcodes(t, cancelled, videoFile) ==> audioFile in after && after[audioFile] == FfmpegRun(t, videoFile).output)
      && (!Transcodes(t, cancelled, videoFile) ==> SameAt(after, files, audioFile))
      && (TranscodingName(videoFile) !in files ==> TranscodingName(videoFile) !in after)
  {
  }

  /** The thumbnail step touches only the image file and its temporary file. */
  lemma ThumbnailFrame(files: map<string, string>, t: Tools, cancelled: bool, info: VideoInfo, imagefile: string, p: string)
    requires p != imagefile && p != DownloadingName(imagefile)
    ensures SameAt(AfterThumbnail(files, t, cancelled, info, imagefile), files, p)
  {
    var f0 := AfterDownload(files, t, cancelled, MaxresUrl(info.id), imagefile);
    DownloadFrame(files, t, cancelled, MaxresUrl(info.id), imagefile, p);
    DownloadFrame(f0, t, cancelled, HqUrl(info.id), imagefile, p);
  }

  /** The image file after the thumbnail step: maxres, else hq, else untouched. */
  lemma ThumbnailImage(files: map<string, string>, t: Tools, cancelled: bool, info: VideoInfo, imagefile: string)
    ensures var f := AfterThumbnail(files, t, cancelled, info, imagefile);
      && (Fetches(t, cancelled, MaxresUrl(info.id), imagefile) ==>
            imagefile in f && f[imagefile] == t.http(MaxresUrl(info.id)).body)
      && (!Fetches(t, cancelled, MaxresUrl(info.id), imagefile) && Fetches(t, cancelled, HqUrl(info.id), imagefile) ==>
            imagefile in f && f[imagefile] == t.http(HqUrl(info.id)).body)
      && (!ThumbnailOk(t, cancelled, info, imagefile) ==> SameAt(f, files, imagefile))
      && (DownloadingName(imagefile) !in files ==> DownloadingName(imagefile) !in f)
  {
    var f0 := AfterDownload(files, t, cancelled, MaxresUrl(info.id), imagefile);
    DownloadTarget(files, t, cancelled, MaxresUrl(info.id), imagefile);
    DownloadTarget(f0, t, cancelled, HqUrl(info.id), imagefile);
  }

  /** The steps after the thumbnail touch only the video, the audio and their temporary files. */
  lemma LaterStepsFrame(files: map<string, string>, t: Tools, cancelled: bool,
                        id: string, imagefile: string, videofile: string, audiofile: string, p: string)
    requires t.videoInfo(id).Success?
    requires p != videofile && p != DownloadingName(videofile) && p != TranscodingName(videofile) && p != audiofile
    ensures SameAt(AfterPipeline(files, t, cancelled, id, imagefile, videofile, audiofile),
                   AfterThumbnail(files, t, cancelled, t.videoInfo(id).value, imagefile), p)
  {
    var info := t.videoInfo(id).value;
    var f := AfterThumbnail(files, t, cancelled, info, imagefile);
    if ThumbnailOk(t, cancelled, info, imagefile) && |info.formats| > 0 && t.downloadUrl(info.formats[0]).Success? {
      var url := t.downloadUrl(info.formats[0]).value;
      var g := AfterDownload(f, t, cancelled, url, videofile);
      DownloadFrame(f, t, cancelled, url, videofile, p);
      TranscodeFrame(g, t, cancelled, videofile, audiofile, p);
    }
  }

  /**
   * The audio file is written exactly when the whole pipeline succeeds, with
   * ffmpeg's output; on every other outcome it is left as it was.
   */
  lemma PipelineAudioAtomic(files: map<string, string>, t: Tools, cancelled: bool,
                            id: string, imagefile: string, videofile: string, audiofile: string)
    requires DistinctPaths(imagefile, videofile, audiofile)
    ensures var after := AfterPipeline(files, t, cancelled, id, imagefile, videofile, audiofile);
      var outcome := PipelineOutcome(t, cancelled, id, imagefile, videofile);
      && (outcome == Succeeded ==> audiofile in after && after[audiofile] == FfmpegRun(t, videofile).output)
      && (outcome != Succeeded ==> (audiofile in after <==> audiofile in files)
                                   && (audiofile in files ==> after[audiofile] == files[audiofile]))
  {
    var meta := t.videoInfo(id);
    if meta.Success? {
      var info := meta.value;
      var f := AfterThumbnail(files, t, cancelled, info, imagefile);
      ThumbnailFrame(files, t, cancelled, info, imagefile, audiofile);
      if ThumbnailOk(t, cancelled, info, imagefile) && |info.formats| > 0 && t.downloadUrl(info.formats[0]).Success? {
        var url := t.downloadUrl(info.formats[0]).value;
        var g := AfterDownload(f, t, cancelled, url, videofile);
        DownloadFrame(f, t, cancelled, url, videofile, audiofile);
        TranscodeTarget(g, t, cancelled, videofile, audiofile);
      }
    }
  }

  /** Once the download URL is obtained, the raw video is gone on every exit; before that it is untouched. */
  lemma PipelineRemovesVideo(files: map<string, string>, t: Tools, cancelled: bool,
                             id: string, imagefile: string, videofile: string, audiofile: string)
    requires DistinctPaths(imagefile, videofile, audiofile)
    ensures var after := AfterPipeline(files, t, cancelled, id, imagefile, videofile, audiofile);
      var outcome := PipelineOutcome(t, cancelled, id, imagefile, videofile);
      && (outcome == Succeeded || outcome == Failed(VideoDownload) || outcome == Failed(Transcode) ==>
            videofile !in after)
      && (outcome == Failed(Metadata) || outcome == Failed(Thumbnail) || outcome == Failed(DownloadUrl) || outcome == Panicked ==>
            SameAt(after, files, videofile))
  {
    var meta := t.videoInfo(id);
    if meta.Success? {
      ThumbnailFrame(files, t, cancelled, meta.value, imagefile, videofile);
    }
  }

  /** The pipeline leaves no `.downloading` or `.transcoding` file behind that was not there before. */
  lemma PipelineLeavesNoTemporaries(files: map<string, string>, t: Tools, cancelled: bool,
                                    id: string, imagefile: string, videofile: string, audiofile: string)
    requires DistinctPaths(imagefile, videofile, audiofile)
    requires DownloadingName(imagefile) !in files && DownloadingName(videofile) !in files
    requires TranscodingName(videofile) !in files
    ensures var after := AfterPipeline(files, t, cancelled, id, imagefile, videofile, audiofile);
      DownloadingName(imagefile) !in after && DownloadingName(videofile) !in after &&
      TranscodingName(videofile) !in after
  {
    var meta := t.videoInfo(id);
    if meta.Success? {
      var info := meta.value;
      var f := AfterThumbnail(files, t, cancelled, info, imagefile);
      ThumbnailImage(files, t, cancelled, info, imagefile);
      ThumbnailFrame(files, t, cancelled, info, imagefile, DownloadingName(videofile));
      ThumbnailFrame(files, t, cancelled, info, imagefile, TranscodingName(videofile));
      LaterStepsFrame(files, t, cancelled, id, imagefile, videofile, audiofile, DownloadingName(imagefile));
      if ThumbnailOk(t, cancelled, info, imagefile) && |info.formats| > 0 && t.downloadUrl(info.formats[0]).Success? {
        var url := t.downloadUrl(info.formats[0]).value;
        var g := AfterDownload(f, t, cancelled, url, videofile);
        DownloadTarget(f, t, cancelled, url, videofile);
        DownloadFrame(f, t, cancelled, url, videofile, TranscodingName(videofile));
        TranscodeFrame(g, t, cancelled, videofile, audiofile, DownloadingName(videofile));
        TranscodeTarget(g, t, cancelled, videofile, audiofile);
      }
    }
  }

  /**
   * The thumbnail comes from the maxres URL when that download succeeds and
   * from the hq URL otherwise; with both failing the image file is untouched.
   */
  lemma PipelineThumbnailFallback(files: map<string, string>, t: Tools, cancelled: bool,
                                  id: string, imagefile: string, videofile: string, audiofile: string)
    requires DistinctPaths(imagefile, videofile, audiofile)
    requires t.videoInfo(id).Success?
    ensures var after := AfterPipeline(files, t, cancelled, id, imagefile, videofile, audiofile);
      var info := t.videoInfo(id).value;
      && (Fetches(t, cancelled, MaxresUrl(info.id), imagefile) ==>
            imagefile in after && after[imagefile] == t.http(MaxresUrl(info.id)).body)
      && (!Fetches(t, cancelled, MaxresUrl(info.id), imagefile) && Fetches(t, cancelled, HqUrl(info.id), imagefile) ==>
            imagefile in after && after[imagefile] == t.http(HqUrl(info.id)).body)
      && (!ThumbnailOk(t, cancelled, info, imagefile) ==>
            PipelineOutcome(t, cancelled, id, imagefile, videofile) == Failed(Thumbnail) &&
            SameAt(after, files, imagefile))
  {
    var info := t.videoInfo(id).value;
    ThumbnailImage(files, t, cancelled, info, imagefile);
    LaterStepsFrame(files, t, cancelled, id, imagefile, videofile, audiofile, imagefile);
  }

  /** The codec rule: copy exactly when some stream is AAC audio (an mp3 or opus source is re-encoded). */
  lemma CodecRule(streams: seq<ProbeStream>)
    ensures CodecFor(streams) == "copy" <==> exists s :: s in streams && s.codecType == "audio" && s.codecName == "aac"
    ensures CodecFor([ProbeStream("audio", "mp3")]) == "aac"
    ensures CodecFor([ProbeStream("video", "h264"), ProbeStream("audio", "aac")]) == "copy"
  {
    var aac := ProbeStream("audio", "aac");
    assert IsAacAudio([ProbeStream("video", "h264"), aac][1]);
  }
}

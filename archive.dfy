/**
 * The job scheduler of the archiver package: a FIFO queue of jobs, a map of
 * active jobs keyed by video id, a map of failures, and a concurrency limit.
 *
 * The background manager loop and the archive goroutines become explicit
 * calls: `Tick` is one pass of the manager loop, `Complete` the deferred
 * clean-up of archive, and `Archive` one whole job run. Locks and sleeping
 * are not modelled; each method is one critical section.
 */
module Archive {
  import opened Wrappers
  import opened Text
  import opened Sorting
  import opened Pipeline

  function ImagePath(datadir: string, id: string): string { PathJoin(datadir, id + ".jpg") }
  function VideoPath(datadir: string, id: string): string { PathJoin(datadir, id + ".mp4") }
  function AudioPath(datadir: string, id: string): string { PathJoin(datadir, id + ".m4a") }

  /** One archival job. `cancelled` stands for the job's context having been cancelled. */
  class Job {
    const id: string
    const source: string
    const imagefile: string
    const videofile: string
    const audiofile: string
    var cancelled: bool

    /** newJob: the three output paths live in the data directory and are named after the id. */
    constructor (datadir: string, id: string, source: string)
      ensures this.id == id && this.source == source
      ensures imagefile == ImagePath(datadir, id)
      ensures videofile == VideoPath(datadir, id)
      ensures audiofile == AudioPath(datadir, id)
      ensures !cancelled
    {
      this.id := id;
      this.source := source;
      imagefile := ImagePath(datadir, id);
      videofile := VideoPath(datadir, id);
      audiofile := AudioPath(datadir, id);
      cancelled := false;
    }

    /** The job's cancel function. */
    method Cancel()
      modifies this
      ensures cancelled
    {
      cancelled := true;
    }
  }

  lemma AppendCancel(b: string, x: string, y: string)
    requires b + x == b + y
    ensures x == y
  {
    assert x == (b + x)[|b|..];
    assert y == (b + y)[|b|..];
  }

  /** The six files one job touches (three outputs and three temporaries) never coincide. */
  lemma JobPathsDistinct(datadir: string, id: string)
    ensures DistinctPaths(ImagePath(datadir, id), VideoPath(datadir, id), AudioPath(datadir, id))
  {
    var b := PathJoin(datadir, id);
    PathJoinSuffix(datadir, id, ".jpg");
    PathJoinSuffix(datadir, id, ".mp4");
    PathJoinSuffix(datadir, id, ".m4a");
    var sfx := [".jpg", ".jpg.downloading", ".mp4", ".mp4.downloading", ".mp4.transcoding", ".m4a"];
    assert DownloadingName(b + ".jpg") == b + ".jpg.downloading";
    assert DownloadingName(b + ".mp4") == b + ".mp4.downloading";
    assert TranscodingName(b + ".mp4") == b + ".mp4.transcoding";
    forall i, j | 0 <= i < j < |sfx|
      ensures b + sfx[i] != b + sfx[j]
    {
      if b + sfx[i] == b + sfx[j] {
        AppendCancel(b, sfx[i], sfx[j]);
      }
    }
    assert b + sfx[0] != b + sfx[1] && b + sfx[0] != b + sfx[2] && b + sfx[0] != b + sfx[3];
    assert b + sfx[0] != b + sfx[4] && b + sfx[0] != b + sfx[5];
    assert b + sfx[1] != b + sfx[2] && b + sfx[1] != b + sfx[3] && b + sfx[1] != b + sfx[4];
    assert b + sfx[1] != b + sfx[5];
    assert b + sfx[2] != b + sfx[3] && b + sfx[2] != b + sfx[4] && b + sfx[2] != b + sfx[5];
    assert b + sfx[3] != b + sfx[4] && b + sfx[3] != b + sfx[5] && b + sfx[4] != b + sfx[5];
  }

  /** The ids of a queue, in queue order. */
  function Ids(q: seq<Job>): seq<string>
  {
    seq(|q|, i requires 0 <= i < |q| => q[i].id)
  }

  predicate Distinct(s: seq<string>)
  {
    forall i, j :: 0 <= i < j < |s| ==> s[i] != s[j]
  }

  class Archiver {
    const datadir: string
    var concurrency: int
    var queue: seq<Job>
    var active: map<string, Job>
    var failed: map<string, string>

    /**
     * The scheduler invariant: queued ids are pairwise different, no id is both
     * queued and active, and every active key is its job's id.
     */
    ghost predicate Valid()
      reads this
    {
      && Distinct(Ids(queue))
      && (forall i :: 0 <= i < |queue| ==> queue[i].id !in active)
      && (forall k :: k in active ==> active[k].id == k)
    }

    /** NewArchiver: empty queue, no active job, no failure. */
    constructor (datadir: string, concurrency: int)
      ensures this.datadir == datadir && this.concurrency == concurrency
      ensures queue == [] && active == map[] && failed == map[]
      ensures Valid()
    {
      this.datadir := datadir;
      this.concurrency := concurrency;
      queue := [];
      active := map[];
      failed := map[];
    }

    /** setConcurrency changes the limit only; no active job is evicted. */
    method SetConcurrency(n: int)
      requires Valid()
      modifies this
      ensures concurrency == n
      ensures queue == old(queue) && active == old(active) && failed == old(failed)
      ensures Valid()
    {
      concurrency := n;
    }

    method GetConcurrency() returns (n: int)
      ensures n == concurrency
    {
      n := concurrency;
    }

    /** queued: a linear search of the queue for the id. */
    method Queued(id: string) returns (b: bool)
      ensures b <==> id in Ids(queue)
    {
      var i := 0;
      while i < |queue|
        invariant 0 <= i <= |queue|
        invariant id !in Ids(queue)[..i]
      {
        if queue[i].id == id {
          assert Ids(queue)[i] == id;
          return true;
        }
        assert Ids(queue)[..i + 1] == Ids(queue)[..i] + [queue[i].id];
        i := i + 1;
      }
      assert Ids(queue)[..i] == Ids(queue);
      return false;
    }

    /** QueuedJobs: exactly the queued ids, sorted. */
    method QueuedJobs() returns (ids: seq<string>)
      ensures Sorted(ids)
      ensures multiset(ids) == multiset(Ids(queue))
    {
      var collected: seq<string> := [];
      for i := 0 to |queue|
        invariant collected == Ids(queue)[..i]
      {
        collected := collected + [queue[i].id];
      }
      assert collected == Ids(queue);
      ids := SortStrings(collected);
    }

    /** ActiveJobs: exactly the active ids (map keys, in arbitrary order), sorted. */
    method ActiveJobs() returns (ids: seq<string>)
      ensures Sorted(ids)
      ensures multiset(ids) == multiset(active.Keys)
    {
      var collected: seq<string> := [];
      var rest := active.Keys;
      while rest != {}
        invariant rest <= active.Keys
        invariant multiset(collected) + multiset(rest) == multiset(active.Keys)
        decreases |rest|
      {
        var k :| k in rest;
        assert rest == (rest - {k}) + {k};
        collected := collected + [k];
        rest := rest - {k};
      }
      ids := SortStrings(collected);
    }

    /** InProgress: the id is queued or active. */
    method InProgress(id: string) returns (b: bool)
      ensures b <==> id in Ids(queue) || id in active
    {
      var q := QueuedJobs();
      for i := 0 to |q|
        invariant id !in q[..i]
      {
        if q[i] == id {
          assert id in multiset(q);
          return true;
        }
      }
      assert q[..|q|] == q;
      var a := ActiveJobs();
      for i := 0 to |a|
        invariant id !in a[..i]
      {
        if a[i] == id {
          assert id in multiset(a);
          return true;
        }
      }
      assert a[..|a|] == a;
      assert id !in multiset(q) && id !in multiset(a);
      return false;
    }

    /**
     * Add: nothing happens when the id is already active or queued; otherwise
     * one new job for it goes to the back of the queue. Either way the id is
     * then in progress, so adding twice is adding once.
     */
    method Add(id: string, source: string)
      requires Valid()
      modifies this
      ensures Valid()
      ensures active == old(active) && failed == old(failed) && concurrency == old(concurrency)
      ensures id in old(active) || id in Ids(old(queue)) ==> queue == old(queue)
      ensures id !in old(active) && id !in Ids(old(queue)) ==>
        && |queue| == |old(queue)| + 1
        && queue[..|old(queue)|] == old(queue)
        && fresh(queue[|old(queue)|])
        && queue[|old(queue)|].id == id && queue[|old(queue)|].source == source
        && queue[|old(queue)|].imagefile == ImagePath(datadir, id)
        && queue[|old(queue)|].videofile == VideoPath(datadir, id)
        && queue[|old(queue)|].audiofile == AudioPath(datadir, id)
        && !queue[|old(queue)|].cancelled
      ensures id in active || id in Ids(queue)
    {
      if id in active {
        return;
      }
      var q := Queued(id);
      if q {
        return;
      }
      var job := new Job(datadir, id, source);
      queue := queue + [job];
      assert Ids(queue) == Ids(old(queue)) + [id];
      assert id in Ids(queue);
    }

    /**
     * Remove: an id that is not active is ignored, even when it is queued.
     * Otherwise the job's cancel fires and only that key leaves the active map.
     */
    method Remove(id: string)
      requires Valid()
      modifies this, if id in active then {active[id]} else {}
      ensures Valid()
      ensures queue == old(queue) && failed == old(failed) && concurrency == old(concurrency)
      ensures id !in old(active) ==> active == old(active)
      ensures id in old(active) ==> active == old(active) - {id} && old(active)[id].cancelled
    {
      if id !in active {
        return;
      }
      var job := active[id];
      job.Cancel();
      active := active - {job.id};
    }

    /**
     * One pass of the manager loop: when the queue is not empty and fewer than
     * `concurrency` jobs are active, the queue head becomes active under its id.
     * At most one job is promoted, and a promotion never takes the number of
     * active jobs past the limit.
     */
    method Tick() returns (promoted: Option<Job>)
      requires Valid()
      modifies this
      ensures Valid()
      ensures failed == old(failed) && concurrency == old(concurrency)
      ensures |old(queue)| > 0 && |old(active)| < concurrency ==>
        && promoted == Some(old(queue)[0])
        && queue == old(queue)[1..]
        && active == old(active)[old(queue)[0].id := old(queue)[0]]
        && |active| == |old(active)| + 1
      ensures !(|old(queue)| > 0 && |old(active)| < concurrency) ==>
        promoted == None && queue == old(queue) && active == old(active)
      ensures |active| <= concurrency || active == old(active)
    {
      promoted := None;
      if |queue| > 0 && |active| < concurrency {
        var job := queue[0];
        queue := queue[1..];
        assert job.id !in active;
        active := active[job.id := job];
        promoted := Some(job);
        assert Ids(queue) == Ids(old(queue))[1..];
        forall i | 0 <= i < |queue|
          ensures queue[i].id != job.id
        {
          assert Ids(old(queue))[i + 1] != Ids(old(queue))[0];
        }
      }
    }

    /**
     * The deferred clean-up of archive: the key `job.id` leaves the active map
     * (whichever job now holds it), and a failure is recorded only on error.
     */
    method Complete(job: Job, err: Option<string>)
      requires Valid()
      modifies this
      ensures Valid()
      ensures queue == old(queue) && concurrency == old(concurrency)
      ensures active == old(active) - {job.id}
      ensures err.Some? ==> failed == old(failed)[job.id := err.value]
      ensures err.None? ==> failed == old(failed)
    {
      active := active - {job.id};
      if err.Some? {
        failed := failed[job.id := err.value];
      }
    }

    /**
     * archive: run the pipeline with the job's cancellation state, then complete.
     * A failed step records its error; success and the empty-format panic do not.
     */
    method Archive(job: Job, t: Tools, fs: FileSystem) returns (outcome: Outcome)
      requires Valid()
      modifies this, fs
      ensures Valid()
      ensures outcome == PipelineOutcome(t, job.cancelled, job.id, job.imagefile, job.videofile)
      ensures fs.files == AfterPipeline(old(fs.files), t, job.cancelled, job.id, job.imagefile, job.videofile, job.audiofile)
      ensures queue == old(queue) && concurrency == old(concurrency)
      ensures active == old(active) - {job.id}
      ensures outcome.Failed? ==> job.id in failed && failed - {job.id} == old(failed) - {job.id}
      ensures !outcome.Failed? ==> failed == old(failed)
    {
      var reason;
      outcome, reason := RunPipeline(fs, t, job.cancelled, job.id, job.imagefile, job.videofile, job.audiofile);
      var err := if outcome.Failed? then Some(reason) else None;
      Complete(job, err);
    }
  }

  /**
   * The manager is FIFO and honours the limit: with concurrency 1, the second
   * job waits until the first completes, and then it is the one promoted.
   */
  method FifoScenario(datadir: string) returns (a: Archiver, first: Option<Job>, blocked: Option<Job>, second: Option<Job>)
    ensures a.Valid()
    ensures first.Some? && first.value.id == "a"
    ensures blocked == None
    ensures second.Some? && second.value.id == "b"
    ensures a.active.Keys == {"b"} && a.queue == []
  {
    a := new Archiver(datadir, 1);
    a.Add("a", "https://example.org/a");
    assert Ids(a.queue) == ["a"];
    a.Add("b", "https://example.org/b");
    assert a.queue[1].id == "b";
    a.Add("a", "https://example.org/a");
    first := a.Tick();
    assert a.active.Keys == {"a"} && a.queue[0].id == "b";
    blocked := a.Tick();
    a.Complete(first.value, None);
    second := a.Tick();
  }

  /**
   * Completion deletes by id: after Remove and a re-Add of the same id, the
   * first job's late completion drops the second, still running, job from the
   * active map, so the id is no longer reported in progress.
   */
  method RemoveReAddScenario(datadir: string, id: string, source: string)
    returns (a: Archiver, first: Job, second: Job, inProgress: bool)
    ensures a.Valid()
    ensures first != second && first.id == id && second.id == id
    ensures first.cancelled && !second.cancelled
    ensures id !in a.active && a.queue == []
    ensures !inProgress
  {
    a := new Archiver(datadir, 1);
    a.Add(id, source);
    var p := a.Tick();
    first := p.value;
    a.Remove(id);
    a.Add(id, source);
    p := a.Tick();
    second := p.value;
    a.Complete(first, None);
    inProgress := a.InProgress(id);
  }
}

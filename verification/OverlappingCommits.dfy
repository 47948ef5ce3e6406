/** Commits that overlap. Every file-system call of a commit is awaited and nothing reserves its
    destination, so any number of commits run step by step in any interleaving. */
module OverlappingCommits {
  import opened Common
  import opened ReversibleMove

  type Fingerprint = Bytes -> string

  /** A commit and what the disk will do to its two copies. */
  datatype Job = Job(request: CommitRequest, disk: Disk) {
    function Source(): string {
      request.plan.relativeSource
    }

    function Destination(): string {
      request.plan.relativeDestination
    }

    function Temp(): string {
      TempName(request)
    }

    /** The temporary copy reads back with the expected fingerprint. */
    predicate Verifies(fingerprint: Fingerprint) {
      fingerprint(disk.stored) == request.plan.sourceFingerprint
    }
  }

  /** What a commit has done; the next file-system call is the one that follows it. */
  datatype Progress =
    | Starting | SourceChecked | Cleared | Copied | Spoiled | Verified | Renamed | Refuted | Confirmed | Finished | Stopped

  /** The next step of a commit. A call on a file that is not there stops it. */
  function Advance(fingerprint: Fingerprint, files: Files, job: Job, p: Progress): (Files, Progress) {
    var plan, source, destination, temp := job.request.plan, job.Source(), job.Destination(), job.Temp();
    match p
    case Starting =>
      if job.request.planId != plan.planId || source !in files
         || fingerprint(files[source]) != job.request.expectedFingerprint
         || fingerprint(files[source]) != plan.sourceFingerprint then (files, Stopped) else (files, SourceChecked)
    case SourceChecked => (files, if destination in files then Stopped else Cleared)
    case Cleared => (files[temp := job.disk.stored], Copied)
    case Copied =>
      if temp !in files then (files, Stopped)
      else (files, if fingerprint(files[temp]) == plan.sourceFingerprint then Verified else Spoiled)
    case Spoiled => (files - {temp}, Stopped)
    case Verified => if temp !in files then (files, Stopped) else ((files - {temp})[destination := job.disk.landed], Renamed)
    case Renamed =>
      if destination !in files then (files, Stopped)
      else (files, if fingerprint(files[destination]) == plan.sourceFingerprint then Confirmed else Refuted)
    case Refuted => (files - {destination}, Stopped)
    case Confirmed => (files - {source}, Finished)
    case Finished => (files, Finished)
    case Stopped => (files, Stopped)
  }

  /** A call on a file that another commit has taken away fails, and the commit goes no further. */
  lemma GoneFileStops(fingerprint: Fingerprint, files: Files, job: Job, p: Progress)
    requires (p in {Copied, Verified} && job.Temp() !in files) || (p == Renamed && job.Destination() !in files)
    ensures Advance(fingerprint, files, job, p) == (files, Stopped)
  {
  }

  /** `n` steps of a commit nobody overlaps. */
  function Alone(fingerprint: Fingerprint, files: Files, job: Job, n: nat): (Files, Progress) {
    if n == 0 then (files, Starting)
    else
      var (before, p) := Alone(fingerprint, files, job, n - 1);
      Advance(fingerprint, before, job, p)
  }

  lemma {:induction false} EndedStays(fingerprint: Fingerprint, files: Files, job: Job, m: nat, n: nat)
    requires m <= n && Alone(fingerprint, files, job, m).1 in {Finished, Stopped}
    ensures Alone(fingerprint, files, job, n) == Alone(fingerprint, files, job, m)
  {
    if m < n {
      EndedStays(fingerprint, files, job, m, n - 1);
    }
  }

  lemma AloneThrough(fingerprint: Fingerprint, files: Files, job: Job, k: nat, p: Progress, now: Files)
    requires Alone(fingerprint, files, job, k) == (now, p)
    ensures Alone(fingerprint, files, job, k + 1) == Advance(fingerprint, now, job, p)
  {
  }

  /** Alone, the steps are the commit: they end after at most eight with the files and the verdict
      of `CommitMove`. */
  lemma AloneIsCommit(fingerprint: Fingerprint, files: Files, job: Job, n: nat)
    requires job.Temp() !in files && n >= 8
    ensures Alone(fingerprint, files, job, n).0 == AfterCommit(fingerprint, files, job.request, job.disk)
    ensures Alone(fingerprint, files, job, n).1
            == if CommitVerdict(fingerprint, files, job.request, job.disk).Accepted? then Finished else Stopped
  {
    var k: nat, now, p := 0, files, Starting;
    while k < n && p != Finished && p != Stopped
      invariant k <= n && Alone(fingerprint, files, job, k) == (now, p)
      invariant Halfway(fingerprint, files, job, k, now, p)
      decreases n - k
    {
      AloneThrough(fingerprint, files, job, k, p, now);
      HalfwayStep(fingerprint, files, job, k, now, p);
      var next := Advance(fingerprint, now, job, p);
      k, now, p := k + 1, next.0, next.1;
    }
    EndedStays(fingerprint, files, job, k, n);
  }

  /** Where a commit alone stands after `k` steps. */
  ghost predicate Halfway(fingerprint: Fingerprint, files: Files, job: Job, k: nat, now: Files, p: Progress) {
    var plan, destination, temp := job.request.plan, job.Destination(), job.Temp();
    var clear := CommitGuard(fingerprint, files, job.request) == None;
    var stored := fingerprint(job.disk.stored) == plan.sourceFingerprint;
    var landed := fingerprint(job.disk.landed) == plan.sourceFingerprint;
    match p
    case Starting => k == 0 && now == files
    case SourceChecked =>
      k == 1 && now == files && (clear <==> destination !in files)
    case Cleared => k == 2 && now == files && clear
    case Copied => k == 3 && clear && now == files[temp := job.disk.stored]
    case Spoiled => k == 4 && clear && !stored && now == files[temp := job.disk.stored]
    case Verified => k == 4 && clear && stored && now == files[temp := job.disk.stored]
    case Renamed => k == 5 && clear && stored && now == files[destination := job.disk.landed]
    case Refuted => k == 6 && clear && stored && !landed && now == files[destination := job.disk.landed]
    case Confirmed => k == 6 && clear && stored && landed && now == files[destination := job.disk.landed]
    case Finished =>
      clear && stored && landed && now == AfterCommit(fingerprint, files, job.request, job.disk)
    case Stopped =>
      !(clear && stored && landed) && now == AfterCommit(fingerprint, files, job.request, job.disk)
  }

  lemma HalfwayStep(fingerprint: Fingerprint, files: Files, job: Job, k: nat, now: Files, p: Progress)
    requires job.Temp() !in files && p != Finished && p != Stopped
    requires Halfway(fingerprint, files, job, k, now, p)
    ensures var (after, q) := Advance(fingerprint, now, job, p); Halfway(fingerprint, files, job, k + 1, after, q)
  {
    CommitEndsCleanly(fingerprint, files, job.request, job.disk);
    var destination, temp := job.Destination(), job.Temp();
    assert files[temp := job.disk.stored] - {temp} == files;
    if CommitGuard(fingerprint, files, job.request) == None {
      assert files[destination := job.disk.landed] - {destination} == files;
      assert files[destination := job.disk.landed] - {job.Source()}
             == (files - {job.Source()})[destination := job.disk.landed];
    }
  }

  datatype World = World(files: Files, progress: seq<Progress>)

  function Next(fingerprint: Fingerprint, jobs: seq<Job>, w: World, n: nat): (after: World)
    ensures |after.progress| == |w.progress|
  {
    if n >= |jobs| || n >= |w.progress| then w
    else
      var (files, p) := Advance(fingerprint, w.files, jobs[n], w.progress[n]);
      World(files, w.progress[n := p])
  }

  /** A schedule names, turn by turn, the commit that makes its next step. */
  function Play(fingerprint: Fingerprint, jobs: seq<Job>, w: World, schedule: seq<nat>): (after: World)
    ensures |after.progress| == |w.progress|
  {
    if schedule == [] then w
    else Next(fingerprint, jobs, Play(fingerprint, jobs, w, schedule[..|schedule| - 1]), schedule[|schedule| - 1])
  }

  function Begin(jobs: seq<Job>, files: Files): World {
    World(files, seq(|jobs|, _ => Starting))
  }

  /** The next step of commit `n` would replace the bytes of an existing file. */
  predicate Overwrites(jobs: seq<Job>, w: World, n: nat)
    requires n < |jobs| == |w.progress|
  {
    || (w.progress[n] == Cleared && jobs[n].Temp() in w.files)
    || (w.progress[n] == Verified && jobs[n].Temp() in w.files && jobs[n].Destination() in w.files)
  }

  /** Each commit alone would pass its guards, and the random suffixes are fresh. */
  ghost predicate Ready(fingerprint: Fingerprint, jobs: seq<Job>, files: Files) {
    && (forall i :: 0 <= i < |jobs| ==>
          CommitGuard(fingerprint, files, jobs[i].request) == None && jobs[i].Temp() !in files)
    && (forall i, j :: 0 <= i < |jobs| && 0 <= j < |jobs| ==> jobs[i].Temp() != jobs[j].Destination())
    && (forall i, j :: 0 <= i < |jobs| && 0 <= j < |jobs| && i != j ==> jobs[i].Temp() != jobs[j].Temp())
  }

  /** Both copies verify and were planned into one destination. */
  ghost predicate Shares(fingerprint: Fingerprint, jobs: seq<Job>, i: nat, j: nat)
    requires i < |jobs| && j < |jobs|
  {
    && i != j && jobs[i].Verifies(fingerprint) && jobs[j].Verifies(fingerprint)
    && jobs[i].Destination() == jobs[j].Destination()
  }

  /** No two commits whose copies verify were planned into one destination. */
  ghost predicate Apart(fingerprint: Fingerprint, jobs: seq<Job>) {
    forall i, j :: 0 <= i < |jobs| && 0 <= j < |jobs| ==> !Shares(fingerprint, jobs, i, j)
  }

  // ---- what every schedule keeps ---------------------------------------------------------

  predicate HoldsTemp(p: Progress) {
    p in {Copied, Spoiled, Verified}
  }

  predicate HasRenamed(p: Progress) {
    p in {Renamed, Refuted, Confirmed, Finished}
  }

  /** A commit's temporary file is there exactly between its copy and its rename, and only a
      verified copy gets to the rename. */
  predicate TempAt(fingerprint: Fingerprint, job: Job, files: Files, p: Progress) {
    && (job.Temp() in files <==> HoldsTemp(p))
    && (job.Temp() in files ==> files[job.Temp()] == job.disk.stored)
    && (p == Verified || HasRenamed(p) ==> job.Verifies(fingerprint))
  }

  /** A taken destination was taken by a commit planned into it. */
  ghost predicate TakenBy(jobs: seq<Job>, w: World, destination: string)
    requires |jobs| == |w.progress|
  {
    exists j :: 0 <= j < |jobs| && jobs[j].Destination() == destination && HasRenamed(w.progress[j])
  }

  ghost predicate NamesHold(fingerprint: Fingerprint, jobs: seq<Job>, w: World)
    requires |jobs| == |w.progress|
  {
    && (forall i :: 0 <= i < |jobs| ==> TempAt(fingerprint, jobs[i], w.files, w.progress[i]))
    && (forall i :: 0 <= i < |jobs| && jobs[i].Destination() in w.files ==> TakenBy(jobs, w, jobs[i].Destination()))
  }

  /** A confirmed destination holds the planned content. */
  predicate DestinationHolds(fingerprint: Fingerprint, job: Job, files: Files) {
    job.Destination() in files && fingerprint(files[job.Destination()]) == job.request.plan.sourceFingerprint
  }

  predicate SourceHolds(job: Job, files: Files, now: Files)
    requires job.Source() in files
  {
    job.Source() in now && now[job.Source()] == files[job.Source()]
  }

  ghost predicate FinishedFor(jobs: seq<Job>, w: World, source: string)
    requires |jobs| == |w.progress|
  {
    exists j :: 0 <= j < |jobs| && jobs[j].Source() == source && w.progress[j] == Finished
  }

  ghost predicate ContentHolds(fingerprint: Fingerprint, jobs: seq<Job>, files: Files, w: World)
    requires |jobs| == |w.progress| && forall i :: 0 <= i < |jobs| ==> jobs[i].Source() in files
  {
    && (forall i :: 0 <= i < |jobs| && w.progress[i] in {Confirmed, Finished} ==> DestinationHolds(fingerprint, jobs[i], w.files))
    && (forall i :: 0 <= i < |jobs| ==> SourceHolds(jobs[i], files, w.files) || FinishedFor(jobs, w, jobs[i].Source()))
  }

  /** A step changes its own temporary file, destination and source at most: the destination only
      from a verified or refuted copy, the source only from a confirmed one. */
  lemma StepTouchesOwn(fingerprint: Fingerprint, files: Files, job: Job, p: Progress, path: string)
    requires path != job.Temp()
    requires path == job.Destination() ==> p != Verified && p != Refuted
    requires path == job.Source() ==> p != Confirmed
    ensures var after := Advance(fingerprint, files, job, p).0;
            (path in after <==> path in files) && (path in files ==> after[path] == files[path])
  {
  }

  lemma StepKeepsOwnTemp(fingerprint: Fingerprint, files: Files, job: Job, p: Progress)
    requires TempAt(fingerprint, job, files, p) && job.Temp() != job.Destination() && job.Temp() != job.Source()
    ensures var (after, q) := Advance(fingerprint, files, job, p); TempAt(fingerprint, job, after, q)
  {
  }

  lemma ReadyNames(fingerprint: Fingerprint, jobs: seq<Job>, files: Files, i: nat, j: nat)
    requires Ready(fingerprint, jobs, files) && i < |jobs| && j < |jobs|
    ensures jobs[i].Source() in files && jobs[i].Destination() !in files && jobs[i].Temp() !in files
    ensures jobs[i].Temp() != jobs[j].Source() && jobs[i].Destination() != jobs[j].Source()
    ensures jobs[i].Temp() != jobs[j].Destination() && (i != j ==> jobs[i].Temp() != jobs[j].Temp())
    ensures fingerprint(files[jobs[i].Source()]) == jobs[i].request.plan.sourceFingerprint
  {
    assert CommitGuard(fingerprint, files, jobs[i].request) == None;
    assert CommitGuard(fingerprint, files, jobs[j].request) == None;
  }

  lemma TempStays(fingerprint: Fingerprint, jobs: seq<Job>, files: Files, w: World, n: nat, i: nat)
    requires Ready(fingerprint, jobs, files) && |jobs| == |w.progress| && n < |jobs| && i < |jobs|
    requires NamesHold(fingerprint, jobs, w)
    ensures var after := Next(fingerprint, jobs, w, n);
            TempAt(fingerprint, jobs[i], after.files, after.progress[i])
  {
    assert TempAt(fingerprint, jobs[i], w.files, w.progress[i]);
    ReadyNames(fingerprint, jobs, files, i, n);
    if i == n {
      StepKeepsOwnTemp(fingerprint, w.files, jobs[n], w.progress[n]);
    } else {
      StepTouchesOwn(fingerprint, w.files, jobs[n], w.progress[n], jobs[i].Temp());
    }
  }

  lemma RenamedStays(fingerprint: Fingerprint, files: Files, job: Job, p: Progress)
    requires HasRenamed(p)
    ensures var (after, q) := Advance(fingerprint, files, job, p); HasRenamed(q) || job.Destination() !in after
  {
  }

  /** A destination taken after a step was taken by a commit planned into it. */
  lemma TakenStays(fingerprint: Fingerprint, jobs: seq<Job>, files: Files, w: World, n: nat, i: nat)
    requires Ready(fingerprint, jobs, files) && |jobs| == |w.progress| && n < |jobs| && i < |jobs|
    requires NamesHold(fingerprint, jobs, w)
    requires jobs[i].Destination() in Next(fingerprint, jobs, w, n).files
    ensures TakenBy(jobs, Next(fingerprint, jobs, w, n), jobs[i].Destination())
  {
    var after, d := Next(fingerprint, jobs, w, n), jobs[i].Destination();
    ReadyNames(fingerprint, jobs, files, i, n);
    ReadyNames(fingerprint, jobs, files, n, i);
    if jobs[n].Destination() == d && w.progress[n] == Verified {
      assert TempAt(fingerprint, jobs[n], w.files, w.progress[n]);
      assert HasRenamed(after.progress[n]);
    } else {
      if jobs[n].Destination() != d {
        StepTouchesOwn(fingerprint, w.files, jobs[n], w.progress[n], d);
      }
      assert d in w.files;
      var j :| 0 <= j < |jobs| && jobs[j].Destination() == d && HasRenamed(w.progress[j]);
      if j == n {
        RenamedStays(fingerprint, w.files, jobs[n], w.progress[n]);
      }
      assert HasRenamed(after.progress[j]);
    }
  }

  lemma NextKeepsNames(fingerprint: Fingerprint, jobs: seq<Job>, files: Files, w: World, n: nat)
    requires Ready(fingerprint, jobs, files) && |jobs| == |w.progress| && NamesHold(fingerprint, jobs, w)
    ensures NamesHold(fingerprint, jobs, Next(fingerprint, jobs, w, n))
  {
    if n < |jobs| {
      var after := Next(fingerprint, jobs, w, n);
      forall i | 0 <= i < |jobs|
        ensures TempAt(fingerprint, jobs[i], after.files, after.progress[i])
      {
        TempStays(fingerprint, jobs, files, w, n, i);
      }
      forall i | 0 <= i < |jobs| && jobs[i].Destination() in after.files
        ensures TakenBy(jobs, after, jobs[i].Destination())
      {
        TakenStays(fingerprint, jobs, files, w, n, i);
      }
    }
  }

  lemma BeginHolds(fingerprint: Fingerprint, jobs: seq<Job>, files: Files)
    requires Ready(fingerprint, jobs, files)
    ensures forall i :: 0 <= i < |jobs| ==> jobs[i].Source() in files
    ensures NamesHold(fingerprint, jobs, Begin(jobs, files)) && ContentHolds(fingerprint, jobs, files, Begin(jobs, files))
  {
    forall i | 0 <= i < |jobs|
      ensures jobs[i].Source() in files && jobs[i].Destination() !in files && jobs[i].Temp() !in files
    {
      ReadyNames(fingerprint, jobs, files, i, i);
    }
  }

  lemma {:induction false} PlayKeepsNames(fingerprint: Fingerprint, jobs: seq<Job>, files: Files, schedule: seq<nat>)
    requires Ready(fingerprint, jobs, files)
    ensures NamesHold(fingerprint, jobs, Play(fingerprint, jobs, Begin(jobs, files), schedule))
  {
    if schedule == [] {
      BeginHolds(fingerprint, jobs, files);
    } else {
      var init := schedule[..|schedule| - 1];
      PlayKeepsNames(fingerprint, jobs, files, init);
      NextKeepsNames(fingerprint, jobs, files, Play(fingerprint, jobs, Begin(jobs, files), init), schedule[|schedule| - 1]);
    }
  }

  /** A step that would overwrite meets a commit with the same destination that came first. */
  lemma OverwriteMeets(fingerprint: Fingerprint, jobs: seq<Job>, w: World, n: nat) returns (j: nat)
    requires |jobs| == |w.progress| && NamesHold(fingerprint, jobs, w) && n < |jobs| && Overwrites(jobs, w, n)
    ensures j < |jobs| && Shares(fingerprint, jobs, n, j)
  {
    assert TempAt(fingerprint, jobs[n], w.files, w.progress[n]);
    assert TakenBy(jobs, w, jobs[n].Destination());
    j :| 0 <= j < |jobs| && jobs[j].Destination() == jobs[n].Destination() && HasRenamed(w.progress[j]);
    assert TempAt(fingerprint, jobs[j], w.files, w.progress[j]);
  }

  // ---- no content is lost ----------------------------------------------------------------

  lemma ConfirmedStays(fingerprint: Fingerprint, jobs: seq<Job>, files: Files, w: World, n: nat, i: nat)
    requires Ready(fingerprint, jobs, files) && Apart(fingerprint, jobs)
    requires |jobs| == |w.progress| && n < |jobs| && i < |jobs|
    requires NamesHold(fingerprint, jobs, w)
    requires w.progress[i] in {Confirmed, Finished} ==> DestinationHolds(fingerprint, jobs[i], w.files)
    requires Next(fingerprint, jobs, w, n).progress[i] in {Confirmed, Finished}
    ensures DestinationHolds(fingerprint, jobs[i], Next(fingerprint, jobs, w, n).files)
  {
    ReadyNames(fingerprint, jobs, files, i, n);
    ReadyNames(fingerprint, jobs, files, n, i);
    assert TempAt(fingerprint, jobs[i], w.files, w.progress[i]) && TempAt(fingerprint, jobs[n], w.files, w.progress[n]);
    if i != n {
      assert !Shares(fingerprint, jobs, i, n);
      RefutedVerifies(fingerprint, jobs[n], w.files, w.progress[n]);
      StepTouchesOwn(fingerprint, w.files, jobs[n], w.progress[n], jobs[i].Destination());
    }
  }

  lemma RefutedVerifies(fingerprint: Fingerprint, job: Job, files: Files, p: Progress)
    requires TempAt(fingerprint, job, files, p)
    ensures p == Verified || p == Refuted ==> job.Verifies(fingerprint)
  {
  }

  lemma SourceStays(fingerprint: Fingerprint, jobs: seq<Job>, files: Files, w: World, n: nat, i: nat)
    requires Ready(fingerprint, jobs, files) && |jobs| == |w.progress| && n < |jobs| && i < |jobs|
    requires jobs[i].Source() in files
    requires SourceHolds(jobs[i], files, w.files) || FinishedFor(jobs, w, jobs[i].Source())
    ensures var after := Next(fingerprint, jobs, w, n);
            SourceHolds(jobs[i], files, after.files) || FinishedFor(jobs, after, jobs[i].Source())
  {
    var after, s := Next(fingerprint, jobs, w, n), jobs[i].Source();
    ReadyNames(fingerprint, jobs, files, n, i);
    if FinishedFor(jobs, w, s) {
      var j :| 0 <= j < |jobs| && jobs[j].Source() == s && w.progress[j] == Finished;
      assert after.progress[j] == Finished;
    } else if jobs[n].Source() == s && w.progress[n] == Confirmed {
      assert after.progress[n] == Finished;
    } else {
      StepTouchesOwn(fingerprint, w.files, jobs[n], w.progress[n], s);
    }
  }

  lemma NextKeepsContent(fingerprint: Fingerprint, jobs: seq<Job>, files: Files, w: World, n: nat)
    requires Ready(fingerprint, jobs, files) && Apart(fingerprint, jobs)
    requires forall i :: 0 <= i < |jobs| ==> jobs[i].Source() in files
    requires |jobs| == |w.progress| && NamesHold(fingerprint, jobs, w) && ContentHolds(fingerprint, jobs, files, w)
    ensures ContentHolds(fingerprint, jobs, files, Next(fingerprint, jobs, w, n))
  {
    if n < |jobs| {
      var after := Next(fingerprint, jobs, w, n);
      forall i | 0 <= i < |jobs| && after.progress[i] in {Confirmed, Finished}
        ensures DestinationHolds(fingerprint, jobs[i], after.files)
      {
        ConfirmedStays(fingerprint, jobs, files, w, n, i);
      }
      forall i | 0 <= i < |jobs|
        ensures SourceHolds(jobs[i], files, after.files) || FinishedFor(jobs, after, jobs[i].Source())
      {
        SourceStays(fingerprint, jobs, files, w, n, i);
      }
    }
  }

  lemma {:induction false} PlayKeepsContent(fingerprint: Fingerprint, jobs: seq<Job>, files: Files, schedule: seq<nat>)
    requires Ready(fingerprint, jobs, files) && Apart(fingerprint, jobs)
    ensures forall i :: 0 <= i < |jobs| ==> jobs[i].Source() in files
    ensures ContentHolds(fingerprint, jobs, files, Play(fingerprint, jobs, Begin(jobs, files), schedule))
  {
    BeginHolds(fingerprint, jobs, files);
    if schedule != [] {
      var init := schedule[..|schedule| - 1];
      PlayKeepsContent(fingerprint, jobs, files, init);
      PlayKeepsNames(fingerprint, jobs, files, init);
      NextKeepsContent(fingerprint, jobs, files, Play(fingerprint, jobs, Begin(jobs, files), init), schedule[|schedule| - 1]);
    }
  }

  /** The content a commit moves is at its source, or at the destination of a commit of the same
      source that finished. */
  ghost predicate ContentSomewhere(fingerprint: Fingerprint, jobs: seq<Job>, w: World, i: nat)
    requires i < |jobs|
  {
    var planned := jobs[i].request.plan.sourceFingerprint;
    || (jobs[i].Source() in w.files && fingerprint(w.files[jobs[i].Source()]) == planned)
    || exists j :: 0 <= j < |jobs| && jobs[j].Source() == jobs[i].Source()
                   && jobs[j].Destination() in w.files && fingerprint(w.files[jobs[j].Destination()]) == planned
  }

  /** However commits with distinct destinations overlap and whatever the disk stores, at every
      step the content of each is somewhere. */
  lemma OverlapKeepsContent(fingerprint: Fingerprint, jobs: seq<Job>, files: Files, schedule: seq<nat>, i: nat)
    requires Ready(fingerprint, jobs, files) && Apart(fingerprint, jobs) && i < |jobs|
    ensures ContentSomewhere(fingerprint, jobs, Play(fingerprint, jobs, Begin(jobs, files), schedule), i)
  {
    PlayKeepsContent(fingerprint, jobs, files, schedule);
    var w := Play(fingerprint, jobs, Begin(jobs, files), schedule);
    ReadyNames(fingerprint, jobs, files, i, i);
    if !SourceHolds(jobs[i], files, w.files) {
      assert FinishedFor(jobs, w, jobs[i].Source());
      var j :| 0 <= j < |jobs| && jobs[j].Source() == jobs[i].Source() && w.progress[j] == Finished;
      ReadyNames(fingerprint, jobs, files, j, j);
      assert DestinationHolds(fingerprint, jobs[j], w.files);
    }
  }

  // ---- a shared destination --------------------------------------------------------------

  lemma {:induction false} PlayAppend(fingerprint: Fingerprint, jobs: seq<Job>, w: World, s: seq<nat>, t: seq<nat>)
    ensures Play(fingerprint, jobs, w, s + t) == Play(fingerprint, jobs, Play(fingerprint, jobs, w, s), t)
  {
    if t == [] {
      assert s + t == s;
    } else {
      PlayAppend(fingerprint, jobs, w, s, t[..|t| - 1]);
      assert (s + t)[..|s + t| - 1] == s + t[..|t| - 1];
    }
  }

  lemma PlayTwo(fingerprint: Fingerprint, jobs: seq<Job>, w: World, n: nat)
    ensures Play(fingerprint, jobs, w, [n, n]) == Next(fingerprint, jobs, Next(fingerprint, jobs, w, n), n)
  {
    assert [n, n][..1] == [n] && [n][..0] == [];
    assert Play(fingerprint, jobs, w, [n]) == Next(fingerprint, jobs, Play(fingerprint, jobs, w, []), n);
  }

  lemma PlayOne(fingerprint: Fingerprint, jobs: seq<Job>, w: World, n: nat)
    ensures Play(fingerprint, jobs, w, [n]) == Next(fingerprint, jobs, w, n)
  {
    assert [n][..0] == [];
  }

  /** The two guards. */
  lemma ClearBoth(fingerprint: Fingerprint, jobs: seq<Job>, w: World, n: nat)
    requires n < |jobs| == |w.progress| && w.progress[n] == Starting
    requires CommitGuard(fingerprint, w.files, jobs[n].request) == None
    ensures Play(fingerprint, jobs, w, [n, n]) == World(w.files, w.progress[n := Cleared])
  {
    PlayTwo(fingerprint, jobs, w, n);
  }

  /** The copy and its check. */
  lemma CopyBoth(fingerprint: Fingerprint, jobs: seq<Job>, w: World, n: nat)
    requires n < |jobs| == |w.progress| && w.progress[n] == Cleared && jobs[n].Verifies(fingerprint)
    ensures Play(fingerprint, jobs, w, [n, n])
            == World(w.files[jobs[n].Temp() := jobs[n].disk.stored], w.progress[n := Verified])
  {
    PlayTwo(fingerprint, jobs, w, n);
  }

  lemma RenameOne(fingerprint: Fingerprint, jobs: seq<Job>, w: World, n: nat)
    requires n < |jobs| == |w.progress| && w.progress[n] == Verified && jobs[n].Temp() in w.files
    ensures Play(fingerprint, jobs, w, [n])
            == World((w.files - {jobs[n].Temp()})[jobs[n].Destination() := jobs[n].disk.landed], w.progress[n := Renamed])
  {
    PlayOne(fingerprint, jobs, w, n);
  }

  /** The last check and the removal of the source. */
  lemma FinishBoth(fingerprint: Fingerprint, jobs: seq<Job>, w: World, n: nat)
    requires n < |jobs| == |w.progress| && w.progress[n] == Renamed
    requires DestinationHolds(fingerprint, jobs[n], w.files)
    ensures Play(fingerprint, jobs, w, [n, n]) == World(w.files - {jobs[n].Source()}, w.progress[n := Finished])
  {
    PlayTwo(fingerprint, jobs, w, n);
  }

  /** Both pass their guards before either copies. */
  lemma BothClear(fingerprint: Fingerprint, jobs: seq<Job>, files: Files, i: nat, j: nat) returns (w: World)
    requires Ready(fingerprint, jobs, files) && i < |jobs| && j < |jobs| && i != j
    ensures w == Play(fingerprint, jobs, Begin(jobs, files), [i, i] + [j, j])
    ensures w.files == files && |w.progress| == |jobs| && w.progress[i] == w.progress[j] == Cleared
  {
    var start := Begin(jobs, files);
    ClearBoth(fingerprint, jobs, start, i);
    var one := World(files, start.progress[i := Cleared]);
    ClearBoth(fingerprint, jobs, one, j);
    PlayAppend(fingerprint, jobs, start, [i, i], [j, j]);
    w := World(files, one.progress[j := Cleared]);
  }

  /** A cleared commit copies and renames. */
  lemma CopyAndRename(fingerprint: Fingerprint, jobs: seq<Job>, w: World, n: nat) returns (after: World)
    requires n < |jobs| == |w.progress| && w.progress[n] == Cleared && jobs[n].Verifies(fingerprint)
    requires jobs[n].Temp() !in w.files
    ensures after == Play(fingerprint, jobs, w, [n, n] + [n])
    ensures after == World(w.files[jobs[n].Destination() := jobs[n].disk.landed], w.progress[n := Renamed])
  {
    CopyBoth(fingerprint, jobs, w, n);
    var copied := World(w.files[jobs[n].Temp() := jobs[n].disk.stored], w.progress[n := Verified]);
    RenameOne(fingerprint, jobs, copied, n);
    PlayAppend(fingerprint, jobs, w, [n, n], [n]);
    assert copied.files - {jobs[n].Temp()} == w.files;
    after := World(w.files[jobs[n].Destination() := jobs[n].disk.landed], w.progress[n := Renamed]);
    assert copied.progress[n := Renamed] == after.progress;
  }

  /** One has renamed and the other is about to. */
  lemma SharedMeets(fingerprint: Fingerprint, jobs: seq<Job>, files: Files, i: nat, j: nat) returns (schedule: seq<nat>)
    requires Ready(fingerprint, jobs, files) && i < |jobs| && j < |jobs| && Shares(fingerprint, jobs, i, j)
    ensures Overwrites(jobs, Play(fingerprint, jobs, Begin(jobs, files), schedule), j)
  {
    ReadyNames(fingerprint, jobs, files, i, j);
    ReadyNames(fingerprint, jobs, files, j, i);
    var start := Begin(jobs, files);
    var clear := BothClear(fingerprint, jobs, files, i, j);
    var renamed := CopyAndRename(fingerprint, jobs, clear, i);
    CopyBoth(fingerprint, jobs, renamed, j);
    PlayAppend(fingerprint, jobs, start, [i, i] + [j, j], [i, i] + [i]);
    PlayAppend(fingerprint, jobs, start, [i, i] + [j, j] + ([i, i] + [i]), [j, j]);
    schedule := [i, i] + [j, j] + ([i, i] + [i]) + [j, j];
  }

  /** No step of any schedule replaces the bytes of an existing file. */
  ghost predicate NeverOverwrites(fingerprint: Fingerprint, jobs: seq<Job>, files: Files) {
    forall schedule, n :: 0 <= n < |jobs| ==> !Overwrites(jobs, Play(fingerprint, jobs, Begin(jobs, files), schedule), n)
  }

  lemma ApartNeverOverwrites(fingerprint: Fingerprint, jobs: seq<Job>, files: Files)
    requires Ready(fingerprint, jobs, files) && Apart(fingerprint, jobs)
    ensures NeverOverwrites(fingerprint, jobs, files)
  {
    forall schedule, n | 0 <= n < |jobs|
      ensures !Overwrites(jobs, Play(fingerprint, jobs, Begin(jobs, files), schedule), n)
    {
      PlayKeepsNames(fingerprint, jobs, files, schedule);
      var w := Play(fingerprint, jobs, Begin(jobs, files), schedule);
      if Overwrites(jobs, w, n) {
        var j := OverwriteMeets(fingerprint, jobs, w, n);
      }
    }
  }

  lemma SharedOverwrites(fingerprint: Fingerprint, jobs: seq<Job>, files: Files, i: nat, j: nat)
    requires Ready(fingerprint, jobs, files) && i < |jobs| && j < |jobs| && Shares(fingerprint, jobs, i, j)
    ensures !NeverOverwrites(fingerprint, jobs, files)
  {
    var schedule := SharedMeets(fingerprint, jobs, files, i, j);
  }

  /** However commits overlap, no step ever overwrites an existing file if and only if no two
      commits whose copies verify were planned into one destination. */
  lemma OverlapNeverOverwritesIff(fingerprint: Fingerprint, jobs: seq<Job>, files: Files)
    requires Ready(fingerprint, jobs, files)
    ensures NeverOverwrites(fingerprint, jobs, files) <==> Apart(fingerprint, jobs)
  {
    if Apart(fingerprint, jobs) {
      ApartNeverOverwrites(fingerprint, jobs, files);
    } else {
      var i, j :| 0 <= i < |jobs| && 0 <= j < |jobs| && Shares(fingerprint, jobs, i, j);
      SharedOverwrites(fingerprint, jobs, files, i, j);
    }
  }

  predicate Faithful(job: Job, files: Files) {
    job.Source() in files && job.disk.stored == job.disk.landed == files[job.Source()]
  }

  /** On a disk that keeps every byte, two finished commits with one destination leave only the
      second file: the first is at neither of its places, nor anywhere it was not before. */
  lemma SharedLosesContent(fingerprint: Fingerprint, jobs: seq<Job>, files: Files, i: nat, j: nat) returns (schedule: seq<nat>)
    requires Ready(fingerprint, jobs, files) && i < |jobs| && j < |jobs| && i != j
    requires Faithful(jobs[i], files) && Faithful(jobs[j], files)
    requires jobs[i].Destination() == jobs[j].Destination() && jobs[i].Source() != jobs[j].Source()
    ensures var after := Play(fingerprint, jobs, Begin(jobs, files), schedule);
            && after.progress[i] == after.progress[j] == Finished
            && after.files == (files - {jobs[i].Source(), jobs[j].Source()})[jobs[j].Destination() := files[jobs[j].Source()]]
  {
    ReadyNames(fingerprint, jobs, files, i, j);
    ReadyNames(fingerprint, jobs, files, j, i);
    ReadyNames(fingerprint, jobs, files, i, i);
    ReadyNames(fingerprint, jobs, files, j, j);
    var start := Begin(jobs, files);
    var clear := BothClear(fingerprint, jobs, files, i, j);
    var first := CopyAndRename(fingerprint, jobs, clear, i);
    var one := FinishedWorld(fingerprint, jobs, first, i);
    var second := CopyAndRename(fingerprint, jobs, one, j);
    var two := FinishedWorld(fingerprint, jobs, second, j);
    var turn := ([i, i] + [i]) + [i, i];
    var other := ([j, j] + [j]) + [j, j];
    PlayAppend(fingerprint, jobs, clear, [i, i] + [i], [i, i]);
    PlayAppend(fingerprint, jobs, one, [j, j] + [j], [j, j]);
    PlayAppend(fingerprint, jobs, start, [i, i] + [j, j], turn);
    PlayAppend(fingerprint, jobs, start, [i, i] + [j, j] + turn, other);
    schedule := [i, i] + [j, j] + turn + other;
    SharedOutcome(files, jobs[i].Source(), jobs[j].Source(), jobs[j].Destination(), jobs[i].disk.landed, jobs[j].disk.landed);
  }

  lemma FinishedWorld(fingerprint: Fingerprint, jobs: seq<Job>, w: World, n: nat) returns (after: World)
    requires n < |jobs| == |w.progress| && w.progress[n] == Renamed
    requires DestinationHolds(fingerprint, jobs[n], w.files)
    ensures after == Play(fingerprint, jobs, w, [n, n])
    ensures after == World(w.files - {jobs[n].Source()}, w.progress[n := Finished])
  {
    FinishBoth(fingerprint, jobs, w, n);
    after := World(w.files - {jobs[n].Source()}, w.progress[n := Finished]);
  }

  lemma SharedOutcome(files: Files, a: string, b: string, d: string, first: Bytes, second: Bytes)
    requires a != d && b != d
    ensures (files[d := first] - {a})[d := second] - {b} == (files - {a, b})[d := second]
  {
  }
}

/**
 * The dashboard of src/pages/MyKnowledge.js: which analysis jobs are still
 * running, how their polled progress is collected and merged, when a job
 * that has just completed opens its report, deleting a report, and the
 * three counters.
 */
module MyKnowledge {
  import JsText

  // ---------------------------------------------------------------------------
  // Jobs and their progress

  /** An analysis job as `/analyze/jobs` lists it; absent strings are empty,
      and `youtubeUrl` is `input_data?.youtube_url || youtube_url`. */
  datatype Job = Job(id: string, jobId: string, status: string, youtubeUrl: string)

  /** `job.id || job.job_id` */
  function JobKey(j: Job): string {
    if j.id != [] then j.id else j.jobId
  }

  /** One entry of the `jobProgress` map. */
  datatype Progress = Progress(progress: int, message: string, status: string)

  /** The answer to one status poll: the fields of `res.data` (`None` for
      null or absent), or a failed request. */
  datatype PollAnswer = Polled(progress: Option<int>, message: Option<string>, status: Option<string>) | PollFailed

  datatype Option<T> = None | Some(value: T)

  const PollError := "진행률 정보를 불러올 수 없습니다."

  predicate IsProcessing(status: string) {
    status == "processing" || status == "pending" || status == "running"
  }

  /** `jobs.filter(j => ['processing', 'pending', 'running'].includes(j.status))` */
  function ProcessingJobs(jobs: seq<Job>): (r: seq<Job>)
    ensures |r| <= |jobs|
    ensures forall j :: j in r <==> j in jobs && IsProcessing(j.status)
  {
    if jobs == [] then []
    else ProcessingJobs(jobs[..|jobs| - 1]) + (if IsProcessing(jobs[|jobs| - 1].status) then [jobs[|jobs| - 1]] else [])
  }

  /** The filter keeps the jobs' order: it distributes over concatenation. */
  lemma {:induction false} ProcessingJobsAppend(a: seq<Job>, b: seq<Job>)
    ensures ProcessingJobs(a + b) == ProcessingJobs(a) + ProcessingJobs(b)
    decreases |b|
  {
    if b == [] {
      assert a + b == a;
    } else {
      var c, init, last := a + b, b[..|b| - 1], b[|b| - 1];
      var kept := if IsProcessing(last.status) then [last] else [];
      assert c[..|c| - 1] == a + init && c[|c| - 1] == last;
      ProcessingJobsAppend(a, init);
      calc {
        ProcessingJobs(c);
        ProcessingJobs(a + init) + kept;
        ProcessingJobs(a) + ProcessingJobs(init) + kept;
        { JsText.ConcatAssoc(ProcessingJobs(a), ProcessingJobs(init), kept); }
        ProcessingJobs(a) + ProcessingJobs(b);
      }
    }
  }

  /** One job is kept exactly when it is processing. */
  lemma ProcessingJobsOne(j: Job)
    ensures ProcessingJobs([j]) == if IsProcessing(j.status) then [j] else []
  {
    assert [j][..0] == [];
  }

  /** The entry recorded for one job: `??` defaults for a successful poll,
      progress zero and the job's own status for a failed one. */
  function ProgressOf(job: Job, answer: PollAnswer): (p: Progress)
    ensures answer.PollFailed? ==> p == Progress(0, PollError, job.status)
    ensures answer.Polled? ==>
              p.progress == (if answer.progress.Some? then answer.progress.value else 0)
              && p.message == (if answer.message.Some? then answer.message.value else "")
              && p.status == (if answer.status.Some? then answer.status.value else job.status)
  {
    match answer
    case PollFailed => Progress(0, PollError, job.status)
    case Polled(progress, message, status) =>
      Progress(if progress.Some? then progress.value else 0,
               if message.Some? then message.value else "",
               if status.Some? then status.value else job.status)
  }

  /** The `updates` object after the polls of `jobs` have been recorded in
      order. */
  function Updates(jobs: seq<Job>, server: Job -> PollAnswer): (m: map<string, Progress>)
    ensures m.Keys == set j | j in jobs :: JobKey(j)
  {
    if jobs == [] then map[]
    else
      var last := jobs[|jobs| - 1];
      var m := Updates(jobs[..|jobs| - 1], server)[JobKey(last) := ProgressOf(last, server(last))];
      assert forall j :: j in jobs <==> j in jobs[..|jobs| - 1] || j == last;
      m
  }

  /** With distinct keys, each polled job's entry is its own answer. */
  lemma {:induction false} UpdatesOfDistinct(jobs: seq<Job>, server: Job -> PollAnswer, i: nat)
    requires i < |jobs|
    requires forall p, q :: 0 <= p < q < |jobs| ==> JobKey(jobs[p]) != JobKey(jobs[q])
    ensures Updates(jobs, server)[JobKey(jobs[i])] == ProgressOf(jobs[i], server(jobs[i]))
  {
    if i < |jobs| - 1 {
      UpdatesOfDistinct(jobs[..|jobs| - 1], server, i);
    }
  }

  lemma UpdatesStep(jobs: seq<Job>, server: Job -> PollAnswer, i: nat)
    requires i < |jobs|
    ensures Updates(jobs[..i + 1], server) == Updates(jobs[..i], server)[JobKey(jobs[i]) := ProgressOf(jobs[i], server(jobs[i]))]
  {
    assert jobs[..i + 1][..i] == jobs[..i];
  }

  /** `pollProgress`: one status request per processing job (none when
      there is no such job), its result recorded under the job's key. */
  method PollProgress(jobs: seq<Job>, server: Job -> PollAnswer) returns (requests: seq<string>, updates: map<string, Progress>)
    ensures ProcessingJobs(jobs) == [] ==> requests == [] && updates == map[]
    ensures |requests| == |ProcessingJobs(jobs)|
    ensures forall i :: 0 <= i < |requests| ==> requests[i] == JobKey(ProcessingJobs(jobs)[i])
    ensures updates == Updates(ProcessingJobs(jobs), server)
  {
    var pending := ProcessingJobs(jobs);
    requests, updates := [], map[];
    if |pending| == 0 {
      return;
    }
    requests, updates := PollAll(pending, server);
  }

  /** The `Promise.all` over the pending jobs. The polls run concurrently in
      the source; here they complete in list order. */
  method PollAll(pending: seq<Job>, server: Job -> PollAnswer) returns (requests: seq<string>, updates: map<string, Progress>)
    ensures |requests| == |pending|
    ensures forall i :: 0 <= i < |requests| ==> requests[i] == JobKey(pending[i])
    ensures updates == Updates(pending, server)
  {
    requests, updates := [], map[];
    var i := 0;
    while i < |pending|
      invariant i <= |pending|
      invariant |requests| == i
      invariant forall k :: 0 <= k < i ==> requests[k] == JobKey(pending[k])
      invariant updates == Updates(pending[..i], server)
    {
      var job := pending[i];
      requests := requests + [JobKey(job)];
      UpdatesStep(pending, server, i);
      updates := updates[JobKey(job) := ProgressOf(job, server(job))];
      i := i + 1;
    }
    assert pending[..i] == pending;
  }

  /** `setJobProgress(prev => ({ ...prev, ...updates }))`: the new entries
      win, the others stay. */
  function MergeProgress(prev: map<string, Progress>, updates: map<string, Progress>): (r: map<string, Progress>)
    ensures r.Keys == prev.Keys + updates.Keys
    ensures forall k :: k in updates ==> r[k] == updates[k]
    ensures forall k :: k in prev && k !in updates ==> r[k] == prev[k]
  {
    prev + updates
  }

  // ---------------------------------------------------------------------------
  // Opening a report once its job completes

  /** A saved report as the dashboard holds it; absent strings are empty. */
  datatype Report = Report(id: string, jobId: string, youtubeUrl: string, url: string)

  /** `progress?.status === 'completed' && !navigatedJobIds.includes(...)` */
  predicate JustCompleted(j: Job, progress: map<string, Progress>, navigated: seq<string>) {
    JobKey(j) in progress && progress[JobKey(j)].status == "completed" && JobKey(j) !in navigated
  }

  /** `jobs.find(...)`: the index of the first job that has just completed. */
  function JustCompletedJob(jobs: seq<Job>, progress: map<string, Progress>, navigated: seq<string>): (r: Option<nat>)
    ensures r.Some? ==> r.value < |jobs| && JustCompleted(jobs[r.value], progress, navigated)
    ensures r.Some? ==> forall k :: 0 <= k < r.value ==> !JustCompleted(jobs[k], progress, navigated)
    ensures r.None? ==> forall k :: 0 <= k < |jobs| ==> !JustCompleted(jobs[k], progress, navigated)
  {
    if jobs == [] then None
    else if JustCompleted(jobs[0], progress, navigated) then Some(0)
    else match JustCompletedJob(jobs[1..], progress, navigated)
      case None => None
      case Some(k) => Some(k + 1)
  }

  /** The report of a job: same YouTube address, or same job key. */
  predicate Matches(r: Report, j: Job) {
    (r.youtubeUrl != [] && r.youtubeUrl == j.youtubeUrl) || (r.jobId != [] && r.jobId == JobKey(j))
  }

  /** `reports.find(...)`: the index of the first matching report. */
  function MatchReport(reports: seq<Report>, j: Job): (r: Option<nat>)
    ensures r.Some? ==> r.value < |reports| && Matches(reports[r.value], j)
    ensures r.Some? ==> forall k :: 0 <= k < r.value ==> !Matches(reports[k], j)
    ensures r.None? ==> forall k :: 0 <= k < |reports| ==> !Matches(reports[k], j)
  {
    if reports == [] then None
    else if Matches(reports[0], j) then Some(0)
    else match MatchReport(reports[1..], j)
      case None => None
      case Some(k) => Some(k + 1)
  }

  // ---------------------------------------------------------------------------
  // Deleting and counting

  /** `r.job_id || r.id` */
  function ReportKey(r: Report): string {
    if r.jobId != [] then r.jobId else r.id
  }

  /** `reports.filter(r => (r.job_id || r.id) !== jobId)` */
  function RemoveReports(reports: seq<Report>, key: string): (r: seq<Report>)
    ensures |r| <= |reports|
    ensures forall x :: x in r <==> x in reports && ReportKey(x) != key
  {
    if reports == [] then []
    else (if ReportKey(reports[0]) != key then [reports[0]] else []) + RemoveReports(reports[1..], key)
  }

  /** Removal keeps the reports' order: it distributes over concatenation. */
  lemma {:induction false} RemoveReportsAppend(a: seq<Report>, b: seq<Report>, key: string)
    ensures RemoveReports(a + b, key) == RemoveReports(a, key) + RemoveReports(b, key)
  {
    if a == [] {
      assert a + b == b;
    } else {
      var head := if ReportKey(a[0]) != key then [a[0]] else [];
      assert (a + b)[0] == a[0] && (a + b)[1..] == a[1..] + b;
      RemoveReportsAppend(a[1..], b, key);
      calc {
        RemoveReports(a + b, key);
        head + RemoveReports(a[1..] + b, key);
        head + (RemoveReports(a[1..], key) + RemoveReports(b, key));
        { JsText.ConcatAssoc(head, RemoveReports(a[1..], key), RemoveReports(b, key)); }
        RemoveReports(a, key) + RemoveReports(b, key);
      }
    }
  }

  /** One report stays exactly when its key differs. */
  lemma RemoveReportsOne(x: Report, key: string)
    ensures RemoveReports([x], key) == if ReportKey(x) != key then [x] else []
  {
    assert [x][1..] == [];
  }

  /** Deleting a key no report has changes nothing. */
  lemma {:induction false} RemoveAbsentKey(reports: seq<Report>, key: string)
    requires forall i :: 0 <= i < |reports| ==> ReportKey(reports[i]) != key
    ensures RemoveReports(reports, key) == reports
  {
    if reports != [] {
      RemoveAbsentKey(reports[1..], key);
    }
  }

  datatype Stats = Stats(totalAnalyses: nat, savedReports: nat, totalViews: nat)

  datatype Navigation = OpenEditor(reportId: string, presignedUrl: string)

  const DeleteFailed := "삭제에 실패했습니다."

  /** The dashboard's state. `navigations` records the `navigate` calls and
      `alerts` the `alert` messages. */
  class Dashboard {
    var reports: seq<Report>
    var loading: bool
    var stats: Stats
    var jobs: seq<Job>
    var jobProgress: map<string, Progress>
    var navigatedJobIds: seq<string>
    var navigations: seq<Navigation>
    var alerts: seq<string>

    /** No job opens its report twice. */
    predicate Valid()
      reads this
    {
      forall p, q :: 0 <= p < q < |navigatedJobIds| ==> navigatedJobIds[p] != navigatedJobIds[q]
    }

    constructor ()
      ensures Valid()
      ensures reports == [] && loading && stats == Stats(0, 0, 0) && jobs == [] && jobProgress == map[]
      ensures navigatedJobIds == [] && navigations == [] && alerts == []
    {
      reports, loading, stats, jobs := [], true, Stats(0, 0, 0), [];
      jobProgress, navigatedJobIds, navigations, alerts := map[], [], [], [];
    }

    /** The effect on `propReports`: without reports the page keeps
        loading; with them the counters are set (the 700 ms before the
        spinner goes is not modelled). */
    method ReceiveReports(propReports: Option<seq<Report>>)
      requires Valid()
      modifies this
      ensures Valid()
      ensures propReports.None? ==> reports == [] && loading && stats == old(stats)
      ensures propReports.Some? ==> reports == propReports.value && !loading
      ensures propReports.Some? ==> var n := |propReports.value|;
                stats.totalAnalyses == n && stats.savedReports == n && stats.totalViews == 3 * n
      ensures jobs == old(jobs) && jobProgress == old(jobProgress) && navigatedJobIds == old(navigatedJobIds)
      ensures navigations == old(navigations) && alerts == old(alerts)
    {
      match propReports {
        case None =>
          reports := [];
          loading := true;
        case Some(rs) =>
          reports := rs;
          stats := Stats(|rs|, |rs|, |rs| * 3);
          loading := false;
      }
    }

    /** `fetchJobs`: the listed jobs, or none after an error or an answer
        without `jobs`. */
    method ReceiveJobs(answer: Option<seq<Job>>)
      requires Valid()
      modifies this
      ensures Valid()
      ensures jobs == (if answer.Some? then answer.value else [])
      ensures reports == old(reports) && loading == old(loading) && stats == old(stats)
      ensures jobProgress == old(jobProgress) && navigatedJobIds == old(navigatedJobIds)
      ensures navigations == old(navigations) && alerts == old(alerts)
    {
      jobs := if answer.Some? then answer.value else [];
    }

    /** One round of `pollProgress` followed by the merge. */
    method Poll(server: Job -> PollAnswer) returns (requests: seq<string>)
      requires Valid()
      modifies this
      ensures Valid()
      ensures |requests| == |ProcessingJobs(jobs)|
      ensures jobProgress == MergeProgress(old(jobProgress), Updates(ProcessingJobs(jobs), server))
      ensures reports == old(reports) && loading == old(loading) && stats == old(stats) && jobs == old(jobs)
      ensures navigatedJobIds == old(navigatedJobIds) && navigations == old(navigations) && alerts == old(alerts)
    {
      var updates;
      requests, updates := PollProgress(jobs, server);
      jobProgress := MergeProgress(jobProgress, updates);
    }

    /** The effect that opens the report of a job that has just completed:
        only when a report matches, and the job's key is then remembered so
        that it never opens again. */
    method CheckCompletion()
      requires Valid()
      modifies this
      ensures Valid()
      ensures match JustCompletedJob(jobs, jobProgress, old(navigatedJobIds))
              case None => navigatedJobIds == old(navigatedJobIds) && navigations == old(navigations)
              case Some(i) =>
                match MatchReport(reports, jobs[i])
                case None => navigatedJobIds == old(navigatedJobIds) && navigations == old(navigations)
                case Some(k) =>
                  navigatedJobIds == old(navigatedJobIds) + [JobKey(jobs[i])]
                  && navigations == old(navigations) + [OpenEditor(reports[k].id, reports[k].url)]
      ensures reports == old(reports) && loading == old(loading) && stats == old(stats) && jobs == old(jobs)
      ensures jobProgress == old(jobProgress) && alerts == old(alerts)
    {
      match JustCompletedJob(jobs, jobProgress, navigatedJobIds) {
        case None =>
        case Some(i) =>
          match MatchReport(reports, jobs[i]) {
            case None =>
            case Some(k) =>
              var key := JobKey(jobs[i]);
              assert key !in navigatedJobIds;
              navigatedJobIds := navigatedJobIds + [key];
              navigations := navigations + [OpenEditor(reports[k].id, reports[k].url)];
          }
      }
    }

    /** `handleDeleteReport(jobId)`: after a successful request exactly the
        reports with that key go; after a failed one an alert shows. */
    method DeleteReport(key: string, deleted: bool)
      requires Valid()
      modifies this
      ensures Valid()
      ensures deleted ==> reports == RemoveReports(old(reports), key) && alerts == old(alerts)
      ensures !deleted ==> reports == old(reports) && alerts == old(alerts) + [DeleteFailed]
      ensures loading == old(loading) && stats == old(stats) && jobs == old(jobs) && jobProgress == old(jobProgress)
      ensures navigatedJobIds == old(navigatedJobIds) && navigations == old(navigations)
    {
      if deleted {
        reports := RemoveReports(reports, key);
      } else {
        alerts := alerts + [DeleteFailed];
      }
    }
  }

  /** A job that has opened its report is never picked again. */
  lemma NavigatedJobSkipped(jobs: seq<Job>, progress: map<string, Progress>, navigated: seq<string>, i: nat)
    requires i < |jobs| && JobKey(jobs[i]) in navigated
    ensures JustCompletedJob(jobs, progress, navigated) != Some(i)
  {
  }
}

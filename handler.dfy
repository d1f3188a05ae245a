/** The `messageCreate` handler (index.js:171-221): decide whether a message
    starts a job, then download, check the file, publish it through the
    fallback chain, notify the webhook and report once; the downloaded file is
    removed on every way out once its name is known. What the outside world
    answers at each step is an input (`World`); what the handler does is the
    trace of `Event`s it returns. */
module Handler {
  import opened Results
  import opened JsString
  import opened Failures
  import opened Trigger
  import opened Instaloader
  import opened Upload
  import opened Webhook

  /** One incoming message and everything the outside world will answer
      while it is handled. `id` stands for the timestamp-and-random job id and
      `ts` for the ISO timestamp of the payload. */
  datatype World = World(
    fromBot: bool,
    content: string,
    id: string,
    tmpDir: string,
    env: Env,
    download: DownloadWorld,
    transfer: TextReply,
    zeroX0: TextReply,
    fileIo: JsonReply,
    webhook: WebhookReply,
    ts: string)

  /** What the handler does, in order. */
  datatype Event =
    | Refuse                        // the one reply to a non-Instagram URL
    | Run(args: seq<string>)        // the download tool started with these arguments
    | Located(name: string)         // the download returned this file (`filePath` assigned)
    | Publish(attempt: Attempt)     // one upload backend called, with what came of it
    | Dispatch(payload: Payload)    // the webhook called with this payload
    | Report(result: Result<(), Failure>) // the one final report of a job
    | Unlink(name: string)          // the `finally` removing the file

  /** The report sent on success (index.js:215). */
  const Delivered := "✅ Enviado! (Make vai processar o post)"

  /** What the report of a failure starts with (index.js:218). */
  const ErrorPrefix := "❌ Erro: "

  /** The text a `Report` event sends to the channel: the success text exactly
      when the job succeeded, otherwise the thrown error's message after the
      error prefix. */
  function ReportText(r: Result<(), Failure>): (t: string)
    ensures t == Delivered <==> r.Ok?
    ensures r.Err? ==> StartsWith(t, ErrorPrefix) && t[|ErrorPrefix|..] == Message(r.error)
  {
    if r.Ok? then Delivered
    else
      var t := ErrorPrefix + Message(r.error);
      assert t[0] == '❌' && Delivered[0] == '✅';
      t
  }

  /** The report a job trace ends with, just before the clean-up if there is one. */
  function FinalReport(events: seq<Event>): Option<Result<(), Failure>> {
    if |events| >= 1 && events[|events| - 1].Report? then Some(events[|events| - 1].result)
    else if |events| >= 2 && events[|events| - 1].Unlink? && events[|events| - 2].Report? then Some(events[|events| - 2].result)
    else None
  }

  /** What one job did: the tool's arguments if it ran, what the download
      returned or threw, the upload and webhook steps, and the outcome
      reported. */
  datatype JobRecord = JobRecord(
    run: Option<seq<string>>,
    download: Result<string, Failure>,
    steps: seq<Event>,
    report: Result<(), Failure>)

  /** `filePath`: assigned exactly when the download returned a file. */
  function FilePath(rec: JobRecord): Option<string> {
    if rec.download.Ok? then Some(rec.download.value) else None
  }

  /** The events of a job, in the order the handler performs them; the
      `finally` clause removes the file whenever `filePath` was assigned. */
  function Trace(rec: JobRecord): seq<Event> {
    (if rec.run.Some? then [Run(rec.run.value)] else [])
    + (if FilePath(rec).Some? then [Located(FilePath(rec).value)] else [])
    + rec.steps
    + [Report(rec.report)]
    + (if FilePath(rec).Some? then [Unlink(FilePath(rec).value)] else [])
  }

  /** The steps between locating the file and reporting: backend calls,
      possibly closed by the one webhook call. */
  predicate StepsShape(steps: seq<Event>) {
    forall i :: 0 <= i < |steps| ==> steps[i].Publish? || (i == |steps| - 1 && steps[i].Dispatch?)
  }

  /** The position of each kind of event in the handler's sequence. */
  function Rank(e: Event): nat {
    match e
    case Refuse => 0
    case Run(_) => 0
    case Located(_) => 1
    case Publish(_) => 2
    case Dispatch(_) => 3
    case Report(_) => 4
    case Unlink(_) => 5
  }

  /** The steps run strictly in order: no upload before the download, no
      webhook before the uploads, the report after all of them, and the
      clean-up last. */
  lemma TraceOrdered(rec: JobRecord)
    requires StepsShape(rec.steps)
    ensures forall i, j :: 0 <= i < j < |Trace(rec)| ==> Rank(Trace(rec)[i]) <= Rank(Trace(rec)[j])
  {
    var t := Trace(rec);
    var r := if rec.run.Some? then 1 else 0;
    var l := if FilePath(rec).Some? then 1 else 0;
    var k := |rec.steps|;
    assert |t| == r + l + k + 1 + l;
    forall i | 0 <= i < |t|
      ensures (i < r ==> Rank(t[i]) == 0)
      ensures (r <= i < r + l ==> Rank(t[i]) == 1)
      ensures (r + l <= i < r + l + k ==> t[i] == rec.steps[i - r - l] && 2 <= Rank(t[i]) <= 3)
      ensures (r + l <= i < r + l + k - 1 ==> Rank(t[i]) == 2)
      ensures (i == r + l + k ==> Rank(t[i]) == 4)
      ensures (i > r + l + k ==> Rank(t[i]) == 5)
    {
    }
  }

  /** Every job reports exactly once, and the report is last but for the clean-up. */
  lemma TraceReportsOnce(rec: JobRecord)
    requires StepsShape(rec.steps)
    ensures FinalReport(Trace(rec)) == Some(rec.report)
    ensures forall i :: 0 <= i < |Trace(rec)| && Trace(rec)[i].Report? ==>
              Trace(rec)[i] == Report(rec.report)
              && i == |Trace(rec)| - 1 - (if FilePath(rec).Some? then 1 else 0)
    ensures Refuse !in Trace(rec)
  {
    var t := Trace(rec);
    var r := if rec.run.Some? then 1 else 0;
    var l := if FilePath(rec).Some? then 1 else 0;
    var k := |rec.steps|;
    forall i | 0 <= i < |t|
      ensures !t[i].Refuse?
      ensures t[i].Report? ==> i == r + l + k
    {
      if r + l <= i < r + l + k {
        assert t[i] == rec.steps[i - r - l];
      }
    }
  }

  /** The file is removed exactly when the download named one, and the
      removal is the last thing the job does. */
  lemma TraceCleansUp(rec: JobRecord)
    requires StepsShape(rec.steps)
    ensures forall n :: Unlink(n) in Trace(rec) <==> FilePath(rec) == Some(n)
    ensures forall n :: Located(n) in Trace(rec) <==> FilePath(rec) == Some(n)
    ensures FilePath(rec).Some? ==> Trace(rec)[|Trace(rec)| - 1] == Unlink(FilePath(rec).value)
  {
    var t := Trace(rec);
    var r := if rec.run.Some? then 1 else 0;
    var l := if FilePath(rec).Some? then 1 else 0;
    var k := |rec.steps|;
    forall i | 0 <= i < |t|
      ensures t[i].Unlink? ==> l == 1 && i == |t| - 1 && t[i] == Unlink(FilePath(rec).value)
      ensures t[i].Located? ==> l == 1 && i == r && t[i] == Located(FilePath(rec).value)
    {
      if r + l <= i < r + l + k {
        assert t[i] == rec.steps[i - r - l];
      }
    }
    if FilePath(rec).Some? {
      assert t[r] == Located(FilePath(rec).value);
    }
  }

  /** The number of backend calls among the steps: all of them but a
      closing webhook call. */
  function PublishCount(steps: seq<Event>): (n: nat)
    ensures n <= |steps|
  {
    if |steps| >= 1 && steps[|steps| - 1].Dispatch? then |steps| - 1 else |steps|
  }

  /** What the `i`-th backend of the chain makes of its answer in world `w`. */
  function Answer(w: World, i: nat): Result<string, Failure>
    requires i < 3
  {
    Outcome(ChainOrder[i], w.transfer, w.zeroX0, w.fileIo)
  }

  /** index.js:197-213 once the file is usable: the backends are called in
      chain order until one gives a link, each call recorded with what came of
      it; the webhook is then called with that link, and its answer decides the
      report; when all three fail, file.io's error is the report. */
  predicate PublishedAs(url: string, w: World, steps: seq<Event>, report: Result<(), Failure>) {
    var n := PublishCount(steps);
    && 1 <= n <= 3
    && (forall i :: 0 <= i < n ==> steps[i] == Publish(Attempt(ChainOrder[i], Answer(w, i))))
    && (forall i :: 0 <= i < n - 1 ==> Answer(w, i).Err?)
    && (n < 3 ==> Answer(w, n - 1).Ok?)
    && (Answer(w, n - 1).Ok? ==>
          && |steps| == n + 1
          && steps[n] == Dispatch(BuildPayload("", url, Answer(w, n - 1).value, None, w.ts))
          && report == Classify(w.webhook))
    && (Answer(w, n - 1).Err? ==> |steps| == n && report == Err(Answer(w, n - 1).error))
  }

  /** The backends' and the webhook's answers fix the steps and the report:
      two runs meeting `PublishedAs` in the same world agree. */
  lemma PublishedDetermined(url: string, w: World, s1: seq<Event>, r1: Result<(), Failure>, s2: seq<Event>, r2: Result<(), Failure>)
    requires PublishedAs(url, w, s1, r1) && PublishedAs(url, w, s2, r2)
    ensures s1 == s2 && r1 == r2
  {
    var n1, n2 := PublishCount(s1), PublishCount(s2);
    assert n1 == n2;
    assert |s1| == |s2|;
    forall i | 0 <= i < |s1|
      ensures s1[i] == s2[i]
    {
    }
  }

  /** What publishing promises: the steps are backend calls, possibly closed
      by the one webhook call; the webhook is called iff some backend gave a
      link, and only with such a link; the job succeeds iff a backend gave a
      link and the webhook accepted; when every backend failed, file.io's error
      is reported. */
  lemma PublishedOutcome(url: string, w: World, steps: seq<Event>, report: Result<(), Failure>)
    requires PublishedAs(url, w, steps, report)
    ensures StepsShape(steps) && steps[0].Publish?
    ensures (exists p :: Dispatch(p) in steps) <==> exists i :: 0 <= i < 3 && Answer(w, i).Ok?
    ensures forall p :: Dispatch(p) in steps ==>
              && p == BuildPayload("", url, p.video_url, None, w.ts)
              && exists i :: 0 <= i < 3 && Answer(w, i) == Ok(p.video_url)
    ensures report.Ok? <==> (exists i :: 0 <= i < 3 && Answer(w, i).Ok?) && Classify(w.webhook).Ok?
    ensures (forall i :: 0 <= i < 3 ==> Answer(w, i).Err?) ==> report == Err(CheckFileIo(w.fileIo).error)
  {
    var n := PublishCount(steps);
    var last := Answer(w, n - 1);
    forall i | 0 <= i < |steps|
      ensures steps[i].Publish? || (i == |steps| - 1 && steps[i].Dispatch?)
      ensures steps[i].Dispatch? ==> last.Ok? && steps[i] == Dispatch(BuildPayload("", url, last.value, None, w.ts))
    {
      if i < n {
        assert steps[i] == Publish(Attempt(ChainOrder[i], Answer(w, i)));
      }
    }
    if last.Ok? {
      assert Dispatch(BuildPayload("", url, last.value, None, w.ts)) in steps by {
        assert steps[n] == Dispatch(BuildPayload("", url, last.value, None, w.ts));
      }
    } else {
      assert n == 3;
      forall i | 0 <= i < 3 ensures Answer(w, i).Err? {
      }
    }
  }

  /** The upload chain and the webhook (index.js:197-213): the backends
      called, then the webhook when one of them gave a link; and the outcome
      the job reports. */
  method PublishAndNotify(url: string, w: World) returns (steps: seq<Event>, report: Result<(), Failure>)
    ensures PublishedAs(url, w, steps, report)
  {
    var attempts, published := UploadChain(w.transfer, w.zeroX0, w.fileIo);
    steps := seq(|attempts|, i requires 0 <= i < |attempts| => Publish(attempts[i]));
    var n := |attempts|;
    assert attempts[n - 1].outcome == Answer(w, n - 1);
    if published.Err? {
      report := Err(published.error);
      assert PublishCount(steps) == n;
    } else {
      var p := BuildPayload("", url, published.value, None, w.ts);
      steps := steps + [Dispatch(p)];
      report := Classify(w.webhook);
      assert PublishCount(steps) == n;
    }
  }

  /** One job in world `w` (index.js:184-218): the download as
      `downloadWithInstaloader` does it; a download error is reported as it
      was thrown; a file that is not a non-empty regular file is reported as
      an invalid download; a usable file is published and notified. */
  ghost predicate JobSpec(url: string, w: World, rec: JobRecord) {
    && DownloadSpec(url, w.tmpDir, w.id, w.env, w.download, rec.run, rec.download)
    && (rec.download.Err? ==> rec.steps == [] && rec.report == Err(rec.download.error))
    && (rec.download.Ok? && !ExistsNonEmpty(w.download.dir, rec.download.value) ==>
          rec.steps == [] && rec.report == Err(InvalidDownload))
    && (rec.download.Ok? && ExistsNonEmpty(w.download.dir, rec.download.value) ==>
          PublishedAs(url, w, rec.steps, rec.report))
  }

  /** The world fixes the whole job: two records meeting `JobSpec` are equal. */
  lemma JobDetermined(url: string, w: World, rec1: JobRecord, rec2: JobRecord)
    requires JobSpec(url, w, rec1) && JobSpec(url, w, rec2)
    ensures rec1 == rec2
  {
    DownloadDetermined(url, w.tmpDir, w.id, w.env, w.download, rec1.run, rec1.download, rec2.run, rec2.download);
    if rec1.download.Ok? && ExistsNonEmpty(w.download.dir, rec1.download.value) {
      PublishedDetermined(url, w, rec1.steps, rec1.report, rec2.steps, rec2.report);
    }
  }

  /** What a job promises: something is uploaded iff the download gave a
      non-empty regular file, and success is reported iff, moreover, some
      backend gave a link and the webhook accepted it. */
  lemma JobOutcome(url: string, w: World, rec: JobRecord)
    requires JobSpec(url, w, rec)
    ensures StepsShape(rec.steps)
    ensures rec.steps != [] <==> rec.download.Ok? && ExistsNonEmpty(w.download.dir, rec.download.value)
    ensures rec.report.Ok? <==>
              && rec.download.Ok? && ExistsNonEmpty(w.download.dir, rec.download.value)
              && (exists i :: 0 <= i < 3 && Answer(w, i).Ok?) && Classify(w.webhook).Ok?
  {
    if rec.download.Ok? && ExistsNonEmpty(w.download.dir, rec.download.value) {
      PublishedOutcome(url, w, rec.steps, rec.report);
    }
  }

  /** One accepted job (index.js:184-221): download, check the file, publish
      and notify, report; the events are `Trace(rec)`. */
  method Job(url: string, w: World) returns (events: seq<Event>, rec: JobRecord)
    ensures events == Trace(rec) && JobSpec(url, w, rec) && StepsShape(rec.steps)
  {
    var invoked, downloaded := Download(url, w.tmpDir, w.id, w.env, w.download);
    var filePath := "";
    var steps: seq<Event> := [];
    var report: Result<(), Failure>;
    if downloaded.Err? {
      report := Err(downloaded.error);
    } else {
      filePath := downloaded.value;
      if !ExistsNonEmpty(w.download.dir, filePath) {
        report := Err(InvalidDownload);
      } else {
        steps, report := PublishAndNotify(url, w);
      }
    }
    rec := JobRecord(invoked, downloaded, steps, report);
    JobOutcome(url, w, rec);
    events := (if invoked.Some? then [Run(invoked.value)] else [])
      + (if downloaded.Ok? then [Located(filePath)] else [])
      + steps + [Report(report)];
    // `finally`: the file is removed once its name is known
    if filePath != "" {
      events := events + [Unlink(filePath)];
    }
  }

  /** The `messageCreate` handler: messages from bots and messages that are
      not the command are dropped without a word, a command whose URL is not
      Instagram's gets the one refusal, and every other command runs the job
      for the URL the command captured. */
  method HandleMessage(w: World) returns (events: seq<Event>, job: Option<JobRecord>)
    ensures Decide(w.fromBot, w.content) == Ignored ==> events == [] && job == None
    ensures Decide(w.fromBot, w.content) == NotInstagram ==> events == [Refuse] && job == None
    ensures Decide(w.fromBot, w.content).Accepted? ==>
              && job.Some? && events == Trace(job.value)
              && JobSpec(Decide(w.fromBot, w.content).url, w, job.value) && StepsShape(job.value.steps)
  {
    var d := Decide(w.fromBot, w.content);
    if d.Ignored? {
      return [], None;
    }
    if d.NotInstagram? {
      return [Refuse], None;
    }
    var rec;
    events, rec := Job(d.url, w);
    job := Some(rec);
  }
}

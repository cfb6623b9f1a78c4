/** The firmware upload and validation machine of
    buildroot/packages/configd/websocket.c: many sessions, one upload at a time,
    one validation job. */
module FirmwareJob {
  import opened Bytes

  const MAX_FIRMWARE_UPLOAD := 16 * 1024 * 1024

  /** Files under the upload directory. */
  datatype Path = Bin(token: string) | Manifest(token: string)

  /** The upload fields of a session. */
  datatype Session = Session(active: bool, fdOpen: bool, handedOff: bool, path: Option<Path>, manifest: Option<Path>,
                             token: string, expected: nat, received: nat)

  const NEW_SESSION := Session(false, false, false, None, None, "", 0, 0)

  datatype JobState = Idle | Validating | Ready | Failed

  datatype Job = Job(state: JobState, running: bool, token: string, path: Option<Path>, manifest: Option<Path>,
                     expected: nat, received: nat)

  const NO_JOB := Job(Idle, false, "", None, None, 0, 0)

  /** What a start request carries under "manifest". */
  datatype ManifestArg = Absent | NotAnObject | Document(text: seq<byte>)

  /** What the poll learns about the validator. */
  datatype Wait = StillRunning | Interrupted | Unobservable | Exited(code: nat) | Killed

  /** How a start request ends: malformed, in conflict with a job or another
      session, failed by the system, or with an upload. */
  datatype StartResult = BadStart | JobActive | OtherUpload | StartFailed | Created

  datatype ChunkResult = Unexpected | TooMuch | WriteFailed | Taken

  datatype FinishResult = NoUpload | SyncFailed | SizeMismatch | NoValidator | Started

  datatype FlashResult = StaleToken | LaunchFailed | Flashing

  /** What happened so far, for the whole daemon: session `c` began an upload, a
      chunk of it was kept, the image was submitted to the validator, accepted,
      handed to the updater; or the upload or job was dropped. */
  datatype Event =
    | Began(c: nat, token: string)
    | Kept(c: nat, data: seq<byte>)
    | Submitted(token: string, image: seq<byte>)
    | Approved(token: string, image: seq<byte>)
    | Flashed(token: string, image: seq<byte>)
    | Dropped

  type Files = map<Path, seq<byte>>

  function PathsOf(path: Option<Path>, manifest: Option<Path>): set<Path> {
    (if path.Some? then {path.value} else {}) + (if manifest.Some? then {manifest.value} else {})
  }

  /** A session after cleanup_upload. */
  function Cleaned(s: Session): Session {
    s.(fdOpen := false, active := false, expected := 0, received := 0, path := None, manifest := None)
  }

  /** A job or another session's upload stands in the way. */
  predicate Conflict(c: nat, job: Job, owner: Option<nat>) {
    job.state.Validating? || job.state.Ready? || (owner.Some? && owner != Some(c))
  }

  predicate Opened(s: Session, token: string, size: int) {
    s.active && s.token == token && s.expected == size && s.received == 0
  }

  /** The manifest that came with the request is in its file, if one came. */
  predicate Stored(s: Session, token: string, manifest: ManifestArg, files: Files) {
    match manifest
    case Document(text) =>
      s.manifest == Some(Manifest(token)) && Manifest(token) in files && files[Manifest(token)] == text
    case _ => s.manifest.None?
  }

  // -------------------------------------------------------------- invariants

  /** An active upload belongs to the owner and its file holds exactly what was
      received; an idle session names files only if it has handed them off. */
  predicate SessionOk(c: nat, s: Session, owner: Option<nat>, files: Files) {
    if s.active
    then && owner == Some(c) && s.fdOpen && !s.handedOff
         && s.path == Some(Bin(s.token)) && Bin(s.token) in files && |files[Bin(s.token)]| == s.received
         && s.received <= s.expected
         && (s.manifest.Some? ==> s.manifest == Some(Manifest(s.token)) && Manifest(s.token) in files)
    else !s.fdOpen && (s.path.Some? || s.manifest.Some? ==> s.handedOff)
  }

  /** The job's files are there, its image untouched since submission, and no
      upload is active. */
  predicate Holds(job: Job, owner: Option<nat>, files: Files, submitted: seq<byte>) {
    && owner.None?
    && job.path == Some(Bin(job.token)) && Bin(job.token) in files && files[Bin(job.token)] == submitted
    && |submitted| == job.expected && job.received == job.expected
    && (job.manifest.Some? ==> job.manifest == Some(Manifest(job.token)) && Manifest(job.token) in files)
  }

  predicate JobOk(job: Job, owner: Option<nat>, files: Files, submitted: seq<byte>) {
    match job.state
    case Idle => job == NO_JOB
    case Validating => job.running && Holds(job, owner, files, submitted)
    case Ready => !job.running && Holds(job, owner, files, submitted)
    case Failed => !job.running && job.path.None? && job.manifest.None?
  }

  // ------------------------------------------------------------------ history

  /** Where the one upload or job stands. */
  datatype Stage =
    | Free
    | Receiving(c: nat, token: string, got: seq<byte>)
    | Waiting(token: string, image: seq<byte>)
    | Cleared(token: string, image: seq<byte>)

  predicate Allowed(s: Stage, e: Event) {
    match e
    case Began(_, _) => s.Free?
    case Kept(c, _) => s.Receiving? && s.c == c
    case Submitted(token, image) => s.Receiving? && s.token == token && s.got == image
    case Approved(token, image) => s == Waiting(token, image)
    case Flashed(token, image) => s == Cleared(token, image)
    case Dropped => !s.Free?
  }

  function After(s: Stage, e: Event): Stage {
    match e
    case Began(c, token) => Receiving(c, token, [])
    case Kept(_, data) => if s.Receiving? then s.(got := s.got + data) else s
    case Submitted(token, image) => Waiting(token, image)
    case Approved(token, image) => Cleared(token, image)
    case Flashed(_, _) => Free
    case Dropped => Free
  }

  function StageOf(log: seq<Event>): Stage {
    if log == [] then Free else After(StageOf(log[..|log| - 1]), log[|log| - 1])
  }

  predicate Legal(log: seq<Event>) {
    log == [] || (Legal(log[..|log| - 1]) && Allowed(StageOf(log[..|log| - 1]), log[|log| - 1]))
  }

  lemma OneMore(log: seq<Event>, e: Event)
    requires Legal(log) && Allowed(StageOf(log), e)
    ensures Legal(log + [e]) && StageOf(log + [e]) == After(StageOf(log), e)
  {
    assert (log + [e])[..|log|] == log;
  }

  lemma {:induction false} LegalBefore(log: seq<Event>, i: nat)
    requires Legal(log) && i < |log|
    ensures Legal(log[..i]) && Allowed(StageOf(log[..i]), log[i])
  {
    var front := log[..|log| - 1];
    if i < |front| {
      LegalBefore(front, i);
      assert front[..i] == log[..i];
    }
  }

  /** The bytes of the chunks kept, in order. */
  function Joined(events: seq<Event>): seq<byte> {
    if events == [] then [] else
    Joined(events[..|events| - 1]) + if events[|events| - 1].Kept? then events[|events| - 1].data else []
  }

  /** From `k` to `end` the log is one session's upload of the image under the
      token: it began at `k`, every event since is a chunk of that session, and
      the chunks make up the image. */
  predicate UploadedBy(log: seq<Event>, k: nat, end: nat, c: nat, token: string, image: seq<byte>) {
    && k < end <= |log| && log[k] == Began(c, token)
    && (forall j :: k < j < end ==> log[j].Kept? && log[j].c == c)
    && Joined(log[k + 1..end]) == image
  }

  /** The log up to `end` finishes with one session's whole upload of the image. */
  ghost predicate Uploaded(log: seq<Event>, end: nat, token: string, image: seq<byte>) {
    exists c: nat, k: nat :: UploadedBy(log, k, end, c, token, image)
  }

  lemma {:induction false} ReceivingTraced(log: seq<Event>)
    requires Legal(log) && StageOf(log).Receiving?
    ensures exists k: nat :: UploadedBy(log, k, |log|, StageOf(log).c, StageOf(log).token, StageOf(log).got)
  {
    var front, e := log[..|log| - 1], log[|log| - 1];
    if e.Began? {
      assert log[|log|..] == [];
      assert UploadedBy(log, |log| - 1, |log|, e.c, e.token, []);
    } else {
      ReceivingTraced(front);
      var was := StageOf(front);
      var k: nat :| UploadedBy(front, k, |front|, was.c, was.token, was.got);
      ChunkAppended(front, e, k, was.token, was.got);
      assert log == front + [e];
    }
  }

  lemma ChunkAppended(log: seq<Event>, e: Event, k: nat, token: string, got: seq<byte>)
    requires e.Kept? && UploadedBy(log, k, |log|, e.c, token, got)
    ensures UploadedBy(log + [e], k, |log| + 1, e.c, token, got + e.data)
  {
    var part := (log + [e])[k + 1..|log| + 1];
    assert part[..|part| - 1] == log[k + 1..|log|] && part[|part| - 1] == e;
  }

  /** Whatever came before, a flashed image is exactly the chunks one session sent
      in one upload with nothing in between, submitted whole, accepted next and
      flashed next. */
  lemma FlashTraced(log: seq<Event>, i: nat)
    requires Legal(log) && i < |log| && log[i].Flashed?
    ensures 2 <= i && log[i - 1] == Approved(log[i].token, log[i].image)
    ensures log[i - 2] == Submitted(log[i].token, log[i].image)
    ensures Uploaded(log, i - 2, log[i].token, log[i].image)
  {
    hide Legal, StageOf, UploadedBy;
    var token, image := log[i].token, log[i].image;
    LegalBefore(log, i);
    StageBefore(log, i);
    LegalBefore(log, i - 1);
    StageBefore(log, i - 1);
    LegalBefore(log, i - 2);
    ReceivingTraced(log[..i - 2]);
    var c := StageOf(log[..i - 2]).c;
    var k: nat :| UploadedBy(log[..i - 2], k, |log[..i - 2]|, c, token, image);
    UploadInPrefix(log, i - 2, k, c, token, image);
  }

  lemma UploadInPrefix(log: seq<Event>, end: nat, k: nat, c: nat, token: string, image: seq<byte>)
    requires end <= |log| && UploadedBy(log[..end], k, |log[..end]|, c, token, image)
    ensures UploadedBy(log, k, end, c, token, image)
  {
    hide Joined;
    assert log[..end][k + 1..end] == log[k + 1..end];
  }

  /** A stage that only one kind of event leads to. */
  lemma StageBefore(log: seq<Event>, i: nat)
    requires i <= |log| && Legal(log[..i])
    ensures StageOf(log[..i]).Cleared? ==>
              0 < i && log[i - 1] == Approved(StageOf(log[..i]).token, StageOf(log[..i]).image)
    ensures StageOf(log[..i]).Waiting? ==>
              0 < i && log[i - 1] == Submitted(StageOf(log[..i]).token, StageOf(log[..i]).image)
  {
    if 0 < i {
      assert log[..i][..i - 1] == log[..i - 1];
    }
  }

  class Daemon {
    var sessions: map<nat, Session>
    var owner: Option<nat>
    var job: Job
    var files: Files
    /** The image of the current job as it was submitted. */
    ghost var submitted: seq<byte>
    ghost var log: seq<Event>

    /** Where the upload or job stands by the daemon's own fields. */
    ghost function Now(): Stage
      reads this
    {
      if job.state.Validating? then Waiting(job.token, submitted)
      else if job.state.Ready? then Cleared(job.token, submitted)
      else if owner.Some? && owner.value in sessions && Bin(sessions[owner.value].token) in files
      then Receiving(owner.value, sessions[owner.value].token, files[Bin(sessions[owner.value].token)])
      else Free
    }

    ghost predicate Valid()
      reads this
    {
      && (forall c :: c in sessions ==> SessionOk(c, sessions[c], owner, files))
      && (owner.Some? ==> owner.value in sessions && sessions[owner.value].active)
      && JobOk(job, owner, files, submitted)
      && Legal(log) && StageOf(log) == Now()
    }

    /** Adds to the history. */
    ghost method Note(e: Event)
      requires Legal(log) && Allowed(StageOf(log), e)
      modifies `log
      ensures log == old(log) + [e] && Legal(log) && StageOf(log) == After(old(StageOf(log)), e)
    {
      OneMore(log, e);
      log := log + [e];
    }

    /** In every state the daemon can reach, each flashed image is the chunks of
        one session's one upload, submitted whole, then accepted, then flashed,
        with no event of any session in between. */
    lemma FlashedWasUploadedAndApproved(i: nat)
      requires Valid() && i < |log| && log[i].Flashed?
      ensures 2 <= i && log[i - 1] == Approved(log[i].token, log[i].image)
      ensures log[i - 2] == Submitted(log[i].token, log[i].image)
      ensures Uploaded(log, i - 2, log[i].token, log[i].image)
    {
      FlashTraced(log, i);
    }

    constructor ()
      ensures Valid() && sessions == map[] && job == NO_JOB && log == []
    {
      sessions, owner, job, files := map[], None, NO_JOB, map[];
      submitted, log := [], [];
    }

    /** At most one upload is active, and its session is the owner; none is while
        the job is validating or ready. */
    lemma OneUpload(c: nat, d: nat)
      requires Valid() && c in sessions && d in sessions && sessions[c].active
      ensures owner == Some(c) && (sessions[d].active ==> d == c)
      ensures sessions[c].received <= sessions[c].expected
      ensures !job.state.Validating? && !job.state.Ready?
    {
    }

    // ------------------------------------------------------- connections

    method Connect(c: nat)
      requires Valid() && c !in sessions
      modifies this
      ensures Valid() && sessions == old(sessions)[c := NEW_SESSION]
      ensures owner == old(owner) && job == old(job) && files == old(files) && log == old(log)
    {
      hide Legal, StageOf;
      sessions := sessions[c := NEW_SESSION];
    }

    /** cleanup_upload: the session's own files go unless it handed them off. */
    method CleanupUpload(c: nat)
      requires c in sessions
      modifies `sessions, `owner, `files
      ensures sessions == old(sessions)[c := Cleaned(old(sessions)[c])]
      ensures owner == if old(owner) == Some(c) then None else old(owner)
      ensures files == old(files) - if old(sessions)[c].handedOff then {}
              else PathsOf(old(sessions)[c].path, old(sessions)[c].manifest)
    {
      var s := sessions[c];
      if !s.handedOff {
        files := files - PathsOf(s.path, s.manifest);
      }
      sessions := sessions[c := Cleaned(s)];
      if owner == Some(c) {
        owner := None;
      }
    }

    /** Cleaning up keeps every file of a job that is validating or ready. */
    method Cleanup(c: nat)
      requires Valid() && c in sessions
      modifies `sessions, `owner, `files, `log
      ensures Valid() && sessions == old(sessions)[c := Cleaned(old(sessions)[c])]
      ensures log == old(log) + if old(sessions)[c].active then [Dropped] else []
      ensures !sessions[c].active && owner == if old(owner) == Some(c) then None else old(owner)
      ensures files == old(files) - if old(sessions)[c].handedOff then {}
              else PathsOf(old(sessions)[c].path, old(sessions)[c].manifest)
      ensures job.state.Validating? || job.state.Ready? ==>
                forall p :: p in PathsOf(job.path, job.manifest) ==> p in files && files[p] == old(files)[p]
    {
      hide Legal, StageOf;
      if sessions[c].active {
        OneUpload(c, c);
        Note(Dropped);
      }
      CleanupUpload(c);
    }

    /** The connection closed: remove_client and cleanup_upload. */
    method Close(c: nat)
      requires Valid() && c in sessions
      modifies this
      ensures Valid() && sessions == old(sessions) - {c} && job == old(job)
      ensures files == old(files) - if old(sessions)[c].handedOff then {}
              else PathsOf(old(sessions)[c].path, old(sessions)[c].manifest)
      ensures log == old(log) + if old(sessions)[c].active then [Dropped] else []
    {
      hide Legal, StageOf;
      Cleanup(c);
      sessions := sessions - {c};
    }

    // ------------------------------------------------------------- the job

    /** firmware_job_forget. */
    method Forget(unlink: bool)
      modifies `job, `files
      ensures job == NO_JOB
      ensures files == old(files) - if unlink then PathsOf(old(job).path, old(job).manifest) else {}
    {
      if unlink {
        files := files - PathsOf(job.path, job.manifest);
      }
      job := NO_JOB;
    }

    /** A failed job has no files left to unlink. */
    method ForgetFailed()
      requires Valid() && job.state.Failed?
      modifies `job, `files
      ensures Valid() && job == NO_JOB && files == old(files)
    {
      hide Legal, StageOf, SessionOk;
      ghost var before := files;
      Forget(true);
      assert files == before;
    }

    /** firmware_job_cancel: kills a running validator and drops the job with its
        files. */
    method Cancel()
      requires Valid()
      modifies `job, `files, `log
      ensures Valid() && job == NO_JOB
      ensures log == old(log) + if old(job.state.Validating? || job.state.Ready?) then [Dropped] else []
      ensures files == old(files) - PathsOf(old(job).path, old(job).manifest)
      ensures owner.Some? ==> files == old(files)
    {
      hide Legal, StageOf;
      if job.state.Validating? || job.state.Ready? {
        Note(Dropped);
      }
      Forget(true);
    }

    /** firmware_upload_cancel. */
    method UploadCancel(c: nat)
      requires Valid() && c in sessions
      modifies this
      ensures Valid() && job == NO_JOB && c in sessions && !sessions[c].active
      ensures log == old(log) + if old(job.state.Validating? || job.state.Ready? || sessions[c].active) then [Dropped]
              else []
    {
      hide Legal, StageOf;
      Cancel();
      Cleanup(c);
    }

    /** ws_revoke_user_sessions and logout: the job of the user may go, then the
        sessions are cleaned one by one. */
    method Deauthenticate(c: nat, ownsJob: bool)
      requires Valid() && c in sessions
      modifies this
      ensures Valid() && c in sessions && !sessions[c].active
      ensures log == old(log) || log == old(log) + [Dropped]
      ensures !ownsJob ==> job == old(job)
    {
      hide Legal, StageOf;
      if ownsJob {
        Cancel();
      }
      Cleanup(c);
    }

    /** purge_upload_cache, with no upload active and no job. */
    method Purge(stale: set<Path>)
      requires Valid() && owner.None? && job == NO_JOB
      modifies `files
      ensures Valid() && files == old(files) - stale
    {
      hide Legal, StageOf;
      files := files - stale;
    }

    /** firmware_upload_start.  `stale` are the files purge_upload_cache finds
        older than an hour, `token` is made of the time and the connection. */
    method UploadStart(c: nat, size: int, nameOk: bool, token: string, manifest: ManifestArg, stale: set<Path>)
      returns (r: StartResult)
      requires Valid() && c in sessions
      modifies this
      ensures Valid() && c in sessions && old(log) <= log
      ensures r.Created? ==> log == old(log) + (if old(sessions)[c].active then [Dropped] else []) + [Began(c, token)]
      ensures r.BadStart? <==>
                size <= 0 || size > MAX_FIRMWARE_UPLOAD || !nameOk
                || (!Conflict(c, old(job), old(owner)) && manifest.NotAnObject?)
      ensures r.JobActive? || r.OtherUpload? <==>
                0 < size <= MAX_FIRMWARE_UPLOAD && nameOk && Conflict(c, old(job), old(owner))
      ensures r.JobActive? ==> old(job.state.Validating? || job.state.Ready?)
      ensures r.Created? ==> Opened(sessions[c], token, size) && Bin(token) in files && files[Bin(token)] == []
      ensures r.Created? ==> Stored(sessions[c], token, manifest, files)
      // a job that validates or waits for confirmation, or another session's
      // upload, is left alone
      ensures r.JobActive? || r.OtherUpload? ==> sessions == old(sessions) && owner == old(owner) && files == old(files)
      ensures old(job.state.Validating? || job.state.Ready?) ==> job == old(job) && files == old(files)
      // files of other tokens stay, save the stale ones and the session's own
      ensures forall p ::
                p in old(files).Keys - stale - PathsOf(old(sessions)[c].path, old(sessions)[c].manifest)
                && p.token != token ==>
                p in files && files[p] == old(files)[p]
      // a name in use is refused
      ensures Bin(token) in old(files).Keys - stale - PathsOf(old(sessions)[c].path, old(sessions)[c].manifest) ==>
                !r.Created?
    {
      hide Legal, StageOf, SessionOk;
      if size <= 0 || size > MAX_FIRMWARE_UPLOAD || !nameOk {
        return BadStart;
      }
      if job.state.Validating? || job.state.Ready? {
        return JobActive;
      }
      if job.state.Failed? {
        ForgetFailed();
      }
      if owner.Some? && owner != Some(c) {
        return OtherUpload;
      }
      Cleanup(c);
      Purge(stale);
      r := OpenUpload(c, size, token, manifest);
    }

    /** An upload being set up: its names are chosen, nothing is open yet. */
    ghost predicate Pending(c: nat, token: string)
      reads this
    {
      && c in sessions
      && (forall d :: d in sessions && d != c ==> !sessions[d].active && SessionOk(d, sessions[d], owner, files))
      && owner.None? && job == NO_JOB && Legal(log) && StageOf(log) == Free
      && var s := sessions[c];
         !s.active && !s.fdOpen && !s.handedOff && s.token == token && s.path == Some(Bin(token))
         && (s.manifest.Some? ==> s.manifest == Some(Manifest(token)))
    }

    method Abandon(c: nat, token: string)
      requires Pending(c, token)
      modifies `sessions, `owner, `files
      ensures Valid() && c in sessions && !sessions[c].active && owner.None?
      ensures files == old(files) - PathsOf(old(sessions)[c].path, old(sessions)[c].manifest)
    {
      hide Legal, StageOf;
      CleanupUpload(c);
    }

    /** The second half of firmware_upload_start, with no upload active and no
        job: the file is created exclusively, so a name already taken fails the
        request, and the cleanup then removes that file. */
    method OpenUpload(c: nat, size: nat, token: string, manifest: ManifestArg) returns (r: StartResult)
      requires Valid() && c in sessions && owner.None? && job == NO_JOB && !sessions[c].active
      modifies `sessions, `owner, `files, `log
      ensures Valid() && c in sessions
      ensures log == old(log) + if r.Created? then [Began(c, token)] else []
      ensures r.BadStart? || r.StartFailed? || r.Created?
      ensures r.BadStart? <==> manifest.NotAnObject?
      ensures r.Created? ==> Opened(sessions[c], token, size) && Bin(token) in files && files[Bin(token)] == []
      ensures r.Created? ==> Stored(sessions[c], token, manifest, files)
      ensures Bin(token) in old(files) ==> !r.Created? && Bin(token) !in files
      ensures forall p :: p in old(files) && p.token != token ==> p in files && files[p] == old(files)[p]
    {
      hide Legal, StageOf, SessionOk;
      var ok := ChooseNames(c, token, manifest);
      var failed: bool := *;
      if !ok || failed || Bin(token) in files {
        Abandon(c, token);
        return if manifest.NotAnObject? then BadStart else StartFailed;
      }
      CreateFile(c, size, token);
      r := Created;
    }

    /** The names, and the manifest if there is one. */
    method ChooseNames(c: nat, token: string, manifest: ManifestArg) returns (ok: bool)
      requires Valid() && c in sessions && owner.None? && job == NO_JOB && !sessions[c].active
      modifies `sessions, `files
      ensures Pending(c, token)
      ensures ok ==> !manifest.NotAnObject? && (sessions[c].manifest.Some? ==> Manifest(token) in files)
      ensures ok ==> Stored(sessions[c], token, manifest, files)
      ensures Bin(token) in files <==> Bin(token) in old(files)
      ensures forall p :: p in old(files) && p.token != token ==> p in files && files[p] == old(files)[p]
    {
      hide Legal, StageOf;
      var s := sessions[c].(handedOff := false, token := token, path := Some(Bin(token)), manifest := None);
      sessions := sessions[c := s];
      if manifest.Absent? {
        return true;
      }
      if manifest.NotAnObject? {
        return false;
      }
      sessions := sessions[c := sessions[c].(manifest := Some(Manifest(token)))];
      ok := *;
      if ok {
        files := files[Manifest(token) := manifest.text];
      }
    }

    /** open with O_EXCL succeeded. */
    method CreateFile(c: nat, size: nat, token: string)
      requires Pending(c, token) && Bin(token) !in files
      requires sessions[c].manifest.Some? ==> Manifest(token) in files
      modifies `sessions, `owner, `files, `log
      ensures Valid() && c in sessions && Opened(sessions[c], token, size)
      ensures sessions[c].manifest == old(sessions)[c].manifest
      ensures files == old(files)[Bin(token) := []] && log == old(log) + [Began(c, token)]
    {
      hide Legal, StageOf;
      Note(Began(c, token));
      files := files[Bin(token) := []];
      sessions := sessions[c := sessions[c].(fdOpen := true, expected := size, received := 0, active := true)];
      owner := Some(c);
    }

    /** The write loop of receive_binary: what was written before the first
        failure. */
    method WriteChunk(c: nat, data: seq<byte>) returns (done: nat)
      requires c in sessions && Bin(sessions[c].token) in files
      modifies `sessions, `files
      ensures done <= |data|
      ensures sessions == old(sessions)[c := old(sessions)[c].(received := old(sessions)[c].received + done)]
      ensures var bin := Bin(old(sessions)[c].token);
              files == old(files)[bin := old(files)[bin] + data[..done]]
    {
      var s := sessions[c];
      done := 0;
      assert files[Bin(s.token)] + data[..0] == files[Bin(s.token)];
      while done < |data|
        invariant done <= |data| && c in sessions
        invariant sessions == old(sessions)[c := s.(received := s.received + done)]
        invariant files == old(files)[Bin(s.token) := old(files)[Bin(s.token)] + data[..done]]
      {
        var n: nat :| n <= |data| - done;
        if n == 0 {
          return;
        }
        assert old(files)[Bin(s.token)] + data[..done + n] == old(files)[Bin(s.token)] + data[..done]
               + data[done..done + n];
        files := files[Bin(s.token) := files[Bin(s.token)] + data[done..done + n]];
        sessions := sessions[c := sessions[c].(received := sessions[c].received + n)];
        done := done + n;
      }
    }

    /** receive_binary: the whole chunk is appended, or the upload is dropped. */
    method ReceiveBinary(c: nat, data: seq<byte>) returns (r: ChunkResult)
      requires Valid() && c in sessions
      modifies `sessions, `owner, `files, `log
      ensures Valid() && c in sessions && old(log) <= log
      ensures r.Unexpected? ==> log == old(log)
      ensures r.Taken? ==> log == old(log) + [Kept(c, data)]
      ensures r.Unexpected? <==> !old(sessions)[c].active
      ensures r.TooMuch? <==> old(sessions)[c].active && old(sessions)[c].received + |data| > old(sessions)[c].expected
      ensures r.Unexpected? ==> sessions == old(sessions) && files == old(files) && owner == old(owner)
      ensures r.TooMuch? || r.WriteFailed? ==>
                && !sessions[c].active && owner.None?
                && files == old(files) - PathsOf(old(sessions)[c].path, old(sessions)[c].manifest)
      ensures forall d :: d in old(sessions) && d != c ==> d in sessions && sessions[d] == old(sessions)[d]
      ensures r.Taken? ==>
                && sessions[c].active && old(sessions)[c].path == Some(Bin(sessions[c].token))
                && Bin(sessions[c].token) in old(files)
                && files == old(files)[Bin(sessions[c].token) := old(files)[Bin(sessions[c].token)] + data]
                && sessions[c].received == old(sessions)[c].received + |data|
    {
      hide Legal, StageOf;
      var s := sessions[c];
      if !s.active || !s.fdOpen || owner != Some(c) {
        return Unexpected;
      }
      if s.received + |data| > s.expected {
        Cleanup(c);
        return TooMuch;
      }
      var done := WriteChunk(c, data);
      Note(Kept(c, data[..done]));
      StillValid(c, s, data, done, old(files));
      if done < |data| {
        Cleanup(c);
        return WriteFailed;
      }
      assert data[..|data|] == data;
      r := Taken;
    }

    /** Part of a chunk written keeps the invariant. */
    lemma StillValid(c: nat, s: Session, data: seq<byte>, done: nat, before: Files)
      requires done <= |data| && s.received + |data| <= s.expected
      requires c in sessions && sessions[c] == s.(received := s.received + done)
      requires SessionOk(c, s, owner, before) && s.active
      requires Bin(s.token) in before && files == before[Bin(s.token) := before[Bin(s.token)] + data[..done]]
      requires forall d :: d in sessions && d != c ==> SessionOk(d, sessions[d], owner, before)
      requires JobOk(job, owner, before, submitted) && owner == Some(c)
      requires Legal(log) && StageOf(log) == Receiving(c, s.token, files[Bin(s.token)])
      ensures Valid()
    {
      hide Legal, StageOf;
    }

    /** firmware_upload_finish with firmware_job_start: a complete upload becomes
        the job, file and all. */
    method UploadFinish(c: nat) returns (r: FinishResult)
      requires Valid() && c in sessions
      modifies this
      ensures Valid() && c in sessions && old(log) <= log
      ensures r.Started? ==> log == old(log) + [Submitted(job.token, submitted)]
      ensures r.NoUpload? ==> log == old(log)
      ensures r.SyncFailed? || r.SizeMismatch? || r.NoValidator? ==> log == old(log) + [Dropped]
      ensures r.NoUpload? <==> !old(sessions)[c].active
      ensures r.SizeMismatch? ==> old(sessions)[c].received != old(sessions)[c].expected
      ensures r.Started? || r.NoValidator? ==>
                old(sessions)[c].active && old(sessions)[c].received == old(sessions)[c].expected
      ensures r.Started? ==> job.state.Validating? && job.token == old(sessions)[c].token
                             && files == old(files) && submitted == old(files)[Bin(job.token)] && owner.None?
                             && job.manifest == old(sessions)[c].manifest && job.expected == old(sessions)[c].expected
      ensures r.SyncFailed? || r.SizeMismatch? || r.NoValidator? ==>
                files == old(files) - PathsOf(old(sessions)[c].path, old(sessions)[c].manifest)
      ensures r.NoUpload? ==> files == old(files) && sessions == old(sessions) && job == old(job)
      ensures !r.Started? ==> job == old(job) || (r.NoValidator? && job == NO_JOB)
      ensures !sessions[c].active
    {
      hide Legal, StageOf;
      var s := sessions[c];
      if !s.active || !s.fdOpen {
        return NoUpload;
      }
      OneUpload(c, c);
      var synced: bool := *;
      if !synced {
        Cleanup(c);
        return SyncFailed;
      }
      if s.received != s.expected {
        Cleanup(c);
        return SizeMismatch;
      }
      var started := StartJob(c);
      if !started {
        Cleanup(c);
        return NoValidator;
      }
      r := Started;
    }

    /** firmware_job_start and the handing over. */
    method StartJob(c: nat) returns (started: bool)
      requires Valid() && c in sessions && sessions[c].active && sessions[c].received == sessions[c].expected
      modifies this
      ensures Valid() && c in sessions && files == old(files)
      ensures log == old(log) + if started then [Submitted(job.token, submitted)] else []
      ensures started ==> job.state.Validating? && job.token == old(sessions)[c].token && !sessions[c].active
                          && submitted == files[Bin(job.token)] && owner.None?
                          && job.manifest == old(sessions)[c].manifest && job.expected == old(sessions)[c].expected
      ensures !started ==> job == NO_JOB && sessions == old(sessions) && owner == old(owner)
    {
      hide Legal, StageOf;
      var s := sessions[c];
      OneUpload(c, c);
      if job.state.Failed? {
        ForgetFailed();
      }
      var forked: bool := *;
      if !forked {
        Forget(false);
        return false;
      }
      Note(Submitted(s.token, files[Bin(s.token)]));
      job := Job(Validating, true, s.token, s.path, s.manifest, s.expected, s.received);
      submitted := files[Bin(s.token)];
      sessions := sessions[c := s.(fdOpen := false, active := false, handedOff := true)];
      owner := None;
      started := true;
    }

    /** firmware_job_poll: ready exactly when the validator exited with 0. */
    method Poll(w: Wait)
      requires Valid()
      modifies `job, `files, `log
      ensures Valid() && old(log) <= log
      ensures !old(job.state).Validating? || w.StillRunning? || w.Interrupted? ==>
                job == old(job) && files == old(files) && log == old(log)
      ensures old(job.state).Validating? ==>
                && (job.state.Ready? <==> w == Exited(0))
                && (job.state.Ready? ==> files == old(files) && log == old(log) + [Approved(old(job).token, submitted)])
                && (job.state.Failed? ==>
                      files == old(files) - PathsOf(old(job).path, old(job).manifest) && log == old(log) + [Dropped])
    {
      hide Legal, StageOf;
      if !job.state.Validating? || !job.running {
        return;
      }
      if w.StillRunning? || w.Interrupted? {
        return;
      }
      if w == Exited(0) {
        Note(Approved(job.token, submitted));
        job := job.(state := Ready, running := false);
        return;
      }
      Note(Dropped);
      files := files - PathsOf(job.path, job.manifest);
      job := job.(state := Failed, running := false, path := None, manifest := None);
    }

    /** firmware_begin_flash: only a ready job with this token, and then the image
        the validator accepted, byte for byte. */
    method BeginFlash(c: nat, token: string) returns (r: FlashResult)
      requires Valid() && c in sessions
      modifies this
      ensures Valid() && files == old(files)
      ensures r.StaleToken? <==> !old(job.state).Ready? || token != old(job).token
      ensures r.Flashing? ==>
                && job == NO_JOB && |old(submitted)| == old(job).expected
                && Bin(token) in files && files[Bin(token)] == old(submitted)
                && log == old(log) + [Flashed(token, old(submitted))]
      ensures !r.Flashing? ==> job == old(job) && log == old(log) && sessions == old(sessions)
    {
      hide Legal, StageOf;
      if !job.state.Ready? || job.path.None? || token != job.token {
        return StaleToken;
      }
      var launched: bool := *;
      if !launched {
        return LaunchFailed;
      }
      Note(Flashed(token, files[job.path.value]));
      sessions := sessions[c := sessions[c].(active := false, handedOff := true)];
      owner := None;
      Forget(false);
      r := Flashing;
    }

    /** Any run of the daemon: whatever the clients send and whatever fails, the
        invariant holds after every step, and the history only grows. */
    method Serve(steps: nat)
      requires Valid()
      modifies this
      ensures Valid() && old(log) <= log
    {
      hide Legal, StageOf, SessionOk, JobOk;
      for k := 0 to steps
        invariant Valid() && old(log) <= log
      {
        var c: nat := *;
        if c !in sessions {
          Connect(c);
        } else {
          AnyRequest(c);
        }
      }
    }

    method AnyRequest(c: nat)
      requires Valid() && c in sessions
      modifies this
      ensures Valid() && old(log) <= log
    {
      hide Legal, StageOf, SessionOk, JobOk;
      var token: string := *;
      if * {
        Close(c);
      } else if * {
        UploadCancel(c);
      } else if * {
        var ownsJob: bool := *;
        Deauthenticate(c, ownsJob);
      } else if * {
        var size: int := *;
        var nameOk: bool := *;
        var manifest: ManifestArg := *;
        var stale: set<Path> := *;
        var r := UploadStart(c, size, nameOk, token, manifest, stale);
      } else if * {
        var data: seq<byte> := *;
        var r := ReceiveBinary(c, data);
      } else if * {
        var r := UploadFinish(c);
      } else if * {
        var w: Wait := *;
        Poll(w);
      } else {
        var r := BeginFlash(c, token);
      }
    }
  }
}

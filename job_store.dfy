/** The in-memory path of backend/storage/job_store.py: a dictionary from job
    id to a serialised JobData, which keeps its insertion order. The store is
    a class whose `jobs` map is that dictionary and whose `order` sequence is
    the dictionary's key order. The clock is a parameter, and so is
    `datetime.fromisoformat` for expiry (`parse`, giving microseconds, the
    resolution of `datetime`, or None when parsing or comparing fails). */
module JobStore {
  import opened Wrappers
  import opened Json
  import opened JobTypes

  /** JOB_EXPIRATION: hours a job is kept after its last update. */
  const JobExpirationHours: int := 24

  /** `timedelta(hours=1)` in microseconds. */
  const MicrosPerHour: int := 3600 * 1000000

  /** A value assigned by update_job, one constructor per attribute type. */
  datatype AttrValue =
    | VStr(s: string)
    | VInt(i: int)
    | VStatus(st: ProcessingStatus)
    | VOptStr(o: Option<string>)
    | VMeta(m: Option<seq<Field>>)
    | VList(items: seq<Json>)

  /** The attributes of JobData. */
  datatype AttrName = JobIdAttr | StatusAttr | ProgressAttr | UserIdAttr | FilePathAttr | ContentAttr
                    | DocumentTypeAttr | ErrorAttr | CreatedAtAttr | UpdatedAtAttr | MetadataAttr
                    | PredictionsAttr | CorrectionsAttr

  /** `hasattr(job, key)` for the data attributes: the attribute a key
      names, or None. */
  function AttrOf(key: string): (r: Option<AttrName>)
    ensures r.Some? <==> key in {"job_id", "status", "progress", "user_id", "file_path", "content", "document_type",
                                 "error", "created_at", "updated_at", "metadata", "predictions", "corrections"}
  {
    if key == "job_id" then Some(JobIdAttr)
    else if key == "status" then Some(StatusAttr)
    else if key == "progress" then Some(ProgressAttr)
    else if key == "user_id" then Some(UserIdAttr)
    else if key == "file_path" then Some(FilePathAttr)
    else if key == "content" then Some(ContentAttr)
    else if key == "document_type" then Some(DocumentTypeAttr)
    else if key == "error" then Some(ErrorAttr)
    else if key == "created_at" then Some(CreatedAtAttr)
    else if key == "updated_at" then Some(UpdatedAtAttr)
    else if key == "metadata" then Some(MetadataAttr)
    else if key == "predictions" then Some(PredictionsAttr)
    else if key == "corrections" then Some(CorrectionsAttr)
    else None
  }

  /** `getattr(job, name)` */
  function Attr(job: JobData, name: AttrName): AttrValue
  {
    match name
    case JobIdAttr => VStr(job.jobId)
    case StatusAttr => VStatus(job.status)
    case ProgressAttr => VInt(job.progress)
    case UserIdAttr => VStr(job.userId)
    case FilePathAttr => VStr(job.filePath)
    case ContentAttr => VStr(job.content)
    case DocumentTypeAttr => VStr(job.documentType)
    case ErrorAttr => VOptStr(job.error)
    case CreatedAtAttr => VStr(job.createdAt)
    case UpdatedAtAttr => VStr(job.updatedAt)
    case MetadataAttr => VMeta(job.metadata)
    case PredictionsAttr => VList(job.predictions)
    case CorrectionsAttr => VList(job.corrections)
  }

  /** A value may be assigned to an attribute only if it has the
      attribute's type. */
  predicate FitsAttr(name: AttrName, v: AttrValue)
  {
    match name
    case StatusAttr => v.VStatus?
    case ProgressAttr => v.VInt?
    case ErrorAttr => v.VOptStr?
    case MetadataAttr => v.VMeta?
    case PredictionsAttr | CorrectionsAttr => v.VList?
    case _ => v.VStr?
  }

  /** Keys that are not attributes accept anything: they are skipped. */
  predicate AllFit(updates: seq<(string, AttrValue)>)
  {
    forall i :: 0 <= i < |updates| ==> AttrOf(updates[i].0).Some? ==> FitsAttr(AttrOf(updates[i].0).value, updates[i].1)
  }

  /** `setattr(job, name, v)` */
  function SetAttr(job: JobData, name: AttrName, v: AttrValue): (r: JobData)
    requires FitsAttr(name, v)
  {
    match name
    case JobIdAttr => job.(jobId := v.s)
    case StatusAttr => job.(status := v.st)
    case ProgressAttr => job.(progress := v.i)
    case UserIdAttr => job.(userId := v.s)
    case FilePathAttr => job.(filePath := v.s)
    case ContentAttr => job.(content := v.s)
    case DocumentTypeAttr => job.(documentType := v.s)
    case ErrorAttr => job.(error := v.o)
    case CreatedAtAttr => job.(createdAt := v.s)
    case UpdatedAtAttr => job.(updatedAt := v.s)
    case MetadataAttr => job.(metadata := v.m)
    case PredictionsAttr => job.(predictions := v.items)
    case CorrectionsAttr => job.(corrections := v.items)
  }

  /** Assigning an attribute changes that attribute to the value given and
      no other one. */
  lemma SetAttrOnlyThat(job: JobData, name: AttrName, v: AttrValue, other: AttrName)
    requires FitsAttr(name, v)
    ensures Attr(SetAttr(job, name, v), other) == if other == name then v else Attr(job, other)
  {
  }

  /** One step of update_job's loop: assign when the key names an
      attribute, skip it otherwise. */
  function ApplyUpdate(job: JobData, key: string, v: AttrValue): JobData
    requires AttrOf(key).Some? ==> FitsAttr(AttrOf(key).value, v)
  {
    if AttrOf(key).Some? then SetAttr(job, AttrOf(key).value, v) else job
  }

  /** The updates applied in order, as the loop of update_job does. */
  function ApplyUpdates(job: JobData, updates: seq<(string, AttrValue)>): JobData
    requires AllFit(updates)
  {
    if updates == [] then job
    else
      var last := updates[|updates| - 1];
      ApplyUpdate(ApplyUpdates(job, updates[..|updates| - 1]), last.0, last.1)
  }

  /** The value of the last update whose key names `name`, if any does. */
  function LastUpdate(updates: seq<(string, AttrValue)>, name: AttrName): (r: Option<AttrValue>)
    ensures r.Some? <==> exists i :: 0 <= i < |updates| && AttrOf(updates[i].0) == Some(name)
  {
    if updates == [] then None
    else if AttrOf(updates[|updates| - 1].0) == Some(name) then Some(updates[|updates| - 1].1)
    else
      var r := LastUpdate(updates[..|updates| - 1], name);
      assert forall i :: 0 <= i < |updates| - 1 ==> updates[..|updates| - 1][i] == updates[i];
      r
  }

  /** After update_job's loop each attribute holds the last value given for
      it, or its old value when no key names it; keys that name no
      attribute have no effect. */
  lemma {:induction false} ApplyUpdatesAttr(job: JobData, updates: seq<(string, AttrValue)>, name: AttrName)
    requires AllFit(updates)
    ensures Attr(ApplyUpdates(job, updates), name)
            == if LastUpdate(updates, name).Some? then LastUpdate(updates, name).value else Attr(job, name)
  {
    if updates != [] {
      var init := updates[..|updates| - 1];
      var last := updates[|updates| - 1];
      assert AllFit(init) by {
        forall i | 0 <= i < |init| ensures init[i] == updates[i] { }
      }
      ApplyUpdatesAttr(job, init, name);
      if AttrOf(last.0).Some? {
        SetAttrOnlyThat(ApplyUpdates(job, init), AttrOf(last.0).value, last.1, name);
      }
    }
  }

  /** An update list none of whose keys names an attribute leaves the job
      unchanged. */
  lemma {:induction false} ApplyUpdatesIgnoresUnknown(job: JobData, updates: seq<(string, AttrValue)>)
    requires forall i :: 0 <= i < |updates| ==> AttrOf(updates[i].0).None?
    ensures AllFit(updates) && ApplyUpdates(job, updates) == job
  {
    if updates != [] {
      var init := updates[..|updates| - 1];
      assert forall i :: 0 <= i < |init| ==> init[i] == updates[i];
      ApplyUpdatesIgnoresUnknown(job, init);
    }
  }

  /** The dictionary update_job_status hands to update_job. */
  function StatusUpdates(status: ProcessingStatus, progress: Option<int>, error: Option<string>): (r: seq<(string, AttrValue)>)
    ensures AllFit(r)
  {
    [("status", VStatus(status))]
    + (if progress.Some? then [("progress", VInt(progress.value))] else [])
    + (if error.Some? then [("error", VOptStr(error))] else [])
  }

  /** update_job_status always sets the status, and the progress and the
      error only when they are given; nothing else changes. */
  lemma StatusUpdatesEffect(job: JobData, status: ProcessingStatus, progress: Option<int>, error: Option<string>)
    ensures ApplyUpdates(job, StatusUpdates(status, progress, error))
            == job.(status := status,
                    progress := if progress.Some? then progress.value else job.progress,
                    error := if error.Some? then error else job.error)
  {
    var u := StatusUpdates(status, progress, error);
    var j1 := job.(status := status);
    var j2 := j1.(progress := if progress.Some? then progress.value else job.progress);
    var s1: seq<(string, AttrValue)> := [("status", VStatus(status))];
    var s2 := s1 + (if progress.Some? then [("progress", VInt(progress.value))] else []);
    assert s1[..0] == [];
    assert ApplyUpdates(job, s1) == j1;
    if progress.Some? {
      assert s2[..1] == s1;
    } else {
      assert s2 == s1;
    }
    assert ApplyUpdates(job, s2) == j2;
    if error.Some? {
      assert u[..|u| - 1] == s2;
    } else {
      assert u == s2;
    }
  }

  /** `user_id and job.user_id != user_id`, `status and job.status != status`:
      a filter that is None or the empty string does not apply. */
  predicate Matches(job: JobData, userId: Option<string>, status: Option<ProcessingStatus>)
  {
    && (userId.None? || userId.value == "" || job.userId == userId.value)
    && (status.None? || job.status == status.value)
  }

  predicate Distinct(ids: seq<string>)
  {
    forall i, j :: 0 <= i < j < |ids| ==> ids[i] != ids[j]
  }

  /** The stored jobs of `ids`, in that order, that pass the filters. */
  function MatchingJobs(jobs: map<string, JobData>, ids: seq<string>, userId: Option<string>, status: Option<ProcessingStatus>): (r: seq<JobData>)
    ensures |r| <= |ids|
    ensures forall j :: j in r ==> Matches(j, userId, status) && j in jobs.Values
  {
    if ids == [] then []
    else
      var id := ids[|ids| - 1];
      MatchingJobs(jobs, ids[..|ids| - 1], userId, status)
      + (if id in jobs && Matches(jobs[id], userId, status) then [jobs[id]] else [])
  }

  lemma {:induction false} MatchingJobsAppend(jobs: map<string, JobData>, a: seq<string>, b: seq<string>, userId: Option<string>, status: Option<ProcessingStatus>)
    ensures MatchingJobs(jobs, a + b, userId, status) == MatchingJobs(jobs, a, userId, status) + MatchingJobs(jobs, b, userId, status)
  {
    if b != [] {
      assert (a + b)[..|a + b| - 1] == a + b[..|b| - 1];
      assert (a + b)[|a + b| - 1] == b[|b| - 1];
      MatchingJobsAppend(jobs, a, b[..|b| - 1], userId, status);
    } else {
      assert a + b == a;
    }
  }

  /** The first `limit` elements, none for a limit of zero or less. */
  function Take<T>(xs: seq<T>, limit: int): (r: seq<T>)
    ensures |r| <= |xs| && (limit <= 0 ==> r == [])
    ensures limit >= 0 ==> |r| == if |xs| < limit then |xs| else limit
    ensures r <= xs
  {
    if limit <= 0 then [] else if |xs| <= limit then xs else xs[..limit]
  }

  /** The ids of `ids` whose job exists, has a timestamp that parses, and was
      last updated strictly before `cutoff`. */
  predicate Expired(job: JobData, cutoff: int, parse: string -> Option<int>)
  {
    parse(job.updatedAt).Some? && parse(job.updatedAt).value < cutoff
  }

  function ExpiredIds(jobs: map<string, JobData>, ids: seq<string>, cutoff: int, parse: string -> Option<int>): (r: seq<string>)
    ensures forall id :: id in r <==> id in ids && id in jobs && Expired(jobs[id], cutoff, parse)
  {
    if ids == [] then []
    else
      var id := ids[|ids| - 1];
      var init := ids[..|ids| - 1];
      assert forall x :: x in ids <==> x in init || x == id;
      ExpiredIds(jobs, init, cutoff, parse) + (if id in jobs && Expired(jobs[id], cutoff, parse) then [id] else [])
  }

  lemma {:induction false} ExpiredIdsDistinct(jobs: map<string, JobData>, ids: seq<string>, cutoff: int, parse: string -> Option<int>)
    requires Distinct(ids)
    ensures Distinct(ExpiredIds(jobs, ids, cutoff, parse))
  {
    if ids != [] {
      var init := ids[..|ids| - 1];
      ExpiredIdsDistinct(jobs, init, cutoff, parse);
      assert ids[|ids| - 1] !in init;
    }
  }

  /** `ids` without the members of `gone`, order kept. */
  function Without(ids: seq<string>, gone: set<string>): (r: seq<string>)
    ensures forall id :: id in r <==> id in ids && id !in gone
    ensures |r| <= |ids|
  {
    if ids == [] then []
    else (if ids[0] in gone then [] else [ids[0]]) + Without(ids[1..], gone)
  }

  lemma {:induction false} WithoutTwice(ids: seq<string>, gone: set<string>, more: set<string>)
    ensures Without(Without(ids, gone), more) == Without(ids, gone + more)
  {
    if ids != [] {
      WithoutTwice(ids[1..], gone, more);
      var rest := Without(ids[1..], gone);
      if ids[0] in gone {
        assert Without(ids, gone) == rest;
      } else {
        var w := [ids[0]] + rest;
        assert Without(ids, gone) == w;
        assert w[0] == ids[0] && w[1..] == rest;
        assert Without(w, more) == (if ids[0] in more then [] else [ids[0]]) + Without(rest, more);
      }
    }
  }

  lemma {:induction false} WithoutDistinct(ids: seq<string>, gone: set<string>)
    requires Distinct(ids)
    ensures Distinct(Without(ids, gone))
  {
    if ids != [] {
      WithoutDistinct(ids[1..], gone);
      assert ids[0] !in ids[1..];
    }
  }

  /** Once `limit` elements are taken, more input changes nothing. */
  lemma TakeFull<T>(xs: seq<T>, ys: seq<T>, limit: int)
    requires |Take(xs, limit)| >= limit
    ensures Take(xs + ys, limit) == Take(xs, limit)
  {
    if limit > 0 {
      assert (xs + ys)[..limit] == xs[..limit];
    }
  }

  /** Below the limit everything is taken. */
  lemma TakeShort<T>(xs: seq<T>, ys: seq<T>, limit: int)
    requires |Take(xs, limit)| < limit
    requires |ys| <= 1
    ensures Take(xs, limit) == xs
    ensures Take(xs + ys, limit) == xs + ys
  {
  }

  lemma TakeMembers<T>(xs: seq<T>, limit: int, x: T)
    requires x in Take(xs, limit)
    ensures x in xs
  {
  }

  /** One more id examined below the limit adds its job when it matches. */
  lemma ListingStep(jobs: map<string, JobData>, ids: seq<string>, i: int, userId: Option<string>, status: Option<ProcessingStatus>, limit: int)
    requires 0 <= i < |ids| && ids[i] in jobs
    requires |Take(MatchingJobs(jobs, ids[..i], userId, status), limit)| < limit
    ensures Matches(jobs[ids[i]], userId, status) ==>
              Take(MatchingJobs(jobs, ids[..i + 1], userId, status), limit)
              == Take(MatchingJobs(jobs, ids[..i], userId, status), limit) + [jobs[ids[i]]]
    ensures !Matches(jobs[ids[i]], userId, status) ==>
              Take(MatchingJobs(jobs, ids[..i + 1], userId, status), limit)
              == Take(MatchingJobs(jobs, ids[..i], userId, status), limit)
  {
    var step := if Matches(jobs[ids[i]], userId, status) then [jobs[ids[i]]] else [];
    assert ids[..i + 1] == ids[..i] + [ids[i]];
    MatchingJobsAppend(jobs, ids[..i], [ids[i]], userId, status);
    assert MatchingJobs(jobs, [ids[i]], userId, status) == step by {
      assert [ids[i]][..0] == [];
    }
    TakeShort(MatchingJobs(jobs, ids[..i], userId, status), step, limit);
    assert Take(MatchingJobs(jobs, ids[..i], userId, status), limit) + [] == Take(MatchingJobs(jobs, ids[..i], userId, status), limit);
  }

  /** Once the limit is reached, the rest of the ids change nothing. */
  lemma ListingStops(jobs: map<string, JobData>, ids: seq<string>, i: int, userId: Option<string>, status: Option<ProcessingStatus>, limit: int)
    requires 0 <= i <= |ids|
    requires |Take(MatchingJobs(jobs, ids[..i], userId, status), limit)| >= limit
    ensures Take(MatchingJobs(jobs, ids, userId, status), limit) == Take(MatchingJobs(jobs, ids[..i], userId, status), limit)
  {
    MatchingJobsAppend(jobs, ids[..i], ids[i..], userId, status);
    assert ids[..i] + ids[i..] == ids;
    TakeFull(MatchingJobs(jobs, ids[..i], userId, status), MatchingJobs(jobs, ids[i..], userId, status), limit);
  }

  lemma ListingSound(jobs: map<string, JobData>, ids: seq<string>, userId: Option<string>, status: Option<ProcessingStatus>, limit: int)
    ensures forall j :: j in Take(MatchingJobs(jobs, ids, userId, status), limit) ==> Matches(j, userId, status) && j in jobs.Values
  {
    forall j | j in Take(MatchingJobs(jobs, ids, userId, status), limit) ensures Matches(j, userId, status) && j in jobs.Values {
      TakeMembers(MatchingJobs(jobs, ids, userId, status), limit, j);
    }
  }

  /** The set of the elements of a sequence. */
  function Elems(ids: seq<string>): (r: set<string>)
  {
    set id | id in ids
  }

  /** One more id of a list without repetitions: it is new, and the set of
      ids seen grows by it. */
  lemma ElemsStep(ids: seq<string>, k: int)
    requires Distinct(ids) && 0 <= k < |ids|
    ensures ids[k] !in Elems(ids[..k])
    ensures Elems(ids[..k + 1]) == Elems(ids[..k]) + {ids[k]}
  {
    assert ids[..k + 1] == ids[..k] + [ids[k]];
  }

  /** Deleting one more present key from a dictionary. */
  lemma RemoveOneMore(m: map<string, JobData>, gone: set<string>, id: string)
    requires id in m && id !in gone
    ensures (m - gone) - {id} == m - (gone + {id})
  {
  }

  /** Deleting `n` distinct present keys leaves `n` fewer entries. */
  lemma RemoveDistinctCount(m: map<string, JobData>, ids: seq<string>)
    requires Distinct(ids) && forall id :: id in ids ==> id in m
    ensures |(m - Elems(ids)).Keys| == |m.Keys| - |ids|
  {
    DistinctElems(ids);
    assert (m - Elems(ids)).Keys == m.Keys - Elems(ids);
    assert m.Keys * Elems(ids) == Elems(ids);
  }

  lemma {:induction false} DistinctElems(ids: seq<string>)
    requires Distinct(ids)
    ensures |Elems(ids)| == |ids|
  {
    if ids != [] {
      var init := ids[..|ids| - 1];
      var last := ids[|ids| - 1];
      assert ids == init + [last];
      assert Elems(ids) == Elems(init) + {last};
      assert last !in Elems(init);
      DistinctElems(init);
    }
  }

  lemma {:induction false} WithoutNothing(ids: seq<string>)
    ensures Without(ids, {}) == ids
  {
    if ids != [] {
      WithoutNothing(ids[1..]);
      assert ids == [ids[0]] + ids[1..];
    }
  }

  /** Removing the expired ids from the dictionary leaves exactly the jobs
      that are not expired. */
  lemma RemovedExpired(jobs: map<string, JobData>, ids: seq<string>, cutoff: int, parse: string -> Option<int>)
    requires forall id :: id in jobs <==> id in ids
    ensures jobs - Elems(ExpiredIds(jobs, ids, cutoff, parse))
            == map id | id in jobs && !Expired(jobs[id], cutoff, parse) :: jobs[id]
  {
  }

  /** Keys in order and in the map agree, appear once, and each job is
      stored under its own id. */
  ghost predicate StoreInvariant(jobs: map<string, JobData>, order: seq<string>)
  {
    && (forall id :: id in jobs <==> id in order)
    && Distinct(order)
    && (forall id :: id in jobs ==> jobs[id].jobId == id)
  }

  /** Deleting a key from the dictionary and from the order keeps the
      invariant. */
  lemma RemoveKeepsInvariant(jobs: map<string, JobData>, order: seq<string>, id: string)
    requires StoreInvariant(jobs, order)
    ensures StoreInvariant(jobs - {id}, Without(order, {id}))
  {
    WithoutDistinct(order, {id});
  }

  /** Where the deleting loop of cleanup_expired_jobs stands after `n`
      deletions of the ids in `gone`. */
  ghost predicate RemovedSoFar(jobs0: map<string, JobData>, order0: seq<string>, gone: set<string>,
                               jobs: map<string, JobData>, order: seq<string>)
  {
    && jobs == jobs0 - gone
    && order == Without(order0, gone)
    && StoreInvariant(jobs, order)
  }

  lemma RemovedNothing(jobs: map<string, JobData>, order: seq<string>)
    requires StoreInvariant(jobs, order)
    ensures RemovedSoFar(jobs, order, {}, jobs, order)
  {
    WithoutNothing(order);
    assert jobs - {} == jobs;
  }

  lemma RemoveStep(jobs0: map<string, JobData>, order0: seq<string>, gone: set<string>,
                   jobs: map<string, JobData>, order: seq<string>, id: string)
    requires RemovedSoFar(jobs0, order0, gone, jobs, order)
    requires id in jobs0 && id !in gone
    ensures RemovedSoFar(jobs0, order0, gone + {id}, jobs - {id}, Without(order, {id}))
  {
    RemoveOneMore(jobs0, gone, id);
    RemoveKeepsInvariant(jobs, order, id);
    WithoutTwice(order0, gone, {id});
  }

  /** The deleting loop of cleanup_expired_jobs after its first `k` ids. */
  ghost predicate DeletedPrefix(jobs0: map<string, JobData>, order0: seq<string>, ids: seq<string>, k: int,
                                jobs: map<string, JobData>, order: seq<string>)
    requires 0 <= k <= |ids|
  {
    RemovedSoFar(jobs0, order0, Elems(ids[..k]), jobs, order)
  }

  lemma DeletedNone(jobs: map<string, JobData>, order: seq<string>, ids: seq<string>)
    requires StoreInvariant(jobs, order)
    ensures DeletedPrefix(jobs, order, ids, 0, jobs, order)
  {
    assert Elems(ids[..0]) == {};
    RemovedNothing(jobs, order);
  }

  lemma DeleteNext(jobs0: map<string, JobData>, order0: seq<string>, ids: seq<string>, k: int,
                   jobs: map<string, JobData>, order: seq<string>)
    requires Distinct(ids) && 0 <= k < |ids| && ids[k] in jobs0
    requires DeletedPrefix(jobs0, order0, ids, k, jobs, order)
    ensures DeletedPrefix(jobs0, order0, ids, k + 1, jobs - {ids[k]}, Without(order, {ids[k]}))
  {
    ElemsStep(ids, k);
    RemoveStep(jobs0, order0, Elems(ids[..k]), jobs, order, ids[k]);
  }

  class InMemoryJobStore {
    /** The dictionary's keys in insertion order. */
    var order: seq<string>
    /** The dictionary: job id to stored job. */
    var jobs: map<string, JobData>

    /** Keys in order and in the map agree, appear once, and each job is
        stored under its own id (store_job keys by `job_data.job_id`). */
    ghost predicate Valid()
      reads this
    {
      StoreInvariant(jobs, order)
    }

    constructor()
      ensures Valid()
      ensures jobs == map[] && order == []
    {
      jobs := map[];
      order := [];
    }

    /** get_job: the stored job, None for an absent id. */
    function GetJob(jobId: string): (r: Option<JobData>)
      reads this
      requires Valid()
      ensures r.None? <==> jobId !in order
      ensures r.Some? ==> r.value.jobId == jobId && r.value in jobs.Values
    {
      if jobId in jobs then Some(jobs[jobId]) else None
    }

    /** store_job: the job, its `updated_at` refreshed, is stored under its
        id; a new id goes to the end of the order, an existing one keeps its
        place; every other entry is untouched. */
    method StoreJob(job: JobData, now: string)
      requires Valid()
      modifies this
      ensures Valid()
      ensures GetJob(job.jobId) == Some(job.UpdateTimestamp(now))
      ensures forall id :: id != job.jobId ==> GetJob(id) == old(GetJob(id))
      ensures jobs == old(jobs)[job.jobId := job.UpdateTimestamp(now)]
      ensures order == if job.jobId in old(jobs) then old(order) else old(order) + [job.jobId]
    {
      var stamped := job.UpdateTimestamp(now);
      if stamped.jobId !in jobs {
        order := order + [stamped.jobId];
      }
      jobs := jobs[stamped.jobId := stamped];
    }

    /** update_job: None, and nothing changed, for an absent id; otherwise
        the assignments are applied in order, attributes only, and the job
        is stored again (under its possibly new id) and returned. */
    method UpdateJob(jobId: string, updates: seq<(string, AttrValue)>, now: string) returns (r: Option<JobData>)
      requires Valid()
      requires AllFit(updates)
      modifies this
      ensures Valid()
      ensures old(GetJob(jobId)).None? ==> r.None? && jobs == old(jobs) && order == old(order)
      ensures old(GetJob(jobId)).Some? ==>
                && r == Some(ApplyUpdates(old(jobs)[jobId], updates).UpdateTimestamp(now))
                && jobs == old(jobs)[r.value.jobId := r.value]
                && order == if r.value.jobId in old(jobs) then old(order) else old(order) + [r.value.jobId]
    {
      var found := GetJob(jobId);
      if found.None? {
        return None;
      }
      var job := found.value;
      var i := 0;
      while i < |updates|
        invariant 0 <= i <= |updates|
        invariant AllFit(updates[..i])
        invariant job == ApplyUpdates(found.value, updates[..i])
      {
        var (key, value) := updates[i];
        assert updates[..i + 1][..i] == updates[..i];
        var name := AttrOf(key);
        if name.Some? {
          job := SetAttr(job, name.value, value);
        }
        i := i + 1;
      }
      assert updates[..i] == updates;
      StoreJob(job, now);
      r := Some(job.UpdateTimestamp(now));
    }

    /** update_job_status: the update dictionary is built and handed to
        update_job; by StatusUpdatesEffect only the status, and the progress
        and error when given, change. */
    method UpdateJobStatus(jobId: string, status: ProcessingStatus, progress: Option<int>, error: Option<string>, now: string)
      returns (r: Option<JobData>)
      requires Valid()
      modifies this
      ensures Valid()
      ensures r.Some? <==> old(GetJob(jobId)).Some?
      ensures r.None? ==> jobs == old(jobs) && order == old(order)
      ensures r.Some? ==>
                var before := old(jobs)[jobId];
                && r.value == before.(status := status,
                                      progress := if progress.Some? then progress.value else before.progress,
                                      error := if error.Some? then error else before.error,
                                      updatedAt := now)
                && jobs == old(jobs)[jobId := r.value]
                && order == old(order)
    {
      var updates: seq<(string, AttrValue)> := [("status", VStatus(status))];
      if progress.Some? {
        updates := updates + [("progress", VInt(progress.value))];
      }
      if error.Some? {
        updates := updates + [("error", VOptStr(error))];
      }
      assert updates == StatusUpdates(status, progress, error);
      if jobId in jobs {
        StatusUpdatesEffect(jobs[jobId], status, progress, error);
      }
      r := UpdateJob(jobId, updates, now);
    }

    /** delete_job: True exactly when the id was present; afterwards it is
        absent and every other entry is untouched. */
    method DeleteJob(jobId: string) returns (deleted: bool)
      requires Valid()
      modifies this
      ensures Valid()
      ensures deleted <==> jobId in old(jobs)
      ensures jobs == old(jobs) - {jobId}
      ensures order == Without(old(order), {jobId})
      ensures GetJob(jobId).None?
      ensures forall id :: id != jobId ==> GetJob(id) == old(GetJob(id))
    {
      RemoveKeepsInvariant(jobs, order, jobId);
      if jobId in jobs {
        jobs := jobs - {jobId};
        order := Without(order, {jobId});
        return true;
      }
      WithoutAbsent(order, jobId);
      return false;
    }

    /** list_jobs: the first `limit` stored jobs, in store order, that pass
        the user and status filters. */
    method ListJobs(userId: Option<string>, status: Option<ProcessingStatus>, limit: int) returns (result: seq<JobData>)
      requires Valid()
      ensures result == Take(MatchingJobs(jobs, order, userId, status), limit)
      ensures |result| <= if limit < 0 then 0 else limit
      ensures forall j :: j in result ==> Matches(j, userId, status) && j in jobs.Values
    {
      result := [];
      var i := 0;
      while i < |order|
        invariant 0 <= i <= |order|
        invariant result == Take(MatchingJobs(jobs, order[..i], userId, status), limit)
      {
        if |result| >= limit {
          ListingStops(jobs, order, i, userId, status, limit);
          break;
        }
        var job := jobs[order[i]];
        ListingStep(jobs, order, i, userId, status, limit);
        if Matches(job, userId, status) {
          result := result + [job];
        }
        i := i + 1;
      }
      if i == |order| {
        assert order[..i] == order;
      }
      ListingSound(jobs, order, userId, status, limit);
    }

    /** The deleting loop of cleanup_expired_jobs: each listed id, all of
        them present and none twice, is deleted and counted. */
    method RemoveAll(ids: seq<string>) returns (count: int)
      requires Valid()
      requires Distinct(ids) && forall id :: id in ids ==> id in jobs
      modifies this
      ensures Valid()
      ensures count == |ids|
      ensures jobs == old(jobs) - Elems(ids)
      ensures order == Without(old(order), Elems(ids))
      ensures |jobs.Keys| == |old(jobs).Keys| - count
    {
      DeletedNone(jobs, order, ids);
      count := 0;
      var k := 0;
      while k < |ids|
        invariant 0 <= k <= |ids|
        invariant count == k
        invariant DeletedPrefix(old(jobs), old(order), ids, k, jobs, order)
      {
        DeleteNext(old(jobs), old(order), ids, k, jobs, order);
        jobs := jobs - {ids[k]};
        order := Without(order, {ids[k]});
        count := count + 1;
        k := k + 1;
      }
      assert ids[..k] == ids;
      RemoveDistinctCount(old(jobs), ids);
    }

    /** cleanup_expired_jobs: collect the ids whose `updated_at` parses and
        lies strictly before now minus JOB_EXPIRATION hours, then delete them
        one by one, counting. Jobs whose timestamp does not parse are kept. */
    method CleanupExpiredJobs(now: int, parse: string -> Option<int>) returns (count: int)
      requires Valid()
      modifies this
      ensures Valid()
      ensures var gone := ExpiredIds(old(jobs), old(order), now - JobExpirationHours * MicrosPerHour, parse);
              && count == |gone|
              && order == Without(old(order), Elems(gone))
              && jobs == map id | id in old(jobs) && !Expired(old(jobs)[id], now - JobExpirationHours * MicrosPerHour, parse) :: old(jobs)[id]
      ensures |jobs.Keys| == |old(jobs).Keys| - count
    {
      var cutoff := now - JobExpirationHours * MicrosPerHour;
      var toDelete: seq<string> := [];
      var i := 0;
      while i < |order|
        invariant 0 <= i <= |order|
        invariant toDelete == ExpiredIds(jobs, order[..i], cutoff, parse)
      {
        assert order[..i + 1][..i] == order[..i];
        if Expired(jobs[order[i]], cutoff, parse) {
          toDelete := toDelete + [order[i]];
        }
        i := i + 1;
      }
      assert order[..i] == order;
      ExpiredIdsDistinct(jobs, order, cutoff, parse);
      RemovedExpired(jobs, order, cutoff, parse);
      count := RemoveAll(toDelete);
    }
  }

  lemma {:induction false} WithoutAbsent(ids: seq<string>, id: string)
    requires id !in ids
    ensures Without(ids, {id}) == ids
  {
    if ids != [] {
      WithoutAbsent(ids[1..], id);
      assert ids == [ids[0]] + ids[1..];
    }
  }
}
